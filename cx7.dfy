/*
 * A ConnectX-7 PCIe switch port (pci/cx7.py): the table of ConnectX-7 NICs
 * with the topology above each, cached for the whole class; the choice of
 * the NIC nearest to the port, cached per port (a `None` answer included);
 * and the parsing of an `mcra` register dump.
 *
 * The sysfs topology and the `mcra` command's output are oracles passed in
 * as functions.
 */
module Cx7Nics {
  import opened Text
  import opened GpuErrors
  import opened PciDevices

  // -------------------------------------------------------------------------
  // Python dicts, in insertion order

  type Dict<K, V> = seq<(K, V)>

  predicate HasKey<K(==), V>(d: Dict<K, V>, k: K)
  {
    exists i :: 0 <= i < |d| && d[i].0 == k
  }

  /** `d[k] = v`: an existing key keeps its place, a new one goes last. */
  function Store<K(==), V>(d: Dict<K, V>, k: K, v: V): Dict<K, V>
  {
    if |d| == 0 then [(k, v)]
    else if d[0].0 == k then [(k, v)] + d[1..]
    else [d[0]] + Store(d[1..], k, v)
  }

  /** `d.get(k)` */
  function Lookup<K(==), V>(d: Dict<K, V>, k: K): Option<V>
  {
    if |d| == 0 then None
    else if d[0].0 == k then Some(d[0].1)
    else Lookup(d[1..], k)
  }

  predicate UniqueKeys<K(==), V>(d: Dict<K, V>)
  {
    forall i, j :: 0 <= i < j < |d| ==> d[i].0 != d[j].0
  }

  /** A store reads back, leaves every other key alone, keeps the keys
      distinct and adds a key only when it is new. */
  lemma {:induction false} StoreMeans<K, V>(d: Dict<K, V>, k: K, v: V, k': K)
    ensures Lookup(Store(d, k, v), k) == Some(v)
    ensures k' != k ==> Lookup(Store(d, k, v), k') == Lookup(d, k')
    ensures UniqueKeys(d) ==> UniqueKeys(Store(d, k, v))
    ensures |Store(d, k, v)| == if Lookup(d, k).Some? then |d| else |d| + 1
    ensures HasKey(Store(d, k, v), k') <==> k' == k || HasKey(d, k')
  {
    if |d| > 0 {
      StoreMeans(d[1..], k, v, k');
      var s := Store(d, k, v);
      if d[0].0 == k {
        assert s[1..] == d[1..];
        HasKeyCons(s, k');
        HasKeyCons(d, k');
        if UniqueKeys(d) {
          forall i, j | 0 <= i < j < |s|
            ensures s[i].0 != s[j].0
          {
            assert s[j] == d[j];
            if i > 0 {
              assert s[i] == d[i];
            }
          }
        }
        LookupNone(d[1..], k);
      } else {
        assert s[1..] == Store(d[1..], k, v);
        HasKeyCons(s, k');
        HasKeyCons(d, k');
        if UniqueKeys(d) {
          UniqueTail(d);
          forall j | 0 < j < |s|
            ensures s[0].0 != s[j].0
          {
            assert s[j] == Store(d[1..], k, v)[j - 1];
            HasKeyCons(d, d[0].0);
            if s[j].0 != k {
              StoreMeans(d[1..], k, v, s[j].0);
              assert HasKey(Store(d[1..], k, v), s[j].0);
              assert HasKey(d[1..], s[j].0);
              NotInTail(d);
            }
          }
        }
      }
    }
  }

  lemma HasKeyCons<K, V>(d: Dict<K, V>, k: K)
    requires |d| > 0
    ensures HasKey(d, k) <==> d[0].0 == k || HasKey(d[1..], k)
  {
    if HasKey(d, k) && d[0].0 != k {
      var i :| 0 <= i < |d| && d[i].0 == k;
      assert d[1..][i - 1] == d[i];
    }
    if HasKey(d[1..], k) {
      var i :| 0 <= i < |d[1..]| && d[1..][i].0 == k;
      assert d[i + 1] == d[1..][i];
    }
  }

  lemma UniqueTail<K, V>(d: Dict<K, V>)
    requires |d| > 0 && UniqueKeys(d)
    ensures UniqueKeys(d[1..])
  {
    forall i, j | 0 <= i < j < |d[1..]|
      ensures d[1..][i].0 != d[1..][j].0
    {
      assert d[1..][i] == d[i + 1] && d[1..][j] == d[j + 1];
    }
  }

  /** The head's key does not occur again. */
  lemma NotInTail<K, V>(d: Dict<K, V>)
    requires |d| > 0 && UniqueKeys(d)
    ensures !HasKey(d[1..], d[0].0)
  {
    forall i | 0 <= i < |d[1..]|
      ensures d[1..][i].0 != d[0].0
    {
      assert d[1..][i] == d[i + 1];
    }
  }

  lemma {:induction false} LookupNone<K, V>(d: Dict<K, V>, k: K)
    ensures Lookup(d, k).None? <==> !HasKey(d, k)
  {
    if |d| > 0 {
      LookupNone(d[1..], k);
      HasKeyCons(d, k);
    }
  }

  // -------------------------------------------------------------------------
  // find_cx7_nics

  /** `sysfs_find_topo_bdfs(path)[1:]`: the topology above the device. */
  function Parents(topo: seq<string>): seq<string>
  {
    if |topo| == 0 then [] else topo[1..]
  }

  /** The table `find_cx7_nics` builds from the ConnectX-7 NIC paths
      (`sysfs_find_devices(0x15b3, 0x1021)`): each NIC's BDF to the BDFs
      above it. */
  function NicTable(paths: seq<string>, topo: string -> seq<string>): Dict<string, seq<string>>
  {
    if |paths| == 0 then []
    else
      var p := paths[|paths| - 1];
      Store(NicTable(paths[..|paths| - 1], topo), Basename(p), Parents(topo(p)))
  }

  /** The sysfs topology of a device lists the device first, then each
      bridge above it, all distinct. */
  predicate TopoShaped(p: string, topo: seq<string>)
  {
    |topo| > 0 && topo[0] == Basename(p) && Basename(p) !in topo[1..]
  }

  /** The table's keys are distinct and are the NICs' BDFs; a NIC listed
      once maps to the topology above it, which does not contain the NIC
      itself. */
  lemma {:induction false} NicTableMeans(paths: seq<string>, topo: string -> seq<string>, i: nat)
    requires i < |paths|
    requires forall j :: i < j < |paths| ==> Basename(paths[j]) != Basename(paths[i])
    ensures UniqueKeys(NicTable(paths, topo))
    ensures Lookup(NicTable(paths, topo), Basename(paths[i])) == Some(Parents(topo(paths[i])))
    ensures TopoShaped(paths[i], topo(paths[i])) ==>
      Basename(paths[i]) !in Lookup(NicTable(paths, topo), Basename(paths[i])).value
    decreases |paths|
  {
    var n := |paths|;
    var prefix := paths[..n - 1];
    var p := paths[n - 1];
    if i == n - 1 {
      NicTableUnique(prefix, topo);
      StoreMeans(NicTable(prefix, topo), Basename(p), Parents(topo(p)), Basename(p));
    } else {
      NicTableMeans(prefix, topo, i);
      assert prefix[i] == paths[i];
      StoreMeans(NicTable(prefix, topo), Basename(p), Parents(topo(p)), Basename(paths[i]));
    }
  }

  lemma {:induction false} NicTableUnique(paths: seq<string>, topo: string -> seq<string>)
    ensures UniqueKeys(NicTable(paths, topo))
    decreases |paths|
  {
    if |paths| > 0 {
      var p := paths[|paths| - 1];
      NicTableUnique(paths[..|paths| - 1], topo);
      StoreMeans(NicTable(paths[..|paths| - 1], topo), Basename(p), Parents(topo(p)), Basename(p));
    }
  }

  /** `Cx7._cx7_nics`: the table, once any port has asked for it. */
  class NicCache {
    var nics: Option<Dict<string, seq<string>>>

    constructor()
      ensures nics == None
    {
      nics := None;
    }

    /** `Cx7.find_cx7_nics()`: the cached table, or a new one, kept. */
    method FindCx7Nics(paths: seq<string>, topo: string -> seq<string>) returns (r: Dict<string, seq<string>>)
      modifies this
      ensures old(nics).Some? ==> r == old(nics).value && nics == old(nics)
      ensures old(nics).None? ==> r == NicTable(paths, topo) && nics == Some(r)
    {
      if nics.Some? {
        return nics.value;
      }
      var table: Dict<string, seq<string>> := [];
      var i := 0;
      while i < |paths|
        invariant 0 <= i <= |paths|
        invariant table == NicTable(paths[..i], topo)
      {
        assert paths[..i + 1][..i] == paths[..i];
        table := Store(table, Basename(paths[i]), Parents(topo(paths[i])));
        i := i + 1;
      }
      assert paths[..|paths|] == paths;
      nics := Some(table);
      r := table;
    }
  }

  // -------------------------------------------------------------------------
  // cx7_nic_bdf

  /** `xs.index(x)`, `None` where it raises. */
  function IndexOf(xs: seq<string>, x: string): (r: Option<nat>)
    ensures r.Some? ==> r.value < |xs| && xs[r.value] == x && x !in xs[..r.value]
    ensures r.None? <==> x !in xs
  {
    if |xs| == 0 then None
    else if xs[0] == x then Some(0)
    else
      var r := IndexOf(xs[1..], x);
      assert xs == [xs[0]] + xs[1..];
      if r.Some? then
        assert xs[..r.value + 1] == [xs[0]] + xs[1..][..r.value];
        Some(r.value + 1)
      else None
  }

  /** The best NIC so far and its distance; no distance is infinity. */
  datatype Best = Best(nic: Option<string>, distance: Option<nat>)

  predicate Beats(d: nat, best: Option<nat>)
  {
    best.None? || d < best.value
  }

  /** The inner loop over one NIC's topology: the first BDF found in the
      port's topology closer than the best so far replaces it. */
  function ScanNic(my: seq<string>, nic: string, bdfs: seq<string>, best: Best): Best
  {
    if |bdfs| == 0 then best
    else
      var d := IndexOf(my, bdfs[0]);
      if d.Some? && Beats(d.value, best.distance) then Best(Some(nic), d)
      else ScanNic(my, nic, bdfs[1..], best)
  }

  /** The outer loop over the NICs. */
  function ScanAll(my: seq<string>, nics: Dict<string, seq<string>>, best: Best): Best
  {
    if |nics| == 0 then best
    else ScanAll(my, nics[1..], ScanNic(my, nics[0].0, nics[0].1, best))
  }

  /** The nearest NIC to a port whose topology is `my`. */
  function SelectNic(my: seq<string>, nics: Dict<string, seq<string>>): Best
  {
    ScanAll(my, nics, Best(None, None))
  }

  /** The distance of a NIC's lowest bridge shared with the port: the
      position in the port's topology of the first of the NIC's BDFs that
      occurs there. */
  function FirstHit(my: seq<string>, bdfs: seq<string>): Option<nat>
  {
    if |bdfs| == 0 then None
    else if bdfs[0] in my then IndexOf(my, bdfs[0])
    else FirstHit(my, bdfs[1..])
  }

  lemma {:induction false} FirstHitSome(my: seq<string>, bdfs: seq<string>, b: string)
    requires b in bdfs && b in my
    ensures FirstHit(my, bdfs).Some?
  {
    if bdfs[0] != b {
      FirstHitSome(my, bdfs[1..], b);
    }
  }

  /** The inner loop keeps the best unless it finds a closer BDF; what it
      picks is one of the NIC's BDFs, no farther than the NIC's first hit. */
  lemma {:induction false} ScanNicMeans(my: seq<string>, nic: string, bdfs: seq<string>, best: Best)
    ensures var s := ScanNic(my, nic, bdfs, best);
      && (s == best || (s.nic == Some(nic) && s.distance.Some? && Beats(s.distance.value, best.distance)
                        && s.distance.value < |my| && my[s.distance.value] in bdfs))
      && (FirstHit(my, bdfs).Some? ==> s.distance.Some? && s.distance.value <= FirstHit(my, bdfs).value)
  {
    if |bdfs| > 0 {
      ScanNicMeans(my, nic, bdfs[1..], best);
    }
  }

  /** The NIC picked from the table: the `k`-th, at a distance where it
      shares the port's topology, every NIC before it being farther. */
  predicate Picked(my: seq<string>, nics: Dict<string, seq<string>>, k: nat, r: Best, best: Best)
  {
    && k < |nics|
    && r.nic == Some(nics[k].0) && r.distance.Some? && Beats(r.distance.value, best.distance)
    && r.distance.value < |my| && my[r.distance.value] in nics[k].1
    && (forall j :: 0 <= j < k && FirstHit(my, nics[j].1).Some? ==> FirstHit(my, nics[j].1).value > r.distance.value)
  }

  /** No NIC's first hit is closer than the distance found. */
  predicate Bound(my: seq<string>, nics: Dict<string, seq<string>>, r: Best)
  {
    forall j :: 0 <= j < |nics| && FirstHit(my, nics[j].1).Some? ==>
      r.distance.Some? && r.distance.value <= FirstHit(my, nics[j].1).value
  }

  lemma {:induction false} ScanAllMeans(my: seq<string>, nics: Dict<string, seq<string>>, best: Best)
    requires best.nic.None? <==> best.distance.None?
    ensures var r := ScanAll(my, nics, best);
      && (r.nic.None? <==> r.distance.None?)
      && Bound(my, nics, r)
      && (r.distance == best.distance ==> r == best)
      && (r.distance != best.distance ==> exists k: nat :: Picked(my, nics, k, r, best))
    decreases |nics|
  {
    if |nics| > 0 {
      var s := ScanNic(my, nics[0].0, nics[0].1, best);
      var tail := nics[1..];
      var r := ScanAll(my, tail, s);
      ScanNicMeans(my, nics[0].0, nics[0].1, best);
      ScanAllMeans(my, tail, s);
      assert s.distance.Some? && r.distance.Some? && r.distance != s.distance ==> r.distance.value < s.distance.value;
      forall j | 0 <= j < |nics| && FirstHit(my, nics[j].1).Some?
        ensures r.distance.Some? && r.distance.value <= FirstHit(my, nics[j].1).value
      {
        if j > 0 {
          assert tail[j - 1] == nics[j];
        }
      }
      if r.distance == s.distance {
        if s != best {
          assert Picked(my, nics, 0, r, best);
        }
      } else {
        var k: nat :| Picked(my, tail, k, r, s);
        assert tail[k] == nics[k + 1];
        forall j | 0 <= j < k + 1 && FirstHit(my, nics[j].1).Some?
          ensures FirstHit(my, nics[j].1).value > r.distance.value
        {
          if j > 0 {
            assert tail[j - 1] == nics[j];
          }
        }
        assert Picked(my, nics, k + 1, r, best);
      }
    }
  }

  /** `cx7_nic_bdf` picks no NIC exactly when no NIC shares a bridge with
      the port; otherwise it picks a NIC that shares the bridge at the
      distance found, no NIC is closer, and every NIC before the pick in
      the table is strictly farther (ties go to the first). */
  lemma SelectNicMeans(my: seq<string>, nics: Dict<string, seq<string>>)
    ensures var r := SelectNic(my, nics);
      && (r.nic.None? <==> forall j :: 0 <= j < |nics| ==> FirstHit(my, nics[j].1).None?)
      && (r.nic.Some? ==> exists k: nat :: Picked(my, nics, k, r, Best(None, None)))
      && Bound(my, nics, r)
  {
    var r := SelectNic(my, nics);
    ScanAllMeans(my, nics, Best(None, None));
    if r.nic.Some? {
      var k: nat :| Picked(my, nics, k, r, Best(None, None));
      FirstHitSome(my, nics[k].1, my[r.distance.value]);
    }
  }

  /** Going up a NIC's topology, the shared bridges get farther from the
      port, as they do in a tree. */
  predicate Ascending(my: seq<string>, bdfs: seq<string>)
  {
    forall a, b :: 0 <= a < b < |bdfs| && bdfs[a] in my && bdfs[b] in my ==>
      IndexOf(my, bdfs[a]).value < IndexOf(my, bdfs[b]).value
  }

  lemma {:induction false} FirstHitLeast(my: seq<string>, bdfs: seq<string>, b: string)
    requires Ascending(my, bdfs) && b in bdfs && b in my
    ensures FirstHit(my, bdfs).Some? && FirstHit(my, bdfs).value <= IndexOf(my, b).value
  {
    if bdfs[0] != b {
      if bdfs[0] in my {
        var i :| 0 <= i < |bdfs| && bdfs[i] == b;
        assert i > 0;
      } else {
        assert Ascending(my, bdfs[1..]) by {
          forall a, c | 0 <= a < c < |bdfs[1..]| && bdfs[1..][a] in my && bdfs[1..][c] in my
            ensures IndexOf(my, bdfs[1..][a]).value < IndexOf(my, bdfs[1..][c]).value
          {
            assert bdfs[1..][a] == bdfs[a + 1] && bdfs[1..][c] == bdfs[c + 1];
          }
        }
        FirstHitLeast(my, bdfs[1..], b);
      }
    }
  }

  /** In a tree-shaped topology the NIC picked is the nearest of all: no
      bridge of any NIC that the port shares is closer. */
  lemma SelectNicNearest(my: seq<string>, nics: Dict<string, seq<string>>)
    requires forall j :: 0 <= j < |nics| ==> Ascending(my, nics[j].1)
    ensures var r := SelectNic(my, nics);
      forall j, b :: 0 <= j < |nics| && b in nics[j].1 && b in my ==>
        r.distance.Some? && r.distance.value <= IndexOf(my, b).value
  {
    SelectNicMeans(my, nics);
    forall j, b | 0 <= j < |nics| && b in nics[j].1 && b in my
      ensures SelectNic(my, nics).distance.Some? && SelectNic(my, nics).distance.value <= IndexOf(my, b).value
    {
      FirstHitLeast(my, nics[j].1, b);
    }
  }

  // -------------------------------------------------------------------------
  // run_mcra_query

  /** `f"{x}"` of an optional string. */
  function PyStr(x: Option<string>): string
  {
    if x.None? then "None" else x.value
  }

  /** The `mcra` command line: the NIC, the first address and the byte
      count from it to the end of the word at `last`. */
  function McraCommand(bdf: Option<string>, first: nat, last: nat): string
  {
    "mcra" + [' '] + PyStr(bdf) + [' '] + McraWindow(first, last)
  }

  /** `f"{offset:#x},{size}"` with `size = last - first + 4`. */
  function McraWindow(first: nat, last: nat): string
  {
    Hex(first) + [','] + IntDec(last - first + 4)
  }

  /** No blank, comma or newline in a `hex()` string, which starts with a
      digit and ends with one. */
  lemma HexPlain(n: nat)
    ensures ' ' !in Hex(n) && ',' !in Hex(n)
    ensures |Hex(n)| > 2 && !IsSpace(Hex(n)[0]) && !IsSpace(Hex(n)[|Hex(n)| - 1])
  {
    var d := Digits(n, 16);
    DigitsValue(n, 16);
    forall i | 0 <= i < |Hex(n)|
      ensures Hex(n)[i] != ' ' && Hex(n)[i] != ','
    {
      if i >= 2 {
        assert Hex(n)[i] == d[i - 2];
      }
    }
    assert Hex(n)[|Hex(n)| - 1] == d[|d| - 1];
  }

  lemma DecPlain(n: int)
    ensures ' ' !in IntDec(n) && ',' !in IntDec(n)
  {
    var m := if n < 0 then -n else n;
    var d := Digits(m, 10);
    DigitsValue(m, 10);
    forall i | 0 <= i < |IntDec(n)|
      ensures IntDec(n)[i] != ' ' && IntDec(n)[i] != ','
    {
      if n < 0 && i >= 1 {
        assert IntDec(n)[i] == d[i - 1];
      } else if n >= 0 {
        assert IntDec(n)[i] == d[i];
      }
    }
  }

  /** The command reads back as the tool, the NIC, and the address and byte
      count of the window, so the window ends with the word at `last`. */
  lemma McraCommandMeans(bdf: Option<string>, first: nat, last: nat)
    requires ' ' !in PyStr(bdf)
    ensures Split(McraCommand(bdf, first, last), ' ') == ["mcra", PyStr(bdf), McraWindow(first, last)]
    ensures var size := last - first + 4;
      && Split(McraWindow(first, last), ',') == [Hex(first), IntDec(size)]
      && ParseHex(Hex(first)) == Some(first)
      && ParseInt(IntDec(size)) == Some(size)
      && first + size == last + 4
  {
    var size := last - first + 4;
    HexPlain(first);
    DecPlain(size);
    SplitTwo(Hex(first), IntDec(size), ',');
    assert ' ' !in McraWindow(first, last);
    assert ' ' !in "mcra";
    SplitThree("mcra", PyStr(bdf), McraWindow(first, last), ' ');
    ParseHexOfHex(first);
    ParseIntDec(size);
  }

  /** `int(x, base=16)`, which ignores surrounding blanks. */
  function IntHex(x: string): Result<nat>
  {
    match ParseHex(Strip(x))
    case Some(v) => Ok(v)
    case None => Err(ValueError("invalid literal for int() with base 16: '" + x + "'"))
  }

  /** One line of the dump: `offset, value = l.split(" ")`, both hex. */
  function McraLine(l: string): Result<(nat, nat)>
  {
    var parts := Split(l, ' ');
    if |parts| > 2 then Err(ValueError("too many values to unpack (expected 2)"))
    else if |parts| < 2 then Err(ValueError("not enough values to unpack (expected 2, got 1)"))
    else
      var offset :- IntHex(parts[0]);
      var value :- IntHex(parts[1]);
      Ok((offset, value))
  }

  /** The parsing loop from `regs` on: the first bad line raises, a later
      line for the same offset overwrites. */
  function ParseMcraFrom(lines: seq<string>, regs: map<nat, nat>): Result<map<nat, nat>>
  {
    if |lines| == 0 then Ok(regs)
    else match McraLine(lines[0])
      case Err(e) => Err(e)
      case Ok(ov) => ParseMcraFrom(lines[1..], regs[ov.0 := ov.1])
  }

  /** A dump line as `mcra` prints it: hex offset, a blank, hex value. */
  function McraDumpLine(offset: nat, value: nat): string
  {
    Hex(offset) + " " + Hex(value) + "\n"
  }

  lemma StripHex(n: nat)
    ensures Strip(Hex(n)) == Hex(n) && Strip(Hex(n) + "\n") == Hex(n)
  {
    var h := Hex(n);
    HexPlain(n);
    assert LStrip(h) == h;
    assert LStrip(h + "\n") == h + "\n";
    assert (h + "\n")[..|h|] == h;
    assert RStrip(h + "\n") == RStrip(h) == h;
  }

  /** A printed line reads back as its offset and value. */
  lemma McraLineRoundTrip(offset: nat, value: nat)
    ensures McraLine(McraDumpLine(offset, value)) == Ok((offset, value))
  {
    var a := Hex(offset);
    var b := Hex(value) + "\n";
    HexPlain(offset);
    HexPlain(value);
    assert ' ' !in b;
    assert McraDumpLine(offset, value) == a + [' '] + b;
    SplitAt(a, b, ' ');
    SplitNoSep(b, ' ');
    StripHex(offset);
    StripHex(value);
    ParseHexOfHex(offset);
    ParseHexOfHex(value);
  }

  function McraDump(entries: seq<(nat, nat)>): seq<string>
  {
    if |entries| == 0 then [] else [McraDumpLine(entries[0].0, entries[0].1)] + McraDump(entries[1..])
  }

  /** The entries stored in order into `regs`, a later one overwriting. */
  function Stored(entries: seq<(nat, nat)>, regs: map<nat, nat>): map<nat, nat>
  {
    if |entries| == 0 then regs else Stored(entries[1..], regs[entries[0].0 := entries[0].1])
  }

  /** Parsing a dump gives back the registers it lists. */
  lemma {:induction false} McraRoundTrip(entries: seq<(nat, nat)>, regs: map<nat, nat>)
    ensures ParseMcraFrom(McraDump(entries), regs) == Ok(Stored(entries, regs))
    decreases |entries|
  {
    if |entries| > 0 {
      McraLineRoundTrip(entries[0].0, entries[0].1);
      assert McraDump(entries)[1..] == McraDump(entries[1..]);
      McraRoundTrip(entries[1..], regs[entries[0].0 := entries[0].1]);
    }
  }

  /** The first line that does not parse. */
  predicate FirstBad(lines: seq<string>, i: nat)
  {
    i < |lines| && McraLine(lines[i]).Err? && forall j :: 0 <= j < i ==> McraLine(lines[j]).Ok?
  }

  /** The parse fails exactly when some line is bad, with the first bad
      line's error. */
  lemma {:induction false} ParseMcraErr(lines: seq<string>, regs: map<nat, nat>)
    ensures var r := ParseMcraFrom(lines, regs);
      && (r.Err? <==> exists i :: 0 <= i < |lines| && McraLine(lines[i]).Err?)
      && (r.Err? ==> exists i: nat :: FirstBad(lines, i) && r.error == McraLine(lines[i]).error)
    decreases |lines|
  {
    if |lines| > 0 {
      var tail := lines[1..];
      var r := ParseMcraFrom(lines, regs);
      match McraLine(lines[0])
      case Err(e) => {
        assert FirstBad(lines, 0);
      }
      case Ok(ov) => {
        ParseMcraErr(tail, regs[ov.0 := ov.1]);
        assert forall i :: 0 < i < |lines| ==> lines[i] == tail[i - 1];
        if r.Err? {
          var i: nat :| FirstBad(tail, i) && r.error == McraLine(tail[i]).error;
          assert FirstBad(lines, i + 1);
        }
      }
    }
  }

  /** The line parses and names offset `k`. */
  predicate NamesOffset(l: string, k: nat)
  {
    McraLine(l).Ok? && McraLine(l).value.0 == k
  }

  /** A parse that succeeds adds exactly the lines' offsets as keys. */
  lemma {:induction false} ParseMcraKeys(lines: seq<string>, regs: map<nat, nat>)
    ensures var r := ParseMcraFrom(lines, regs);
      r.Ok? ==> forall k :: k in r.value <==> k in regs || exists i :: 0 <= i < |lines| && NamesOffset(lines[i], k)
    decreases |lines|
  {
    var r := ParseMcraFrom(lines, regs);
    if |lines| > 0 && r.Ok? {
      var tail := lines[1..];
      var ov := McraLine(lines[0]).value;
      ParseMcraKeys(tail, regs[ov.0 := ov.1]);
      forall k
        ensures k in r.value <==> k in regs || exists i :: 0 <= i < |lines| && NamesOffset(lines[i], k)
      {
        if k in r.value && k !in regs && k != ov.0 {
          var i :| 0 <= i < |tail| && NamesOffset(tail[i], k);
          assert tail[i] == lines[i + 1];
        }
        if exists i :: 0 <= i < |lines| && NamesOffset(lines[i], k) {
          var i :| 0 <= i < |lines| && NamesOffset(lines[i], k);
          if i > 0 {
            assert tail[i - 1] == lines[i];
          }
        }
      }
    }
  }

  /** In a parse that succeeds, a line's offset holds the value of the last
      line naming it. */
  lemma {:induction false} ParseMcraLast(lines: seq<string>, regs: map<nat, nat>)
    ensures var r := ParseMcraFrom(lines, regs);
      r.Ok? ==> forall i :: 0 <= i < |lines| && LastFor(lines, i) ==>
        McraLine(lines[i]).value.0 in r.value && r.value[McraLine(lines[i]).value.0] == McraLine(lines[i]).value.1
    decreases |lines|
  {
    var r := ParseMcraFrom(lines, regs);
    if |lines| > 0 && r.Ok? {
      var tail := lines[1..];
      var ov := McraLine(lines[0]).value;
      ParseMcraLast(tail, regs[ov.0 := ov.1]);
      forall i | 0 <= i < |lines| && LastFor(lines, i)
        ensures McraLine(lines[i]).value.0 in r.value && r.value[McraLine(lines[i]).value.0] == McraLine(lines[i]).value.1
      {
        if i > 0 {
          assert tail[i - 1] == lines[i];
          assert LastFor(tail, i - 1) by {
            forall j | i - 1 < j < |tail| && McraLine(tail[j]).Ok?
              ensures McraLine(tail[j]).value.0 != McraLine(tail[i - 1]).value.0
            {
              assert tail[j] == lines[j + 1];
            }
          }
        } else {
          assert forall j :: 0 <= j < |tail| ==> tail[j] == lines[j + 1];
          StoredStays(tail, regs[ov.0 := ov.1], ov.0);
        }
      }
    }
  }

  /** Line `i` parses and no later line names its offset. */
  predicate LastFor(lines: seq<string>, i: nat)
  {
    && i < |lines| && McraLine(lines[i]).Ok?
    && forall j :: i < j < |lines| && McraLine(lines[j]).Ok? ==> McraLine(lines[j]).value.0 != McraLine(lines[i]).value.0
  }

  /** A key no line names keeps its value. */
  lemma {:induction false} StoredStays(lines: seq<string>, regs: map<nat, nat>, k: nat)
    requires k in regs
    requires forall j :: 0 <= j < |lines| && McraLine(lines[j]).Ok? ==> McraLine(lines[j]).value.0 != k
    ensures ParseMcraFrom(lines, regs).Ok? ==> k in ParseMcraFrom(lines, regs).value && ParseMcraFrom(lines, regs).value[k] == regs[k]
    decreases |lines|
  {
    if |lines| > 0 && McraLine(lines[0]).Ok? {
      var ov := McraLine(lines[0]).value;
      assert forall j :: 0 <= j < |lines[1..]| ==> lines[1..][j] == lines[j + 1];
      StoredStays(lines[1..], regs[ov.0 := ov.1], k);
    }
  }

  /** The port: `cx7_nic_bdf` is computed once, `None` included. */
  class Cx7 {
    const devPath: string
    var nicBdf: Option<string>
    var nicBdfFound: bool

    constructor(devPath: string)
      ensures this.devPath == devPath && nicBdf == None && !nicBdfFound
    {
      this.devPath := devPath;
      nicBdf := None;
      nicBdfFound := false;
    }

    /** The selection loop over the NIC table. */
    method NearestNic(my: seq<string>, nics: Dict<string, seq<string>>) returns (bestNic: Option<string>, bestDistance: Option<nat>)
      ensures Best(bestNic, bestDistance) == SelectNic(my, nics)
    {
      bestNic := None;
      bestDistance := None;
      var i := 0;
      while i < |nics|
        invariant 0 <= i <= |nics|
        invariant ScanAll(my, nics[i..], Best(bestNic, bestDistance)) == SelectNic(my, nics)
      {
        var (nic, bdfs) := nics[i];
        ghost var target := ScanNic(my, nic, bdfs, Best(bestNic, bestDistance));
        var j := 0;
        while j < |bdfs|
          invariant 0 <= j <= |bdfs|
          invariant ScanNic(my, nic, bdfs[j..], Best(bestNic, bestDistance)) == target
        {
          var distance := IndexOf(my, bdfs[j]);
          if distance.Some? && (bestDistance.None? || distance.value < bestDistance.value) {
            bestNic := Some(nic);
            bestDistance := distance;
            break;
          }
          assert bdfs[j..][1..] == bdfs[j + 1..];
          j := j + 1;
        }
        assert nics[i..][1..] == nics[i + 1..];
        i := i + 1;
      }
    }

    /** `cx7_nic_bdf`: the cached answer, or the nearest NIC to this port,
        from the (class-wide, cached) NIC table. */
    method Cx7NicBdf(cache: NicCache, paths: seq<string>, topo: string -> seq<string>) returns (r: Option<string>)
      modifies this, cache
      ensures old(nicBdfFound) ==> r == old(nicBdf) && unchanged(this) && unchanged(cache)
      ensures !old(nicBdfFound) ==>
        var table := if old(cache.nics).Some? then old(cache.nics).value else NicTable(paths, topo);
        && r == SelectNic(topo(devPath), table).nic
        && nicBdfFound && nicBdf == r
        && cache.nics == Some(table)
    {
      if nicBdfFound {
        return nicBdf;
      }
      var my := topo(devPath);
      var nics := cache.FindCx7Nics(paths, topo);
      var best, _ := NearestNic(my, nics);
      nicBdf := best;
      nicBdfFound := true;
      r := best;
    }

    /** `run_mcra_query(first_addr, last_addr)`: the command sent (through
        `cx7_nic_bdf`, computed here if need be) and its output parsed;
        `mcra` gives a command's output lines. */
    method RunMcraQuery(cache: NicCache, paths: seq<string>, topo: string -> seq<string>,
                        mcra: string -> seq<string>, first: nat, last: nat)
      returns (cmd: string, r: Result<map<nat, nat>>)
      modifies this, cache
      ensures nicBdfFound
      ensures old(nicBdfFound) ==> nicBdf == old(nicBdf)
      ensures cmd == McraCommand(nicBdf, first, last)
      ensures r == ParseMcraFrom(mcra(cmd), map[])
    {
      var bdf := Cx7NicBdf(cache, paths, topo);
      cmd := McraCommand(bdf, first, last);
      var lines := mcra(cmd);
      var regs: map<nat, nat> := map[];
      var i := 0;
      while i < |lines|
        invariant 0 <= i <= |lines|
        invariant ParseMcraFrom(lines, map[]) == ParseMcraFrom(lines[i..], regs)
      {
        assert lines[i..][1..] == lines[i + 1..];
        var parts := Split(lines[i], ' ');
        if |parts| > 2 {
          return cmd, Err(ValueError("too many values to unpack (expected 2)"));
        } else if |parts| < 2 {
          return cmd, Err(ValueError("not enough values to unpack (expected 2, got 1)"));
        }
        var offset := IntHex(parts[0]);
        if offset.Err? {
          return cmd, Err(offset.error);
        }
        var value := IntHex(parts[1]);
        if value.Err? {
          return cmd, Err(value.error);
        }
        regs := regs[offset.value := value.value];
        i := i + 1;
      }
      r := Ok(regs);
    }
  }
}
