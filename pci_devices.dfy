/*
 * Finding and creating PCI devices (pci/devices.py): the device-specifier
 * language of `find_devices_from_string` ("gpus[0:2]", "10de:2330",
 * "0000:65:00.0", comma-separated), the class each sysfs device gets, the
 * fallbacks of `init_dispatch` for GPUs that fail to initialise, and the
 * registry `find_or_init` keeps so that each device is created once.
 * What sysfs holds and what a device constructor raises are parameters.
 */
module PciDevices {
  import opened Text
  import opened GpuErrors
  import opened PySlices

  // -------------------------------------------------------------------------
  // parse_array_index

  /** `int(s)` */
  function IntOf(s: string): Result<int>
  {
    match ParseInt(s)
    case Some(v) => Ok(v)
    case None => Err(ValueError("invalid literal for int() with base 10: " + s))
  }

  /** Part `k` of a `start:stop:step` specifier: `None` when absent or empty. */
  function SlicePart(parts: seq<string>, k: nat): Result<Option<int>>
  {
    if k < |parts| && parts[k] != "" then
      var v :- IntOf(parts[k]);
      Ok(Some(v))
    else Ok(None)
  }

  /** `parse_array_index(index_str, items)`: a slice when the string has a
      colon, otherwise one index; an index past the end selects nothing. */
  function ParseArrayIndex<T>(indexStr: string, items: seq<T>): Result<seq<T>>
  {
    if ':' in indexStr then
      var parts := Split(indexStr, ':');
      var start :- SlicePart(parts, 0);
      var stop :- SlicePart(parts, 1);
      var step :- SlicePart(parts, 2);
      SliceList(items, Slice(start, stop, step))
    else
      var idx :- IntOf(indexStr);
      if idx < |items| then
        if idx >= 0 then Ok([items[idx]])
        else if idx + |items| >= 0 then Ok([items[idx + |items|]])
        else Err(IndexError("list index out of range"))
      else Ok([])
  }

  /** Whatever is selected comes from the items. */
  lemma ParseArrayIndexFromArray<T>(indexStr: string, items: seq<T>, x: T)
    requires ParseArrayIndex(indexStr, items).Ok? && x in ParseArrayIndex(indexStr, items).value
    ensures x in items
  {
    if ':' in indexStr {
      var parts := Split(indexStr, ':');
      var sl := Slice(SlicePart(parts, 0).value, SlicePart(parts, 1).value, SlicePart(parts, 2).value);
      var r := SliceList(items, sl).value;
      var k :| 0 <= k < |r| && r[k] == x;
      SliceElements(items, sl, k);
    }
  }

  lemma NoColonInDec(n: nat)
    ensures ':' !in Dec(n)
    ensures IntOf(Dec(n)) == Ok(n as int)
  {
    DigitsValue(n, 10);
    ParseDec(n);
    forall i | 0 <= i < |Dec(n)|
      ensures Dec(n)[i] != ':'
    {
      assert 0 <= DigitValue(Dec(n)[i]);
    }
  }

  /** "n" selects element n, or nothing once n is past the end. */
  lemma ParseArrayIndexOne<T>(items: seq<T>, n: nat)
    ensures ParseArrayIndex(Dec(n), items) == if n < |items| then Ok([items[n]]) else Ok([])
  {
    NoColonInDec(n);
  }

  /** "-n" counts from the end, as Python indexing does. */
  lemma ParseArrayIndexFromEnd<T>(items: seq<T>, n: nat)
    requires 1 <= n <= |items|
    ensures ParseArrayIndex("-" + Dec(n), items) == Ok([items[|items| - n]])
  {
    NoColonInDec(n);
    var s := "-" + Dec(n);
    assert s[1..] == Dec(n);
    assert ':' !in s by {
      assert forall i :: 1 <= i < |s| ==> s[i] == Dec(n)[i - 1];
    }
    DigitsValue(n, 10);
    assert ParseInt(s) == Some(-(n as int));
  }

  /** "a:b" selects the elements from a up to b. */
  lemma ParseArrayIndexRange<T>(items: seq<T>, a: nat, b: nat)
    requires a <= b <= |items|
    ensures ParseArrayIndex(Dec(a) + ":" + Dec(b), items) == Ok(items[a..b])
  {
    NoColonInDec(a);
    NoColonInDec(b);
    var s := Dec(a) + ":" + Dec(b);
    assert s == Dec(a) + [':'] + Dec(b);
    assert s[|Dec(a)|] == ':';
    SplitAt(Dec(a), Dec(b), ':');
    SplitNoSep(Dec(b), ':');
    assert Split(s, ':') == [Dec(a), Dec(b)];
    SliceContiguous(items, a, b);
  }

  /** ":" selects everything. */
  lemma ParseArrayIndexAll<T>(items: seq<T>)
    ensures ParseArrayIndex(":", items) == Ok(items)
  {
    SplitAt("", "", ':');
    assert "" + [':'] + "" == ":";
    SliceAll(items);
  }

  // -------------------------------------------------------------------------
  // Device specifiers

  /** What one comma-separated specifier asks for. */
  datatype Specifier =
    | Gpus
    | NvSwitches
    | VendorDevice(vendor: nat, device: nat)
    | BdfAddress(bdf: string)

  /** The index of the first `c` in `s`, as `s.index(c)`. */
  function FirstIndex(s: string, c: char): (i: nat)
    requires c in s
    ensures i < |s| && s[i] == c && c !in s[..i]
  {
    if s[0] == c then 0
    else
      var i := FirstIndex(s[1..], c);
      assert s[1..][..i] == s[1..i + 1];
      1 + i
  }

  /** `s[a:b]` with both bounds inside `s`. */
  function Substring(s: string, a: nat, b: nat): string
    requires a <= |s| && b <= |s|
  {
    if a <= b then s[a..b] else ""
  }

  /** The part before any `[`, and the index text between the first `[` and
      the first `]`; a `[` without a `]` raises `ValueError`. */
  function SplitIndex(s: string): Result<(string, Option<string>)>
  {
    var base := Split(s, '[')[0];
    if '[' !in s then Ok((base, None))
    else if ']' !in s then Err(ValueError("substring not found"))
    else Ok((base, Some(Substring(s, FirstIndex(s, '[') + 1, FirstIndex(s, ']')))))
  }

  /** Exactly two colon-separated parts of four characters each. */
  predicate VendorDeviceShape(base: string)
  {
    var parts := Split(base, ':');
    ':' in base && |parts| == 2 && |parts[0]| == 4 && |parts[1]| == 4
  }

  /** `int(s, 16)` */
  function HexOf(s: string): Result<nat>
  {
    match ParseHex(s)
    case Some(v) => Ok(v)
    case None => Err(ValueError("invalid literal for int() with base 16: " + s))
  }

  /** The classification of a specifier's base, tried in the source's order;
      `devStr` is the whole specifier, for the message. */
  function Classify(base: string, devStr: string): Result<Specifier>
  {
    if base == "gpus" then Ok(Gpus)
    else if base == "nvswitches" then Ok(NvSwitches)
    else if VendorDeviceShape(base) then
      var parts := Split(base, ':');
      var vendor :- HexOf(parts[0]);
      var device :- HexOf(parts[1]);
      Ok(VendorDevice(vendor, device))
    else if ':' in base then Ok(BdfAddress(base))
    else Err(ValueError("Unknown device specifier: " + devStr))
  }

  /** The keywords come first, then vendor:device, then a BDF address; a
      base with no colon that is not a keyword is refused. */
  lemma ClassifyMeans(base: string, devStr: string)
    ensures Classify(base, devStr) == Ok(Gpus) <==> base == "gpus"
    ensures Classify(base, devStr) == Ok(NvSwitches) <==> base == "nvswitches"
    ensures Classify(base, devStr).Ok? && Classify(base, devStr).value.VendorDevice? ==>
      VendorDeviceShape(base)
    ensures Classify(base, devStr) == Ok(BdfAddress(base)) <==> ':' in base && !VendorDeviceShape(base)
    ensures ':' !in base ==>
      (Classify(base, devStr).Err? <==> base != "gpus" && base != "nvswitches")
  {
    assert ':' !in "gpus" && ':' !in "nvswitches";
  }

  /** Two four-digit hex numbers name a vendor and a device. */
  lemma ClassifyVendorDevice(a: string, b: string, devStr: string)
    requires |a| == 4 && |b| == 4 && IsDigits(a, 16) && IsDigits(b, 16)
    ensures Classify(a + ":" + b, devStr) == Ok(VendorDevice(ValueOf(a, 16), ValueOf(b, 16)))
  {
    var base := a + ":" + b;
    assert base == a + [':'] + b;
    assert ':' !in a by {
      forall i | 0 <= i < |a| ensures a[i] != ':' { assert 0 <= DigitValue(a[i]); }
    }
    assert ':' !in b by {
      forall i | 0 <= i < |b| ensures b[i] != ':' { assert 0 <= DigitValue(b[i]); }
    }
    SplitAt(a, b, ':');
    SplitNoSep(b, ':');
    assert Split(base, ':') == [a, b];
    assert base[4] == ':';
    assert base != "gpus" && base != "nvswitches";
    assert a[1] != 'x' && a[1] != 'X' by { assert 0 <= DigitValue(a[1]); }
    assert b[1] != 'x' && b[1] != 'X' by { assert 0 <= DigitValue(b[1]); }
  }

  // -------------------------------------------------------------------------
  // Sysfs and sorting

  /** A `find_dev_paths` query: `None` matches anything. */
  datatype Query = Query(vendors: seq<nat>, devices: Option<seq<nat>>, classes: Option<seq<nat>>)

  /** What sysfs answers: `find_dev_paths` and `find_dev_path_by_bdf`. */
  datatype Sysfs = Sysfs(devPaths: Query -> seq<string>, pathByBdf: string -> Option<string>)

  /** The query for each kind of specifier. */
  function QueryOf(spec: Specifier): Query
    requires !spec.BdfAddress?
  {
    match spec
    case Gpus => Query([0x10de], None, Some([0x030000, 0x030200]))
    case NvSwitches => Query([0x10de], None, Some([0x068000]))
    case VendorDevice(v, d) => Query([v], Some([d]), None)
  }

  /** The paths a specifier matches, before sorting; an empty path from
      `find_dev_path_by_bdf` is no match. */
  function Matching(sys: Sysfs, spec: Specifier): seq<string>
  {
    if spec.BdfAddress? then
      match sys.pathByBdf(spec.bdf)
      case Some(p) => if p == "" then [] else [p]
      case None => []
    else sys.devPaths(QueryOf(spec))
  }

  /** `os.path.basename(p)` */
  function Basename(p: string): string
  {
    if |p| == 0 || p[|p| - 1] == '/' then "" else Basename(p[..|p| - 1]) + [p[|p| - 1]]
  }

  /** The BDF with its `:` and `.` removed. */
  function BdfDigits(bdf: string): string
  {
    if |bdf| == 0 then ""
    else if bdf[|bdf| - 1] == ':' || bdf[|bdf| - 1] == '.' then BdfDigits(bdf[..|bdf| - 1])
    else BdfDigits(bdf[..|bdf| - 1]) + [bdf[|bdf| - 1]]
  }

  /** The sort key of `sorted_dev_paths`: the BDF read as one hex number. */
  function BdfId(p: string): Result<nat>
  {
    HexOf(BdfDigits(Basename(p)))
  }

  /** The first path whose key cannot be computed, as `sorted` computes
      every key before sorting. */
  function KeysOk(paths: seq<string>): Result<()>
  {
    if |paths| == 0 then Ok(())
    else
      var _ :- BdfId(paths[0]);
      KeysOk(paths[1..])
  }

  function Id(p: string): nat
  {
    match BdfId(p) case Ok(v) => v case Err(_) => 0
  }

  /** Insert `p` after every element whose key is not above its key. */
  function Insert<T>(key: T -> nat, p: T, s: seq<T>): seq<T>
  {
    if |s| == 0 then [p]
    else if key(s[|s| - 1]) <= key(p) then s + [p]
    else Insert(key, p, s[..|s| - 1]) + [s[|s| - 1]]
  }

  /** A stable insertion sort by `key`. */
  function SortBy<T>(key: T -> nat, s: seq<T>): seq<T>
  {
    if |s| == 0 then [] else Insert(key, s[|s| - 1], SortBy(key, s[..|s| - 1]))
  }

  predicate SortedBy<T>(key: T -> nat, s: seq<T>)
  {
    forall i, j :: 0 <= i < j < |s| ==> key(s[i]) <= key(s[j])
  }

  /** Inserting adds the one element. */
  lemma {:induction false} InsertPerm<T>(key: T -> nat, p: T, s: seq<T>)
    ensures multiset(Insert(key, p, s)) == multiset(s) + multiset{p}
    ensures |Insert(key, p, s)| == |s| + 1
  {
    if |s| > 0 && key(s[|s| - 1]) > key(p) {
      InsertPerm(key, p, s[..|s| - 1]);
      assert s == s[..|s| - 1] + [s[|s| - 1]];
    }
  }

  lemma SortedSnoc<T>(key: T -> nat, t: seq<T>, last: T)
    requires SortedBy(key, t)
    requires forall i :: 0 <= i < |t| ==> key(t[i]) <= key(last)
    ensures SortedBy(key, t + [last])
  {
  }

  /** Every element of a sorted sequence is at most its last. */
  lemma AtMostLast<T>(key: T -> nat, s: seq<T>, x: T)
    requires SortedBy(key, s) && x in multiset(s)
    ensures key(x) <= key(s[|s| - 1])
  {
    var j :| 0 <= j < |s| && s[j] == x;
  }

  /** Inserting into a sorted sequence keeps it sorted. */
  lemma {:induction false} InsertSorted<T>(key: T -> nat, p: T, s: seq<T>)
    requires SortedBy(key, s)
    ensures SortedBy(key, Insert(key, p, s))
  {
    if |s| > 0 && key(s[|s| - 1]) > key(p) {
      var init := s[..|s| - 1];
      var last := s[|s| - 1];
      assert SortedBy(key, init);
      InsertSorted(key, p, init);
      InsertPerm(key, p, init);
      var t := Insert(key, p, init);
      forall i | 0 <= i < |t|
        ensures key(t[i]) <= key(last)
      {
        assert t[i] in multiset(t);
        if t[i] != p {
          assert t[i] in multiset(init);
          assert multiset(s) == multiset(init) + multiset{last} by { assert s == init + [last]; }
          AtMostLast(key, s, t[i]);
        }
      }
      SortedSnoc(key, t, last);
    }
  }

  /** Sorting orders the elements and keeps each as often as it came. */
  lemma {:induction false} SortByMeans<T>(key: T -> nat, s: seq<T>)
    ensures SortedBy(key, SortBy(key, s))
    ensures multiset(SortBy(key, s)) == multiset(s)
  {
    if |s| > 0 {
      var init := s[..|s| - 1];
      SortByMeans(key, init);
      InsertSorted(key, s[|s| - 1], SortBy(key, init));
      InsertPerm(key, s[|s| - 1], SortBy(key, init));
      assert s == init + [s[|s| - 1]];
    }
  }

  /** `sorted_dev_paths(paths)`: a key that is not hex raises `ValueError`. */
  function SortedDevPaths(paths: seq<string>): Result<seq<string>>
  {
    var _ :- KeysOk(paths);
    Ok(SortBy(Id, paths))
  }

  /** One specifier of `find_dev_paths`: the sorted matching paths, indexed
      when the specifier carries an index; no match gives no paths (and
      only a warning), whatever the index says. */
  function PiecePaths(sys: Sysfs, piece: string): Result<seq<string>>
  {
    var devStr := Strip(piece);
    var split :- SplitIndex(devStr);
    var spec :- Classify(split.0, devStr);
    var found := Matching(sys, spec);
    if found == [] then Ok([])
    else
      var sorted :- SortedDevPaths(found);
      match split.1
      case None => Ok(sorted)
      case Some(idx) => ParseArrayIndex(idx, sorted)
  }

  /** Without an index a specifier gives its matches in BDF order, and with
      one a selection from them; either way only matching paths. */
  lemma PiecePathsMeans(sys: Sysfs, piece: string)
    requires PiecePaths(sys, piece).Ok?
    ensures var devStr := Strip(piece);
      && SplitIndex(devStr).Ok? && Classify(SplitIndex(devStr).value.0, devStr).Ok?
      && var found := Matching(sys, Classify(SplitIndex(devStr).value.0, devStr).value);
         && (forall p :: p in PiecePaths(sys, piece).value ==> p in found)
         && (SplitIndex(devStr).value.1.None? ==>
               SortedBy(Id, PiecePaths(sys, piece).value)
               && multiset(PiecePaths(sys, piece).value) == multiset(found))
  {
    var devStr := Strip(piece);
    var split := SplitIndex(devStr).value;
    var found := Matching(sys, Classify(split.0, devStr).value);
    if found != [] {
      var sorted := SortBy(Id, found);
      SortByMeans(Id, found);
      forall p | p in PiecePaths(sys, piece).value
        ensures p in found
      {
        if split.1.Some? {
          ParseArrayIndexFromArray(split.1.value, sorted, p);
        }
        assert p in multiset(sorted);
      }
    }
  }

  /** The paths of a whole comma-separated string, specifier by
      specifier; the first specifier that raises ends the scan. */
  function SpecifiedPaths(sys: Sysfs, pieces: seq<string>): Result<seq<string>>
  {
    if |pieces| == 0 then Ok([])
    else
      var before :- SpecifiedPaths(sys, pieces[..|pieces| - 1]);
      var more :- PiecePaths(sys, pieces[|pieces| - 1]);
      Ok(before + more)
  }

  lemma SpecifiedPathsNext(sys: Sysfs, pieces: seq<string>, i: nat)
    requires i < |pieces|
    ensures SpecifiedPaths(sys, pieces[..i + 1]) ==
      (var before :- SpecifiedPaths(sys, pieces[..i]);
       var more :- PiecePaths(sys, pieces[i]);
       Ok(before + more))
  {
    assert pieces[..i + 1][..i] == pieces[..i];
  }

  lemma {:induction false} SpecifiedPathsErrStays(sys: Sysfs, pieces: seq<string>, i: nat)
    requires i <= |pieces| && SpecifiedPaths(sys, pieces[..i]).Err?
    ensures SpecifiedPaths(sys, pieces).Err?
    decreases |pieces| - i
  {
    if i < |pieces| {
      SpecifiedPathsNext(sys, pieces, i);
      SpecifiedPathsErrStays(sys, pieces, i + 1);
    } else {
      assert pieces[..i] == pieces;
    }
  }

  // -------------------------------------------------------------------------
  // Device classes

  /** The Python class a device is created as. */
  datatype DevClass = Gpu | NvSwitch | IntelRootPort | PciBridge | PlxBridge | Cx7 | PciDevice

  /** What `find_class_for_device` looks at: the sysfs `vendor` and `class`
      files, then the device's config space. */
  datatype DeviceFacts = DeviceFacts(
    sysVendor: nat, sysClass: nat,
    hasExp: bool, portType: nat,
    vendor: nat, device: nat, configSize: nat, headerType: nat)

  /** A bridge port of a PLX switch, given the whole config space. */
  predicate IsPlx(f: DeviceFacts)
  {
    f.configSize >= 4096 && f.vendor == 0x10b5
  }

  predicate IsCx7(f: DeviceFacts)
  {
    f.vendor == 0x15b3 && f.device == 0x1979
  }

  /** `find_class_for_device` */
  function FindClass(f: DeviceFacts): DevClass
  {
    if f.sysVendor == 0x10de && (f.sysClass == 0x030000 || f.sysClass == 0x030200) then Gpu
    else if f.sysVendor == 0x10de && f.sysClass == 0x068000 then NvSwitch
    else if f.hasExp && f.portType == 0x4 then
      if f.vendor == 0x8086 then IntelRootPort else PciBridge
    else if f.hasExp && (f.portType == 0x5 || f.portType == 0x6) then
      if IsPlx(f) then PlxBridge
      else if IsCx7(f) then Cx7
      else PciBridge
    else if f.hasExp && f.portType == 0x0 then PciDevice
    else if f.headerType == 0x1 then PciBridge
    else PciDevice
  }

  predicate NvidiaGpuOrSwitch(f: DeviceFacts)
  {
    f.sysVendor == 0x10de && (f.sysClass == 0x030000 || f.sysClass == 0x030200 || f.sysClass == 0x068000)
  }

  /** A switch port: an upstream or downstream PCIe port. */
  predicate SwitchPort(f: DeviceFacts)
  {
    f.hasExp && (f.portType == 0x5 || f.portType == 0x6)
  }

  /** Each class, stated by the facts that select it. */
  lemma FindClassMeans(f: DeviceFacts)
    ensures FindClass(f) == Gpu <==> f.sysVendor == 0x10de && (f.sysClass == 0x030000 || f.sysClass == 0x030200)
    ensures FindClass(f) == NvSwitch <==> f.sysVendor == 0x10de && f.sysClass == 0x068000
    ensures FindClass(f) == IntelRootPort <==>
      !NvidiaGpuOrSwitch(f) && f.hasExp && f.portType == 0x4 && f.vendor == 0x8086
    ensures FindClass(f) == PlxBridge <==> !NvidiaGpuOrSwitch(f) && SwitchPort(f) && IsPlx(f)
    ensures FindClass(f) == Cx7 <==> !NvidiaGpuOrSwitch(f) && SwitchPort(f) && !IsPlx(f) && IsCx7(f)
    ensures FindClass(f) == PciBridge <==>
      && !NvidiaGpuOrSwitch(f)
      && (|| (f.hasExp && f.portType == 0x4 && f.vendor != 0x8086)
       || (SwitchPort(f) && !IsPlx(f) && !IsCx7(f))
       || (!(f.hasExp && (f.portType == 0x0 || f.portType == 0x4 || SwitchPort(f))) && f.headerType == 0x1))
  {
  }

  /** How a device constructor ended. */
  datatype Outcome =
    | Built
    | UnknownGpu(msg: string)
    | BrokenWithInfo(errInfo: string)
    | BrokenSecFault(boot: nat, secFault: nat)
    | Broken(msg: string)
      /** any other exception */
    | Raised(error: Error)

  /** A device object, by the class it was created as. */
  datatype DeviceObj =
    | BaseDevice
    | Created(cls: DevClass, path: string)
    | NvidiaDevice(path: string)
    | BrokenGpu(path: string, errInfo: Option<string>, secFault: Option<nat>)

  /** `init_dispatch(dev_path)` once the class is chosen and its constructor
      ended with `outcome`. */
  function InitDispatch(path: string, cls: DevClass, outcome: Outcome): Result<DeviceObj>
  {
    match outcome
    case Built => Ok(Created(cls, path))
    case UnknownGpu(_) => Ok(NvidiaDevice(path))
    case BrokenWithInfo(info) => Ok(BrokenGpu(path, Some(info), None))
    case BrokenSecFault(_, secFault) => Ok(BrokenGpu(path, None, Some(secFault)))
    case Broken(_) => Ok(BrokenGpu(path, None, None))
    case Raised(e) => Err(e)
  }

  /** Only an exception outside the GPU errors escapes; every other outcome
      gives a device of the path, a broken GPU keeping what it knows. */
  lemma InitDispatchMeans(path: string, cls: DevClass, outcome: Outcome)
    ensures InitDispatch(path, cls, outcome).Err? <==> outcome.Raised?
    ensures InitDispatch(path, cls, outcome).Ok? ==> InitDispatch(path, cls, outcome).value.path == path
    ensures InitDispatch(path, cls, outcome).Ok? ==>
      (InitDispatch(path, cls, outcome).value.Created? <==> outcome.Built?)
    ensures InitDispatch(path, cls, outcome).Ok? && InitDispatch(path, cls, outcome).value.BrokenGpu? ==>
      var d := InitDispatch(path, cls, outcome).value;
      && (d.errInfo.Some? <==> outcome.BrokenWithInfo?)
      && (d.secFault.Some? <==> outcome.BrokenSecFault?)
      && (outcome.BrokenWithInfo? ==> d.errInfo.value == outcome.errInfo)
      && (outcome.BrokenSecFault? ==> d.secFault.value == outcome.secFault)
  {
  }

  // -------------------------------------------------------------------------
  // The registry

  /** `DEVICES` is keyed by BDF, and by -1 for the path-less device. */
  datatype Key = NoPath | BdfKey(bdf: string)

  function KeyOf(path: Option<string>): Key
  {
    match path case None => NoPath case Some(p) => BdfKey(Basename(p))
  }

  /** Every key of `a` is still in `b`, with the same device. */
  predicate Kept(a: map<Key, DeviceObj>, b: map<Key, DeviceObj>)
  {
    forall k :: k in a ==> k in b && b[k] == a[k]
  }

  /** The class-level registry of `PciDevices`, with what sysfs holds and
      what each constructor does. */
  class Registry {
    var devices: map<Key, DeviceObj>
    const sys: Sysfs
    const facts: string -> DeviceFacts
    const construct: (string, DevClass) -> Outcome

    constructor(sys: Sysfs, facts: string -> DeviceFacts, construct: (string, DevClass) -> Outcome)
      ensures devices == map[] && this.sys == sys && this.facts == facts && this.construct == construct
    {
      devices := map[];
      this.sys := sys;
      this.facts := facts;
      this.construct := construct;
    }

    /** A new device for `path`: the path-less `Device()`, or `init_dispatch`. */
    function Create(path: Option<string>): Result<DeviceObj>
      reads this
    {
      match path
      case None => Ok(BaseDevice)
      case Some(p) =>
        var cls := FindClass(facts(p));
        InitDispatch(p, cls, construct(p, cls))
    }

    /** `find_or_init(dev_path)`: the registered device, or a new one that
        is then registered; a creation that raises registers nothing. */
    method FindOrInit(path: Option<string>) returns (r: Result<DeviceObj>)
      modifies this
      ensures KeyOf(path) in old(devices) ==> r == Ok(old(devices)[KeyOf(path)]) && devices == old(devices)
      ensures KeyOf(path) !in old(devices) ==>
        && r == Create(path)
        && devices == if r.Ok? then old(devices)[KeyOf(path) := r.value] else old(devices)
      ensures Kept(old(devices), devices)
      ensures r.Ok? ==> KeyOf(path) in devices && devices[KeyOf(path)] == r.value
    {
      var key := KeyOf(path);
      if key in devices {
        return Ok(devices[key]);
      }
      r := Create(path);
      if r.Ok? {
        devices := devices[key := r.value];
      }
    }

    /** The devices of one specifier's paths, appended to `out`. */
    method InitAll(paths: seq<string>, out: seq<DeviceObj>, ghost done: seq<string>)
      returns (r: Result<seq<DeviceObj>>)
      requires |out| == |done|
      requires forall k :: 0 <= k < |done| ==>
        KeyOf(Some(done[k])) in devices && out[k] == devices[KeyOf(Some(done[k]))]
      modifies this
      ensures Kept(old(devices), devices)
      ensures r.Ok? ==> |r.value| == |done + paths| && forall k :: 0 <= k < |done + paths| ==>
        KeyOf(Some((done + paths)[k])) in devices && r.value[k] == devices[KeyOf(Some((done + paths)[k]))]
    {
      var acc := out;
      var i := 0;
      while i < |paths|
        invariant 0 <= i <= |paths|
        invariant Kept(old(devices), devices)
        invariant |acc| == |done| + i
        invariant forall k :: 0 <= k < |done| + i ==>
          KeyOf(Some((done + paths)[k])) in devices && acc[k] == devices[KeyOf(Some((done + paths)[k]))]
      {
        var d := FindOrInit(Some(paths[i]));
        if d.Err? {
          return Err(d.error);
        }
        acc := acc + [d.value];
        assert (done + paths)[|done| + i] == paths[i];
        i := i + 1;
      }
      r := Ok(acc);
    }

    /** `find_devices_from_string(devices_str)`: the devices of every
        specifier in turn, each created at most once. */
    method FindDevicesFromString(devicesStr: string) returns (r: Result<seq<DeviceObj>>)
      modifies this
      ensures Kept(old(devices), devices)
      ensures SpecifiedPaths(sys, Split(devicesStr, ',')).Err? ==> r.Err?
      ensures r.Ok? ==>
        && SpecifiedPaths(sys, Split(devicesStr, ',')).Ok?
        && var ps := SpecifiedPaths(sys, Split(devicesStr, ',')).value;
           && |r.value| == |ps|
           && forall k :: 0 <= k < |ps| ==>
                KeyOf(Some(ps[k])) in devices && r.value[k] == devices[KeyOf(Some(ps[k]))]
    {
      var pieces := Split(devicesStr, ',');
      var out: seq<DeviceObj> := [];
      ghost var done: seq<string> := [];
      var i := 0;
      while i < |pieces|
        invariant 0 <= i <= |pieces|
        invariant SpecifiedPaths(sys, pieces[..i]) == Ok(done)
        invariant Kept(old(devices), devices)
        invariant |out| == |done|
        invariant forall k :: 0 <= k < |done| ==>
          KeyOf(Some(done[k])) in devices && out[k] == devices[KeyOf(Some(done[k]))]
      {
        SpecifiedPathsNext(sys, pieces, i);
        var paths := PiecePaths(sys, pieces[i]);
        if paths.Err? {
          SpecifiedPathsErrStays(sys, pieces, i + 1);
          return Err(paths.error);
        }
        var more := InitAll(paths.value, out, done);
        if more.Err? {
          return Err(more.error);
        }
        out := more.value;
        done := done + paths.value;
        i := i + 1;
      }
      assert pieces[..i] == pieces;
      r := Ok(out);
    }
  }
}
