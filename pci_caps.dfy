/**
 * The capability lists of a PCI function's configuration space, as
 * pci/device.py walks them: the standard list (section 6.7 of the PCI
 * Local Bus Specification 3.0), the extended list at offset 256 (section
 * 7.6.3 of the PCI Express Base Specification 4.0), and the DVSEC map
 * built from the extended list.
 *
 * A walk is described by its trace: the offsets visited with the dword
 * read at each.  A table filled during a walk is the fold of
 * `table[key] = offset` over the trace, so a later entry with the same key
 * replaces an earlier one.
 */
module PciCaps {
  import opened Bits

  /** `PCI_CAPABILITY_LIST`: the byte holding the first capability's offset. */
  const CapabilityList: nat := 0x34
  /** `PCI_CFG_SPACE_SIZE`: the extended list starts here, in a larger config space. */
  const CfgSpaceSize: nat := 256
  /** The extended capability id of a designated vendor-specific capability. */
  const DvsecCapId: nat := 0x23
  /** The offset `_init_caps` takes as the mark of a broken config space. */
  const BrokenCapPointer: nat := 0xff

  /** `data & CAP_ID_MASK` */
  function CapId(dword: nat): nat
  {
    And(dword, 0xff)
  }

  /** `(data >> 8) & 0xff` */
  function NextCap(dword: nat): nat
  {
    And(Shr(dword, 8), 0xff)
  }

  /** `header & 0xffff` */
  function ExtCapId(header: nat): nat
  {
    And(header, 0xffff)
  }

  /** `(header >> 20) & 0xffc` */
  function NextExtCap(header: nat): nat
  {
    And(Shr(header, 20), 0xffc)
  }

  // ---------------------------------------------------------------------
  // Tables filled key by key

  /** `table[key] = offset` for every entry in turn. */
  function LastBy<K(==)>(entries: seq<(K, nat)>): map<K, nat>
  {
    if |entries| == 0 then map[]
    else
      var e := entries[|entries| - 1];
      LastBy(entries[..|entries| - 1])[e.0 := e.1]
  }

  /** `table[key].append(offset)` into a `defaultdict(list)`, for every entry in turn. */
  function AllBy<K(==)>(entries: seq<(K, nat)>): map<K, seq<nat>>
  {
    if |entries| == 0 then map[]
    else
      var e := entries[|entries| - 1];
      var t := AllBy(entries[..|entries| - 1]);
      t[e.0 := (if e.0 in t then t[e.0] else []) + [e.1]]
  }

  /** The offsets of the entries with `key`, in order. */
  function Matching<K(==)>(entries: seq<(K, nat)>, key: K): seq<nat>
  {
    if |entries| == 0 then []
    else
      var e := entries[|entries| - 1];
      Matching(entries[..|entries| - 1], key) + (if e.0 == key then [e.1] else [])
  }

  lemma LastByStep<K>(entries: seq<(K, nat)>, key: K, offset: nat)
    ensures LastBy(entries + [(key, offset)]) == LastBy(entries)[key := offset]
  {
    assert (entries + [(key, offset)])[..|entries|] == entries;
  }

  lemma AllByStep<K>(entries: seq<(K, nat)>, key: K, offset: nat)
    ensures var t := AllBy(entries);
      AllBy(entries + [(key, offset)]) == t[key := (if key in t then t[key] else []) + [offset]]
  {
    assert (entries + [(key, offset)])[..|entries|] == entries;
  }

  /** An offset is listed for a key exactly when some entry pairs them. */
  lemma {:induction false} MatchingExact<K>(entries: seq<(K, nat)>, key: K, offset: nat)
    ensures offset in Matching(entries, key) <==> (key, offset) in entries
  {
    if |entries| > 0 {
      var init := entries[..|entries| - 1];
      MatchingExact(init, key, offset);
      assert entries == init + [entries[|entries| - 1]];
    }
  }

  /** The list table holds, for each key seen, every offset given for it in order. */
  lemma {:induction false} AllByIs<K>(entries: seq<(K, nat)>, key: K)
    ensures key in AllBy(entries) <==> |Matching(entries, key)| > 0
    ensures key in AllBy(entries) ==> AllBy(entries)[key] == Matching(entries, key)
  {
    if |entries| > 0 {
      AllByIs(entries[..|entries| - 1], key);
    }
  }

  /** The plain table holds, for each key seen, the last offset given for it. */
  lemma {:induction false} LastByIs<K>(entries: seq<(K, nat)>, key: K)
    ensures key in LastBy(entries) <==> |Matching(entries, key)| > 0
    ensures key in LastBy(entries) ==>
      LastBy(entries)[key] == Matching(entries, key)[|Matching(entries, key)| - 1]
  {
    if |entries| > 0 {
      LastByIs(entries[..|entries| - 1], key);
    }
  }

  /** `ext_caps` and `ext_caps_all` agree: the first holds the last offset of the second's list. */
  lemma LastOfAll<K>(entries: seq<(K, nat)>, key: K)
    ensures key in LastBy(entries) <==> key in AllBy(entries)
    ensures key in AllBy(entries) ==> |AllBy(entries)[key]| > 0
    ensures key in AllBy(entries) ==>
      LastBy(entries)[key] == AllBy(entries)[key][|AllBy(entries)[key]| - 1]
  {
    AllByIs(entries, key);
    LastByIs(entries, key);
  }

  /** A later entry with the same key replaces an earlier one. */
  lemma LaterWins<K>(entries: seq<(K, nat)>, i: nat, key: K)
    requires i < |entries| && entries[i].0 == key
    requires forall j :: i < j < |entries| ==> entries[j].0 != key
    ensures key in LastBy(entries) && LastBy(entries)[key] == entries[i].1
  {
    var init := entries[..i + 1];
    assert init[..i] == entries[..i];
    assert LastBy(init) == LastBy(entries[..i])[key := entries[i].1];
    LaterKeep(entries, i + 1, key);
  }

  lemma {:induction false} LaterKeep<K>(entries: seq<(K, nat)>, n: nat, key: K)
    requires 0 < n <= |entries| && key in LastBy(entries[..n])
    requires forall j :: n <= j < |entries| ==> entries[j].0 != key
    ensures key in LastBy(entries) && LastBy(entries)[key] == LastBy(entries[..n])[key]
    decreases |entries| - n
  {
    if n < |entries| {
      assert entries[..n + 1][..n] == entries[..n];
      LaterKeep(entries, n + 1, key);
    } else {
      assert entries[..n] == entries;
    }
  }

  // ---------------------------------------------------------------------
  // The standard list

  /** A walk from `ptr`: each offset visited is non-zero and is the one the
      previous dword points to. */
  predicate CapChain(ptr: nat, visited: seq<(nat, nat)>)
  {
    && (|visited| > 0 ==> visited[0].0 == ptr)
    && (forall k :: 0 <= k < |visited| ==> visited[k].0 != 0)
    && (forall j, k :: 0 <= j < |visited| - 1 && k == j + 1 ==> visited[k].0 == NextCap(visited[j].1))
  }

  /** The offset the walk goes to next. */
  function CapNext(ptr: nat, visited: seq<(nat, nat)>): nat
  {
    if |visited| == 0 then ptr else NextCap(visited[|visited| - 1].1)
  }

  /** The `(cap_id, offset)` pairs recorded in `caps`, in walk order. */
  function CapEntries(visited: seq<(nat, nat)>): (r: seq<(nat, nat)>)
    ensures |r| == |visited|
  {
    if |visited| == 0 then []
    else
      var v := visited[|visited| - 1];
      CapEntries(visited[..|visited| - 1]) + [(CapId(v.1), v.0)]
  }

  lemma {:induction false} CapEntriesAt(visited: seq<(nat, nat)>, k: nat)
    requires k < |visited|
    ensures CapEntries(visited)[k] == (CapId(visited[k].1), visited[k].0)
  {
    if k < |visited| - 1 {
      CapEntriesAt(visited[..|visited| - 1], k);
    }
  }

  /** Extending a walk by one step extends its chain. */
  lemma CapChainStep(ptr: nat, visited: seq<(nat, nat)>, offset: nat, dword: nat)
    requires CapChain(ptr, visited) && offset == CapNext(ptr, visited) && offset != 0
    ensures CapChain(ptr, visited + [(offset, dword)])
    ensures CapNext(ptr, visited + [(offset, dword)]) == NextCap(dword)
    ensures CapEntries(visited + [(offset, dword)]) == CapEntries(visited) + [(CapId(dword), offset)]
  {
    assert (visited + [(offset, dword)])[..|visited|] == visited;
  }

  /** After a walk, `caps` maps an id to the offset of the last capability with that id. */
  lemma CapsOfWalk(visited: seq<(nat, nat)>, id: nat, k: nat)
    requires k < |visited| && CapId(visited[k].1) == id
    requires forall j :: k < j < |visited| ==> CapId(visited[j].1) != id
    ensures id in LastBy(CapEntries(visited)) && LastBy(CapEntries(visited))[id] == visited[k].0
  {
    forall j | k < j < |visited|
      ensures CapEntries(visited)[j].0 != id
    {
      CapEntriesAt(visited, j);
    }
    CapEntriesAt(visited, k);
    LaterWins(CapEntries(visited), k, id);
  }

  /** An id is in `caps` exactly when some capability visited has it. */
  lemma CapsHasId(visited: seq<(nat, nat)>, id: nat)
    ensures id in LastBy(CapEntries(visited)) <==> exists k :: 0 <= k < |visited| && CapId(visited[k].1) == id
  {
    LastByIs(CapEntries(visited), id);
    if id in LastBy(CapEntries(visited)) {
      var m := Matching(CapEntries(visited), id);
      MatchingExact(CapEntries(visited), id, m[0]);
      var k :| 0 <= k < |visited| && CapEntries(visited)[k] == (id, m[0]);
      CapEntriesAt(visited, k);
    } else {
      forall k | 0 <= k < |visited|
        ensures CapId(visited[k].1) != id
      {
        CapEntriesAt(visited, k);
        MatchingExact(CapEntries(visited), id, visited[k].0);
      }
    }
  }

  // ---------------------------------------------------------------------
  // The extended list

  /** The extended walk's reads, `(offset, header)`: the first at 256, each
      next at the offset the previous header points to.  Every read but the
      last was processed: its offset is non-zero and not seen before; the
      last read's offset is 0, which ends the walk, or one already seen,
      which stops it. */
  predicate ExtChain(rs: seq<(nat, nat)>)
  {
    && ExtWalk(rs)
    && (rs[|rs| - 1].0 == 0 || rs[|rs| - 1].0 in Seen(rs))
  }

  /** The reads of an extended walk still under way: all but the last were
      processed, each at a fresh non-zero offset. */
  predicate ExtWalk(rs: seq<(nat, nat)>)
    decreases |rs|
  {
    && |rs| >= 1
    && if |rs| == 1 then rs[0].0 == CfgSpaceSize
       else
         var init := rs[..|rs| - 1];
         var prev := init[|init| - 1];
         && ExtWalk(init)
         && prev.0 != 0 && prev.0 !in Seen(init)
         && rs[|rs| - 1].0 == NextExtCap(prev.1)
  }

  /** The offsets the walk `rs` has processed: all but the last read's. */
  function Seen(rs: seq<(nat, nat)>): set<nat>
  {
    set k | 0 <= k < |rs| - 1 :: rs[k].0
  }

  /** Spelled out, a walk starts at 256, follows the headers, and processes
      distinct non-zero offsets. */
  lemma {:induction false} ExtWalkIs(rs: seq<(nat, nat)>)
    requires ExtWalk(rs)
    ensures rs[0].0 == CfgSpaceSize
    ensures forall k :: 0 <= k < |rs| - 1 ==> rs[k].0 != 0 && rs[k + 1].0 == NextExtCap(rs[k].1)
    ensures forall j, k :: 0 <= j < k < |rs| - 1 ==> rs[j].0 != rs[k].0
  {
    if |rs| > 1 {
      var init := rs[..|rs| - 1];
      ExtWalkIs(init);
      forall j, k | 0 <= j < k < |rs| - 1
        ensures rs[j].0 != rs[k].0
      {
        if k == |rs| - 2 {
          assert init[j].0 in Seen(init);
        }
      }
    }
  }

  /** Processing a fresh non-zero offset and reading the header it points
      to continues the walk. */
  lemma ExtWalkStep(rs: seq<(nat, nat)>, offset: nat, header: nat)
    requires ExtWalk(rs) && rs[|rs| - 1].0 != 0 && rs[|rs| - 1].0 !in Seen(rs)
    requires offset == NextExtCap(rs[|rs| - 1].1)
    ensures ExtWalk(rs + [(offset, header)])
    ensures Seen(rs + [(offset, header)]) == Seen(rs) + {rs[|rs| - 1].0}
  {
    var rs' := rs + [(offset, header)];
    assert rs'[..|rs'| - 1] == rs;
    assert forall k :: 0 <= k < |rs'| - 1 ==> rs'[k] == rs[k];
  }

  /** A walk that meets an offset it processed before has ended. */
  lemma ExtRevisit(rs: seq<(nat, nat)>)
    requires ExtWalk(rs) && rs[|rs| - 1].0 in Seen(rs)
    ensures ExtChain(rs)
  {
  }

  /** The `(cap, offset)` pairs recorded in `ext_caps` and `ext_caps_all`. */
  function ExtEntries(processed: seq<(nat, nat)>): (r: seq<(nat, nat)>)
    ensures |r| == |processed|
  {
    if |processed| == 0 then []
    else
      var v := processed[|processed| - 1];
      ExtEntries(processed[..|processed| - 1]) + [(ExtCapId(v.1), v.0)]
  }

  lemma ExtEntriesStep(processed: seq<(nat, nat)>, offset: nat, header: nat)
    ensures ExtEntries(processed + [(offset, header)]) == ExtEntries(processed) + [(ExtCapId(header), offset)]
  {
    assert (processed + [(offset, header)])[..|processed|] == processed;
  }

  /** Every extended offset after the first is a multiple of four below 4096. */
  lemma NextExtCapBound(header: nat)
    ensures NextExtCap(header) <= 0xffc
  {
    AndComm(Shr(header, 20), 0xffc);
    AndNotPlusAnd(0xffc, Shr(header, 20));
  }

  // ---------------------------------------------------------------------
  // Designated vendor-specific capabilities

  /** The DVSEC reads, `(offset, dword at +4, dword at +8)`, give the keys
      `(vendor, dvsec id)` of `dvsec_caps`. */
  function DvsecEntries(ds: seq<(nat, nat, nat)>): (r: seq<((nat, nat), nat)>)
    ensures |r| == |ds|
  {
    if |ds| == 0 then []
    else
      var d := ds[|ds| - 1];
      DvsecEntries(ds[..|ds| - 1]) + [((And(d.1, 0xffff), And(d.2, 0xffff)), d.0)]
  }

  lemma DvsecEntriesStep(ds: seq<(nat, nat, nat)>, d: (nat, nat, nat))
    ensures DvsecEntries(ds + [d]) == DvsecEntries(ds) + [((And(d.1, 0xffff), And(d.2, 0xffff)), d.0)]
  {
    assert (ds + [d])[..|ds|] == ds;
  }

  /** The offsets of the DVSEC capabilities, in walk order: `ext_caps_all[0x23]`. */
  function DvsecOffsets(all: map<nat, seq<nat>>): seq<nat>
  {
    if DvsecCapId in all then all[DvsecCapId] else []
  }
}
