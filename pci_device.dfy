/**
 * `PciDevice` (pci/device.py): what opening a PCI function reads from its
 * configuration space — the identifiers, the capability lists, the DVSEC
 * map and the BARs — and the saving and restoring of the config registers
 * a reset clears.
 *
 * Every method is proved against the trace of what it read: the walks
 * return the `(offset, dword)` pairs they read as ghost results, the
 * device's access log grows by exactly those reads, and the tables are the
 * folds of PciCaps over the trace.
 */
module PciDevice {
  import opened Bits
  import opened Text
  import opened GpuErrors
  import opened ConfigSpaces
  import opened PciCaps
  import opened PciBars

  /** Dword reads at the offsets of a trace, in order. */
  function Reads32(trace: seq<(nat, nat)>): seq<CfgAccess>
  {
    if |trace| == 0 then []
    else
      var t := trace[|trace| - 1];
      Reads32(trace[..|trace| - 1]) + [CfgRead(t.0, 4, t.1)]
  }

  lemma Reads32Step(trace: seq<(nat, nat)>, offset: nat, dword: nat)
    ensures Reads32(trace + [(offset, dword)]) == Reads32(trace) + [CfgRead(offset, 4, dword)]
  {
    assert (trace + [(offset, dword)])[..|trace|] == trace;
  }

  /** The two reads of each DVSEC capability: the dwords at `+4` and `+8`. */
  function DvsecReads(ds: seq<(nat, nat, nat)>): seq<CfgAccess>
  {
    if |ds| == 0 then []
    else
      var d := ds[|ds| - 1];
      DvsecReads(ds[..|ds| - 1]) + [CfgRead(d.0 + 4, 4, d.1), CfgRead(d.0 + 8, 4, d.2)]
  }

  lemma DvsecReadsStep(ds: seq<(nat, nat, nat)>, d: (nat, nat, nat))
    ensures DvsecReads(ds + [d]) == DvsecReads(ds) + [CfgRead(d.0 + 4, 4, d.1), CfgRead(d.0 + 8, 4, d.2)]
  {
    assert (ds + [d])[..|ds|] == ds;
  }

  lemma AppendAssoc<T>(a: seq<T>, b: seq<T>, c: seq<T>)
    ensures a + b + c == a + (b + c)
  {
  }

  lemma AppendAssoc4<T>(a: seq<T>, b: seq<T>, c: seq<T>, d: seq<T>, e: seq<T>)
    ensures a + b + c + d + e == a + (b + (c + d + e))
  {
  }

  /** `ext_caps_all[0x23]` on a `defaultdict(list)` adds the key with an empty list. */
  function WithDvsecKey(all: map<nat, seq<nat>>): map<nat, seq<nat>>
  {
    if DvsecCapId in all then all else all[DvsecCapId := []]
  }

  /** Every extended offset the walk can reach: 256, or one a header points to. */
  const ExtOffsets: set<nat> := set x: nat | x <= 0xffc

  // ---------------------------------------------------------------------
  // The config registers saved across a reset

  /** `GPU_CFG_SPACE_OFFSETS` */
  const GpuCfgSpaceOffsets: seq<nat> := [0x4, 0x10, 0x14, 0x18, 0x1c, 0x20, 0x24, 0x114]

  /** The offsets below `size`, in order. */
  function Below(offsets: seq<nat>, size: nat): seq<nat>
  {
    if |offsets| == 0 then []
    else Below(offsets[..|offsets| - 1], size) + (if offsets[|offsets| - 1] < size then [offsets[|offsets| - 1]] else [])
  }

  /** The offsets that are keys of `keys`, in order. */
  function Among(offsets: seq<nat>, keys: set<nat>): seq<nat>
  {
    if |offsets| == 0 then []
    else Among(offsets[..|offsets| - 1], keys) + (if offsets[|offsets| - 1] in keys then [offsets[|offsets| - 1]] else [])
  }

  predicate Increasing(xs: seq<nat>)
  {
    forall i, j :: 0 <= i < j < |xs| ==> xs[i] < xs[j]
  }

  lemma IncreasingAppend(xs: seq<nat>, x: nat)
    requires Increasing(xs) && forall y :: y in xs ==> y < x
    ensures Increasing(xs + [x])
  {
    var r := xs + [x];
    forall i, j | 0 <= i < j < |r|
      ensures r[i] < r[j]
    {
      if j == |xs| {
        assert r[i] in xs;
      }
    }
  }

  /** Keeping some elements of an increasing sequence keeps them increasing,
      and keeps exactly the elements chosen. */
  lemma {:induction false} AmongIs(offsets: seq<nat>, keys: set<nat>)
    requires Increasing(offsets)
    ensures Increasing(Among(offsets, keys))
    ensures forall x :: x in Among(offsets, keys) <==> x in offsets && x in keys
  {
    if |offsets| > 0 {
      var init := offsets[..|offsets| - 1];
      AmongIs(init, keys);
      assert offsets == init + [offsets[|offsets| - 1]];
      forall x | x in Among(init, keys)
        ensures x < offsets[|offsets| - 1]
      {
        var i :| 0 <= i < |init| && init[i] == x;
      }
      IncreasingAppend(Among(init, keys), offsets[|offsets| - 1]);
    }
  }

  lemma {:induction false} BelowIs(offsets: seq<nat>, size: nat)
    requires Increasing(offsets)
    ensures Increasing(Below(offsets, size))
    ensures forall x :: x in Below(offsets, size) <==> x in offsets && x < size
  {
    if |offsets| > 0 {
      var init := offsets[..|offsets| - 1];
      BelowIs(init, size);
      assert offsets == init + [offsets[|offsets| - 1]];
      forall x | x in Below(init, size)
        ensures x < offsets[|offsets| - 1]
      {
        var i :| 0 <= i < |init| && init[i] == x;
      }
      IncreasingAppend(Below(init, size), offsets[|offsets| - 1]);
    }
  }

  /** The registers are saved in increasing order of offset, those below the
      config size, and restored in increasing order: the saved offsets in
      `GPU_CFG_SPACE_OFFSETS` order are the sorted saved keys. */
  lemma SaveRestoreOrder(size: nat, keys: set<nat>)
    ensures Increasing(Below(GpuCfgSpaceOffsets, size))
    ensures forall x :: x in Below(GpuCfgSpaceOffsets, size) <==> x in GpuCfgSpaceOffsets && x < size
    ensures Increasing(Among(GpuCfgSpaceOffsets, keys))
    ensures forall x :: x in Among(GpuCfgSpaceOffsets, keys) <==> x in GpuCfgSpaceOffsets && x in keys
  {
    assert Increasing(GpuCfgSpaceOffsets);
    BelowIs(GpuCfgSpaceOffsets, size);
    AmongIs(GpuCfgSpaceOffsets, keys);
  }

  /** The accesses of the restore: for each offset in order, a read of the
      current value, then the write of the saved one. */
  function RestoreLog(order: seq<nat>, current: seq<nat>, saved: map<nat, nat>): seq<CfgAccess>
    requires |current| == |order| && forall o :: o in order ==> o in saved
  {
    if |order| == 0 then []
    else
      var n := |order| - 1;
      RestoreLog(order[..n], current[..n], saved) + [CfgRead(order[n], 4, current[n]), CfgWrite(order[n], 4, saved[order[n]])]
  }

  lemma RestoreLogStep(order: seq<nat>, current: seq<nat>, saved: map<nat, nat>, o: nat, now: nat)
    requires |current| == |order| && (forall x :: x in order ==> x in saved) && o in saved
    ensures RestoreLog(order + [o], current + [now], saved)
      == RestoreLog(order, current, saved) + [CfgRead(o, 4, now), CfgWrite(o, 4, saved[o])]
  {
    assert (order + [o])[..|order|] == order && (current + [now])[..|current|] == current;
  }

  const NoSaved: string := "'PciDevice' object has no attribute 'saved_cfg_space'"

  /** The extended-capability tables of a config space of `size` bytes
      after the walk `rs` and the DVSEC reads `ds`. */
  ghost predicate ExtTables(size: nat, rs: seq<(nat, nat)>, ds: seq<(nat, nat, nat)>,
                            ext: map<nat, nat>, all: map<nat, seq<nat>>, dvsec: map<(nat, nat), nat>)
  {
    if size <= CfgSpaceSize then
      rs == [] && ds == [] && ext == map[] && all == map[] && dvsec == map[]
    else
      && ExtChain(rs)
      && var entries := ExtEntries(rs[..|rs| - 1]);
      && ext == LastBy(entries)
      && (rs[|rs| - 1].0 != 0 ==> all == AllBy(entries) && ds == [] && dvsec == map[])
      && (rs[|rs| - 1].0 == 0 ==>
            && all == WithDvsecKey(AllBy(entries))
            && |ds| == |DvsecOffsets(AllBy(entries))|
            && (forall k :: 0 <= k < |ds| ==> ds[k].0 == DvsecOffsets(AllBy(entries))[k])
            && dvsec == LastBy(DvsecEntries(ds)))
  }

  class PciDevice {
    const config: ConfigSpace
    const vendor: nat
    const device: nat
    const svid: nat
    const ssid: nat
    const headerType: nat
    var cfgSpaceBroken: bool
    /** capability id to offset */
    var caps: map<nat, nat>
    /** extended capability id to its last offset */
    var extCaps: map<nat, nat>
    /** extended capability id to all its offsets */
    var extCapsAll: map<nat, seq<nat>>
    /** `(vendor, dvsec id)` to offset */
    var dvsecCaps: map<(nat, nat), nat>
    var bars: seq<Bar>
    /** `saved_cfg_space`, absent until the first save */
    var saved: Option<map<nat, nat>>

    constructor (config: ConfigSpace, vendor: nat, device: nat, svid: nat, ssid: nat, headerType: nat)
      ensures this.config == config && this.vendor == vendor && this.device == device
      ensures this.svid == svid && this.ssid == ssid && this.headerType == headerType
      ensures !cfgSpaceBroken && caps == map[] && extCaps == map[] && extCapsAll == map[] && dvsecCaps == map[]
      ensures bars == [] && saved == None
    {
      this.config := config;
      this.vendor := vendor;
      this.device := device;
      this.svid := svid;
      this.ssid := ssid;
      this.headerType := headerType;
      cfgSpaceBroken := false;
      caps := map[];
      extCaps := map[];
      extCapsAll := map[];
      dvsecCaps := map[];
      bars := [];
      saved := None;
    }

    /** The saved registers are among `GPU_CFG_SPACE_OFFSETS` and hold dwords. */
    predicate SavedOk()
      reads this
    {
      saved.Some? ==> forall o :: o in saved.value ==> o in GpuCfgSpaceOffsets && saved.value[o] < 0x1_0000_0000
    }

    // -------------------------------------------------------------------
    // Capabilities

    /** `_init_caps`: a capability pointer of 0xff marks the config space
        broken and records nothing; otherwise the standard list is walked to
        its end, then the extended list.  The source does not stop on a
        cyclic list; here the walk gives up after `fuel` capabilities
        (`done` false) and then skips the extended list. */
    method InitCaps(fuel: nat) returns (ghost ptr: nat, ghost visited: seq<(nat, nat)>, done: bool,
                                        ghost rs: seq<(nat, nat)>, ghost ds: seq<(nat, nat, nat)>)
      modifies this, config
      ensures ptr == old(config.Next(CapabilityList, 1))
      ensures bars == old(bars) && saved == old(saved)
      ensures old(config.log) <= config.log
      ensures ptr == BrokenCapPointer ==>
        cfgSpaceBroken && !done && visited == [] && rs == [] && ds == [] &&
        caps == map[] && extCaps == map[] && extCapsAll == map[] && dvsecCaps == map[] &&
        config.log == old(config.log) + [CfgRead(CapabilityList, 1, ptr)]
      ensures ptr != BrokenCapPointer ==>
        cfgSpaceBroken == old(cfgSpaceBroken) &&
        CapChain(ptr, visited) && caps == LastBy(CapEntries(visited)) &&
        (done <==> CapNext(ptr, visited) == 0) && (!done ==> |visited| == fuel)
      ensures ptr != BrokenCapPointer && !done ==>
        rs == [] && ds == [] && extCaps == map[] && extCapsAll == map[] && dvsecCaps == map[] &&
        config.log == old(config.log) + [CfgRead(CapabilityList, 1, ptr)] + Reads32(visited)
      ensures ptr != BrokenCapPointer && done ==>
        ExtCapsWalked(rs, ds) &&
        config.log == old(config.log) + [CfgRead(CapabilityList, 1, ptr)] + Reads32(visited) + Reads32(rs) + DvsecReads(ds)
    {
      caps := map[];
      extCaps := map[];
      extCapsAll := map[];
      dvsecCaps := map[];
      visited := [];
      rs := [];
      ds := [];
      done := false;
      var p := config.Read(CapabilityList, 1);
      ptr := p;
      if p == BrokenCapPointer {
        cfgSpaceBroken := true;
        return;
      }
      var table, offset;
      table, offset, visited := WalkCaps(p, fuel);
      caps := table;
      if offset != 0 {
        return;
      }
      done := true;
      rs, ds := InitExtCaps();
    }

    /** The loop of `_init_caps` from the pointer `ptr`: the table it fills
        and the offset it stopped at, after at most `fuel` capabilities. */
    method WalkCaps(ptr: nat, fuel: nat) returns (table: map<nat, nat>, offset: nat, ghost visited: seq<(nat, nat)>)
      modifies config
      ensures CapChain(ptr, visited) && offset == CapNext(ptr, visited)
      ensures table == LastBy(CapEntries(visited))
      ensures |visited| <= fuel && (offset != 0 ==> |visited| == fuel)
      ensures config.log == old(config.log) + Reads32(visited)
    {
      table := map[];
      visited := [];
      offset := ptr;
      var n := 0;
      while offset != 0 && n < fuel
        invariant n == |visited| <= fuel
        invariant CapChain(ptr, visited) && offset == CapNext(ptr, visited)
        invariant table == LastBy(CapEntries(visited))
        invariant config.log == old(config.log) + Reads32(visited)
        decreases fuel - n
      {
        var dword := config.Read32(offset);
        table := table[CapId(dword) := offset];
        CapChainStep(ptr, visited, offset, dword);
        LastByStep(CapEntries(visited), CapId(dword), offset);
        Reads32Step(visited, offset, dword);
        visited := visited + [(offset, dword)];
        offset := NextCap(dword);
        n := n + 1;
      }
    }

    /** The tables the extended walk `rs` and the DVSEC reads `ds` leave, as
        `_init_ext_caps` fills them. */
    ghost predicate ExtCapsWalked(rs: seq<(nat, nat)>, ds: seq<(nat, nat, nat)>)
      reads this, config
    {
      ExtTables(config.size, rs, ds, extCaps, extCapsAll, dvsecCaps)
    }

    /** `_init_ext_caps`: nothing in a 256-byte config space; otherwise the
        walk from offset 256, stopped by offset 0 or by a revisited offset,
        and, when it ended at 0, the DVSEC map. */
    method InitExtCaps() returns (ghost rs: seq<(nat, nat)>, ghost ds: seq<(nat, nat, nat)>)
      requires extCaps == map[] && extCapsAll == map[] && dvsecCaps == map[]
      modifies this, config
      ensures caps == old(caps) && bars == old(bars) && saved == old(saved) && cfgSpaceBroken == old(cfgSpaceBroken)
      ensures ExtCapsWalked(rs, ds)
      ensures config.log == old(config.log) + Reads32(rs) + DvsecReads(ds)
    {
      var ext, all, dvsec;
      ext, all, dvsec, rs, ds := ScanExtCaps();
      extCaps := ext;
      extCapsAll := all;
      dvsecCaps := dvsec;
    }

    /** The reads of `_init_ext_caps` and the three tables they give. */
    method ScanExtCaps() returns (ext: map<nat, nat>, all: map<nat, seq<nat>>, dvsec: map<(nat, nat), nat>,
                                  ghost rs: seq<(nat, nat)>, ghost ds: seq<(nat, nat, nat)>)
      modifies config
      ensures ExtTables(config.size, rs, ds, ext, all, dvsec)
      ensures config.log == old(config.log) + Reads32(rs) + DvsecReads(ds)
    {
      rs := [];
      ds := [];
      ext, all, dvsec := map[], map[], map[];
      if config.size <= CfgSpaceSize {
        return;
      }
      var ended;
      ext, all, rs, ended := WalkExtCaps();
      if !ended {
        return;
      }
      var list := DvsecOffsets(all);
      all := WithDvsecKey(all);
      dvsec, ds := ReadDvsecTable(list);
    }

    /** The loop of `_init_ext_caps` from offset 256: the two tables it
        fills; `ended` is false when it stopped at a revisited offset. */
    method WalkExtCaps() returns (ext: map<nat, nat>, all: map<nat, seq<nat>>, ghost rs: seq<(nat, nat)>, ended: bool)
      modifies config
      ensures ExtChain(rs) && (ended <==> rs[|rs| - 1].0 == 0)
      ensures ext == LastBy(ExtEntries(rs[..|rs| - 1])) && all == AllBy(ExtEntries(rs[..|rs| - 1]))
      ensures config.log == old(config.log) + Reads32(rs)
    {
      ext := map[];
      all := map[];
      var offset := CfgSpaceSize;
      var header := config.Read32(CfgSpaceSize);
      rs := [(offset, header)];
      Reads32Step([], offset, header);
      var offsets: set<nat> := {};
      while offset != 0
        invariant ExtWalk(rs) && rs[|rs| - 1] == (offset, header)
        invariant offsets == Seen(rs) && offsets <= ExtOffsets && offset in ExtOffsets
        invariant ext == LastBy(ExtEntries(rs[..|rs| - 1])) && all == AllBy(ExtEntries(rs[..|rs| - 1]))
        invariant config.log == old(config.log) + Reads32(rs)
        decreases ExtOffsets - offsets
      {
        if offset in offsets {
          ExtRevisit(rs);
          return ext, all, rs, false;
        }
        offsets := offsets + {offset};
        ghost var rs0 := rs;
        ext, all, offset, header, rs := ExtStep(ext, all, offset, header, rs);
        AppendAssoc(old(config.log), Reads32(rs0), [CfgRead(offset, 4, header)]);
      }
      ended := true;
    }

    /** One turn of the extended walk: record the capability at `offset`
        and read the header of the next one. */
    method ExtStep(ext: map<nat, nat>, all: map<nat, seq<nat>>, offset: nat, header: nat, ghost rs: seq<(nat, nat)>)
      returns (ext': map<nat, nat>, all': map<nat, seq<nat>>, offset': nat, header': nat, ghost rs': seq<(nat, nat)>)
      requires ExtWalk(rs) && rs[|rs| - 1] == (offset, header) && offset != 0 && offset !in Seen(rs)
      requires ext == LastBy(ExtEntries(rs[..|rs| - 1])) && all == AllBy(ExtEntries(rs[..|rs| - 1]))
      modifies config
      ensures rs' == rs + [(offset', header')] && offset' == NextExtCap(header) && offset' in ExtOffsets
      ensures ExtWalk(rs') && Seen(rs') == Seen(rs) + {offset}
      ensures ext' == LastBy(ExtEntries(rs'[..|rs'| - 1])) && all' == AllBy(ExtEntries(rs'[..|rs'| - 1]))
      ensures Reads32(rs') == Reads32(rs) + [CfgRead(offset', 4, header')]
      ensures config.log == old(config.log) + [CfgRead(offset', 4, header')]
    {
      ghost var processed := rs[..|rs| - 1];
      assert rs == processed + [(offset, header)];
      var cap := ExtCapId(header);
      ext' := ext[cap := offset];
      all' := all[cap := (if cap in all then all[cap] else []) + [offset]];
      ExtEntriesStep(processed, offset, header);
      LastByStep(ExtEntries(processed), cap, offset);
      AllByStep(ExtEntries(processed), cap, offset);
      offset' := NextExtCap(header);
      NextExtCapBound(header);
      header' := config.Read32(offset');
      Reads32Step(rs, offset', header');
      ExtWalkStep(rs, offset', header');
      rs' := rs + [(offset', header')];
      assert rs'[..|rs'| - 1] == rs;
    }

    /** The DVSEC loop of `_init_ext_caps` over the offsets `list` of
        `ext_caps_all[0x23]`: `dvsec_caps[vendor, id] = offset` for each. */
    method ReadDvsecTable(list: seq<nat>) returns (table: map<(nat, nat), nat>, ghost ds: seq<(nat, nat, nat)>)
      modifies config
      ensures |ds| == |list| && forall k :: 0 <= k < |ds| ==> ds[k].0 == list[k]
      ensures table == LastBy(DvsecEntries(ds))
      ensures config.log == old(config.log) + DvsecReads(ds)
    {
      table := map[];
      ds := [];
      var i := 0;
      while i < |list|
        invariant i <= |list| && |ds| == i
        invariant forall k :: 0 <= k < i ==> ds[k].0 == list[k]
        invariant table == LastBy(DvsecEntries(ds))
        invariant config.log == old(config.log) + DvsecReads(ds)
      {
        var offset := list[i];
        var key, d := ReadDvsecHeader(offset);
        table := table[key := offset];
        DvsecEntriesStep(ds, d);
        LastByStep(DvsecEntries(ds), key, offset);
        DvsecReadsStep(ds, d);
        AppendAssoc(old(config.log), DvsecReads(ds), [CfgRead(offset + 4, 4, d.1), CfgRead(offset + 8, 4, d.2)]);
        ds := ds + [d];
        i := i + 1;
      }
    }

    /** The key of the DVSEC capability at `offset`: the low halves of its
        second and third dwords. */
    method ReadDvsecHeader(offset: nat) returns (key: (nat, nat), ghost d: (nat, nat, nat))
      modifies config
      ensures d.0 == offset && key == (And(d.1, 0xffff), And(d.2, 0xffff))
      ensures config.log == old(config.log) + [CfgRead(offset + 4, 4, d.1), CfgRead(offset + 8, 4, d.2)]
    {
      var header1 := config.Read32(offset + 4);
      var header2 := config.Read32(offset + 8);
      key := (And(header1, 0xffff), And(header2, 0xffff));
      d := (offset, header1, header2);
    }

    /** `config_read_dvsec_cap(vendor, dvsec_id, offset_in_cap)`: None for an
        absent capability, else the dword at that offset into it. */
    method ConfigReadDvsecCap(vendor: nat, dvsecId: nat, offsetInCap: nat) returns (r: Option<nat>)
      modifies config
      ensures (vendor, dvsecId) !in dvsecCaps ==> r == None && config.log == old(config.log)
      ensures (vendor, dvsecId) in dvsecCaps ==>
        var at := dvsecCaps[(vendor, dvsecId)] + offsetInCap;
        r == Some(old(config.Next(at, 4))) && config.log == old(config.log) + [CfgRead(at, 4, r.value)]
    {
      if (vendor, dvsecId) !in dvsecCaps {
        return None;
      }
      var v := config.Read(dvsecCaps[(vendor, dvsecId)] + offsetInCap, 4);
      r := Some(v);
    }

    // -------------------------------------------------------------------
    // BARs

    /** `_bar_reg_mask(offset, high)`: the BAR's first value is written back. */
    method BarRegMask(offset: nat, high: bool) returns (value: nat, org: nat, raw: nat)
      modifies config
      ensures org == old(config.Next(offset, 4))
      ensures raw < 0x1_0000_0000 && value == ProbeMask(raw, high)
      ensures config.log == old(config.log) + ProbeLog(offset, org, raw)
    {
      Pow2Of32();
      var first := config.Read(offset, 4);
      org := first;
      config.Write32(offset, 0xffff_ffff);
      var readBack := config.Read(offset, 4);
      raw := readBack;
      config.Write32(offset, first);
      value := ProbeMask(readBack, high);
    }

    /** `_init_bars_config_space`: slots are scanned from 0 below
        `max_bars`; an I/O BAR takes one slot, a 64-bit BAR two, and a BAR at
        address 0 is not listed. */
    method InitBarsConfigSpace() returns (ghost slots: seq<Slot>)
      modifies this, config
      ensures SlotChain(slots, MaxBars(headerType)) && NextSlot(slots) >= MaxBars(headerType)
      ensures bars == BarsOf(slots)
      ensures config.log == old(config.log) + SlotsLog(slots)
      ensures old(config.log) <= config.log
      ensures caps == old(caps) && extCaps == old(extCaps) && extCapsAll == old(extCapsAll)
      ensures dvsecCaps == old(dvsecCaps) && saved == old(saved) && cfgSpaceBroken == old(cfgSpaceBroken)
    {
      var found;
      found, slots := ScanBars(MaxBars(headerType));
      bars := found;
    }

    /** The loop of `_init_bars_config_space` over the first `max` slots. */
    method ScanBars(max: nat) returns (found: seq<Bar>, ghost slots: seq<Slot>)
      modifies config
      ensures SlotChain(slots, max) && NextSlot(slots) >= max
      ensures found == BarsOf(slots)
      ensures config.log == old(config.log) + SlotsLog(slots)
    {
      found := [];
      slots := [];
      var num := 0;
      while num < max
        invariant num == NextSlot(slots) && SlotChain(slots, max)
        invariant found == BarsOf(slots)
        invariant config.log == old(config.log) + SlotsLog(slots)
        decreases max as int - num as int
      {
        ghost var log1 := config.log;
        var s := ScanSlot(num);
        AfterSlotIs(log1, s);
        SlotsStep(slots, s);
        AppendAssoc(old(config.log), SlotsLog(slots), SlotLog(s));
        SlotChainStep(slots, s, max);
        slots := slots + [s];
        if AddsBar(s) {
          found := found + [SlotBar(s)];
        }
        num := num + SlotStep(s.reg);
      }
    }

    /** One turn of the scan at slot `num`: what it reads there. */
    method ScanSlot(num: nat) returns (s: Slot)
      modifies config
      ensures s.num == num
      ensures s.reg < 0x1_0000_0000 && s.hi < 0x1_0000_0000 && s.lowRaw < 0x1_0000_0000 && s.highRaw < 0x1_0000_0000
      ensures config.log == AfterSlot(old(config.log), s)
    {
      var offset := BarOffset(num);
      var reg := config.Read32(offset);
      if !IsMmio(reg) {
        return Slot(num, reg, 0, 0, 0, 0, 0);
      }
      if Is64(reg) {
        var hi := config.Read32(offset + 4);
        var _, lowOrg, lowRaw := BarRegMask(offset, false);
        var _, highOrg, highRaw := BarRegMask(offset + 4, true);
        s := Slot(num, reg, hi, lowOrg, lowRaw, highOrg, highRaw);
      } else {
        var _, lowOrg, lowRaw := BarRegMask(offset, false);
        s := Slot(num, reg, 0, lowOrg, lowRaw, 0, 0);
      }
    }

    /** `_init_bars_sysfs`: the BARs of the first six lines of the resource
        file; a malformed line raises. */
    method InitBarsSysfs(resources: seq<string>) returns (r: Result<()>)
      modifies this
      ensures var n := if |resources| < 6 then |resources| else 6;
        && (r.Ok? <==> SysfsBars(resources, n).Ok?)
        && (r.Ok? ==> bars == SysfsBars(resources, n).value)
        && (r.Err? ==> r.error == SysfsBars(resources, n).error)
      ensures caps == old(caps) && extCaps == old(extCaps) && extCapsAll == old(extCapsAll)
      ensures dvsecCaps == old(dvsecCaps) && saved == old(saved) && cfgSpaceBroken == old(cfgSpaceBroken)
    {
      bars := [];
      var n := if |resources| < 6 then |resources| else 6;
      var i := 0;
      while i < n
        invariant i <= n && SysfsBars(resources, i) == Ok(bars)
        invariant caps == old(caps) && extCaps == old(extCaps) && extCapsAll == old(extCapsAll)
        invariant dvsecCaps == old(dvsecCaps) && saved == old(saved) && cfgSpaceBroken == old(cfgSpaceBroken)
      {
        var more := ResourceBar(resources[i]);
        SysfsBarsNext(resources, i, bars);
        if more.Err? {
          SysfsBarsErrSticks(resources, i + 1, n);
          return Err(more.error);
        }
        bars := bars + more.value;
        i := i + 1;
      }
      r := Ok(());
    }

    /** `_bar_num_to_sysfs_resource(barnum)` */
    method BarNumToSysfsResource(barnum: nat) returns (r: Result<nat>)
      ensures r == SysfsResource(bars, barnum)
    {
      var sysfsNum := barnum;
      var b := 0;
      while b < barnum
        invariant b <= barnum && b <= |bars|
        invariant sysfsNum == barnum + Count64(bars[..b])
      {
        if b >= |bars| {
          return Err(IndexError("list index out of range"));
        }
        assert bars[..b + 1][..b] == bars[..b];
        if bars[b].is64 {
          sysfsNum := sysfsNum + 1;
        }
        b := b + 1;
      }
      r := Ok(sysfsNum);
    }

    // -------------------------------------------------------------------
    // Saving and restoring config registers

    /** `_save_cfg_space`: the registers of `GPU_CFG_SPACE_OFFSETS` below the
        config size, read in order. */
    method SaveCfgSpace() returns (ghost vals: seq<(nat, nat)>)
      modifies this, config
      ensures |vals| == |Below(GpuCfgSpaceOffsets, config.size)|
      ensures forall k :: 0 <= k < |vals| ==> vals[k].0 == Below(GpuCfgSpaceOffsets, config.size)[k]
      ensures saved == Some(LastBy(vals)) && SavedOk()
      ensures config.log == old(config.log) + Reads32(vals)
      ensures caps == old(caps) && extCaps == old(extCaps) && extCapsAll == old(extCapsAll)
      ensures dvsecCaps == old(dvsecCaps) && bars == old(bars) && cfgSpaceBroken == old(cfgSpaceBroken)
    {
      var m;
      m, vals := ReadSaved();
      saved := Some(m);
      SavedTable(vals, config.size);
    }

    /** The loop of `_save_cfg_space`: the dwords at the offsets below the
        config size, read in order, and the table they fill. */
    method ReadSaved() returns (m: map<nat, nat>, ghost vals: seq<(nat, nat)>)
      modifies config
      ensures |vals| == |Below(GpuCfgSpaceOffsets, config.size)|
      ensures forall k :: 0 <= k < |vals| ==> vals[k].0 == Below(GpuCfgSpaceOffsets, config.size)[k]
      ensures forall k :: 0 <= k < |vals| ==> vals[k].1 < 0x1_0000_0000
      ensures m == LastBy(vals)
      ensures config.log == old(config.log) + Reads32(vals)
    {
      m := map[];
      vals := [];
      var i := 0;
      while i < |GpuCfgSpaceOffsets|
        invariant i <= |GpuCfgSpaceOffsets|
        invariant |vals| == |Below(GpuCfgSpaceOffsets[..i], config.size)|
        invariant forall k :: 0 <= k < |vals| ==> vals[k].0 == Below(GpuCfgSpaceOffsets[..i], config.size)[k]
        invariant forall k :: 0 <= k < |vals| ==> vals[k].1 < 0x1_0000_0000
        invariant m == LastBy(vals)
        invariant config.log == old(config.log) + Reads32(vals)
      {
        var offset := GpuCfgSpaceOffsets[i];
        assert GpuCfgSpaceOffsets[..i + 1] == GpuCfgSpaceOffsets[..i] + [offset];
        if offset < config.size {
          var v := config.Read32(offset);
          m := m[offset := v];
          LastByStep(vals, offset, v);
          Reads32Step(vals, offset, v);
          vals := vals + [(offset, v)];
        }
        i := i + 1;
      }
      assert GpuCfgSpaceOffsets[..i] == GpuCfgSpaceOffsets;
    }

    /** The table saved holds the dwords read, at offsets of `GPU_CFG_SPACE_OFFSETS`. */
    static lemma SavedTable(vals: seq<(nat, nat)>, size: nat)
      requires |vals| == |Below(GpuCfgSpaceOffsets, size)|
      requires forall k :: 0 <= k < |vals| ==> vals[k].0 == Below(GpuCfgSpaceOffsets, size)[k]
      requires forall k :: 0 <= k < |vals| ==> vals[k].1 < 0x1_0000_0000
      ensures forall o :: o in LastBy(vals) ==> o in GpuCfgSpaceOffsets && LastBy(vals)[o] < 0x1_0000_0000
    {
      SaveRestoreOrder(size, {});
      forall o | o in LastBy(vals)
        ensures o in GpuCfgSpaceOffsets && LastBy(vals)[o] < 0x1_0000_0000
      {
        LastByIs(vals, o);
        var m := Matching(vals, o);
        MatchingExact(vals, o, m[|m| - 1]);
        var k :| 0 <= k < |vals| && vals[k] == (o, m[|m| - 1]);
        assert Below(GpuCfgSpaceOffsets, size)[k] in Below(GpuCfgSpaceOffsets, size);
      }
    }

    /** `_restore_cfg_space`: each saved register, in increasing offset
        order, is read and then written with its saved value.  Restoring
        before any save, or after a save that kept nothing, raises. */
    method RestoreCfgSpace() returns (r: Result<()>, ghost current: seq<nat>)
      requires SavedOk()
      modifies config
      ensures saved.None? ==>
        r == Err(AttributeError(NoSaved)) && config.log == old(config.log)
      ensures saved.Some? && |saved.value| == 0 ==> r == Err(AssertionError("")) && config.log == old(config.log)
      ensures saved.Some? && |saved.value| > 0 ==>
        var order := Among(GpuCfgSpaceOffsets, saved.value.Keys);
        && r.Ok? && |current| == |order| && (forall o :: o in order ==> o in saved.value)
        && config.log == old(config.log) + RestoreLog(order, current, saved.value)
    {
      current := [];
      if saved.None? {
        return Err(AttributeError(NoSaved)), [];
      }
      var m := saved.value;
      if |m| == 0 {
        return Err(AssertionError("")), [];
      }
      current := RestoreSaved(GpuCfgSpaceOffsets, m);
      r := Ok(());
    }

    /** The loop of `_restore_cfg_space`: the offsets of `offsets` saved in `m`, in order. */
    method RestoreSaved(offsets: seq<nat>, m: map<nat, nat>) returns (ghost current: seq<nat>)
      requires forall o :: o in m ==> m[o] < 0x1_0000_0000
      modifies config
      ensures var order := Among(offsets, m.Keys);
        && |current| == |order| && (forall o :: o in order ==> o in m)
        && config.log == old(config.log) + RestoreLog(order, current, m)
    {
      current := [];
      var i := 0;
      ghost var order: seq<nat> := [];
      while i < |offsets|
        invariant i <= |offsets|
        invariant order == Among(offsets[..i], m.Keys)
        invariant |current| == |order| && forall o :: o in order ==> o in m
        invariant config.log == old(config.log) + RestoreLog(order, current, m)
      {
        var offset := offsets[i];
        assert offsets[..i + 1] == offsets[..i] + [offset];
        if offset in m {
          var now := RestoreOne(offset, m[offset]);
          RestoreLogStep(order, current, m, offset, now);
          AppendAssoc(old(config.log), RestoreLog(order, current, m), [CfgRead(offset, 4, now), CfgWrite(offset, 4, m[offset])]);
          order := order + [offset];
          current := current + [now];
        }
        i := i + 1;
      }
      assert offsets[..i] == offsets;
    }

    /** One turn of `_restore_cfg_space`: read the register, then write the saved value. */
    method RestoreOne(offset: nat, value: u32) returns (now: nat)
      modifies config
      ensures config.log == old(config.log) + [CfgRead(offset, 4, now), CfgWrite(offset, 4, value)]
    {
      now := config.Read32(offset);
      config.Write32(offset, value);
    }
  }

  /** The five identification reads at the head of `PciDevice.__init__`. */
  method ReadIds(config: ConfigSpace) returns (vendor: nat, device: nat, svid: nat, ssid: nat, headerType: nat)
    modifies config
    ensures config.log == old(config.log) + [CfgRead(0, 2, vendor), CfgRead(2, 2, device), CfgRead(0x2c, 2, svid),
                                             CfgRead(0x2e, 2, ssid), CfgRead(0xe, 1, headerType)]
  {
    vendor := config.Read(0, 2);
    device := config.Read(2, 2);
    svid := config.Read(0x2c, 2);
    ssid := config.Read(0x2e, 2);
    headerType := config.Read(0xe, 1);
  }

  /** `PciDevice.__init__`: reads the ids and the header type, then the
      capabilities, then the BARs — from the sysfs resource lines when
      sysfs is available, else by probing config space. */
  method OpenPciDevice(config: ConfigSpace, resources: Option<seq<string>>, fuel: nat)
    returns (r: Result<PciDevice>)
    modifies config
    ensures r.Ok? ==> fresh(r.value) && r.value.config == config
    ensures r.Ok? ==> |config.log| >= |old(config.log)| + 5
    ensures r.Ok? ==>
      (config.log[|old(config.log)|..|old(config.log)| + 5] ==
       [CfgRead(0, 2, r.value.vendor), CfgRead(2, 2, r.value.device), CfgRead(0x2c, 2, r.value.svid),
        CfgRead(0x2e, 2, r.value.ssid), CfgRead(0xe, 1, r.value.headerType)])
    ensures resources.None? ==> r.Ok?
    ensures resources.Some? ==> (r.Ok? <==> SysfsBars(resources.value, if |resources.value| < 6 then |resources.value| else 6).Ok?)
  {
    var vendor, device, svid, ssid, headerType := ReadIds(config);
    ghost var log5 := config.log;
    var d := new PciDevice(config, vendor, device, svid, ssid, headerType);
    var _, _, _, _, _ := d.InitCaps(fuel);
    if resources.Some? {
      var b := d.InitBarsSysfs(resources.value);
      if b.Err? {
        return Err(b.error);
      }
    } else {
      var _ := d.InitBarsConfigSpace();
    }
    assert log5 <= config.log;
    assert config.log[..|log5|] == log5;
    r := Ok(d);
  }
}
