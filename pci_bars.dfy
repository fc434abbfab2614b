/**
 * The base address registers of a PCI function (pci/device.py): probing a
 * BAR's size by writing all ones and reading back (section 6.2.5.1 of the
 * PCI Local Bus Specification 3.0), the scan of the BAR slots in config
 * space, the lines of the sysfs `resource` file, and the numbering of the
 * sysfs `resourceN` files, which skip a number after each 64-bit BAR.
 *
 * A BAR is the tuple `(addr, size, is_64bit)` the source appends to
 * `self.bars`.
 */
module PciBars {
  import opened Bits
  import opened Text
  import opened GpuErrors
  import opened ConfigSpaces

  datatype Bar = Bar(addr: nat, size: int, is64: bool)

  /** The config-space offset of BAR slot `num`: `0x10 + num * 4`. */
  function BarOffset(num: nat): nat
  {
    0x10 + num * 4
  }

  /** `bar_reg & 0x1 == 0`: a memory BAR rather than an I/O one. */
  predicate IsMmio(reg: nat)
  {
    And(reg, 1) == 0
  }

  /** `(bar_reg >> 1) & 0x3 == 0x2`: a 64-bit memory BAR. */
  predicate Is64(reg: nat)
  {
    And(Shr(reg, 1), 3) == 2
  }

  /** How many slots the scan moves on after reading `reg`. */
  function SlotStep(reg: nat): nat
  {
    if IsMmio(reg) && Is64(reg) then 2 else 1
  }

  /** `max_bars`: six slots in a type 0 header, two in a bridge's. */
  function MaxBars(headerType: nat): nat
  {
    if headerType == 0 then 6 else 2
  }

  // ---------------------------------------------------------------------
  // Sizing

  /** The accesses of `_bar_reg_mask(offset, high)`: read the register,
      write all ones, read it back, write the first value back. */
  function ProbeLog(offset: nat, org: nat, raw: nat): seq<CfgAccess>
  {
    [CfgRead(offset, 4, org), CfgWrite(offset, 4, 0xffff_ffff), CfgRead(offset, 4, raw), CfgWrite(offset, 4, org)]
  }

  /** The value `_bar_reg_mask` returns for the read-back `raw`: the low
      dword of a BAR has its four flag bits cleared. */
  function ProbeMask(raw: nat, high: bool): nat
  {
    if high then raw else AndNot(raw, 0xf)
  }

  /** `_bar_size_32`: `(~mask & (2**32 - 1)) + 1` */
  function Size32(mask: nat): nat
  {
    AndNot(LowMask(32), mask) + 1
  }

  /** `_bar_size_64`: `(~mask & (2**64 - 1)) + 1` */
  function Size64(mask: nat): nat
  {
    AndNot(LowMask(64), mask) + 1
  }

  /** Complementing within `n` bits a mask that fits them subtracts it. */
  lemma ComplementIs(n: nat, mask: nat)
    requires mask < Pow2(n)
    ensures AndNot(LowMask(n), mask) + 1 == Pow2(n) - mask
  {
    var all := LowMask(n);
    var p := Pow2(n);
    AndNotPlusAnd(all, mask);
    AndComm(all, mask);
    AndLowMask(mask, n);
    assert mask % p == mask by {
      DivUnique(mask, p, 0, mask);
    }
  }

  /** A 32-bit size is `2**32` minus the mask, so between 1 and `2**32`. */
  lemma Size32Is(mask: nat)
    requires mask < 0x1_0000_0000
    ensures Size32(mask) == 0x1_0000_0000 - mask
  {
    Pow2Of32();
    ComplementIs(32, mask);
  }

  /** The 64-bit mask is the low mask plus the high one times `2**32`, and
      the size is `2**64` minus it. */
  lemma Size64Is(lowRaw: nat, highRaw: nat)
    requires lowRaw < 0x1_0000_0000 && highRaw < 0x1_0000_0000
    ensures Or(ProbeMask(lowRaw, false), Shl(ProbeMask(highRaw, true), 32)) ==
      ProbeMask(lowRaw, false) + highRaw * 0x1_0000_0000
    ensures Size64(Or(ProbeMask(lowRaw, false), Shl(ProbeMask(highRaw, true), 32))) ==
      0x1_0000_0000_0000_0000 - (ProbeMask(lowRaw, false) + highRaw * 0x1_0000_0000)
  {
    Pow2Of32();
    Pow2Of64();
    AndNotBelow(lowRaw, 0xf, 32);
    AndShlDisjoint(ProbeMask(lowRaw, false), highRaw, 32);
    var mask := ProbeMask(lowRaw, false) + highRaw * 0x1_0000_0000;
    assert mask < 0x1_0000_0000_0000_0000 by {
      MulBelow(0x1_0000_0000, highRaw, 0x1_0000_0000);
    }
    ComplementIs(64, mask);
  }

  /** A memory BAR decoding `2**k` bytes (`4 <= k <= 32`) reads back all ones
      above bit `k`, zeros below it and its flags in the low four bits; the
      probe then gives exactly `2**k`. */
  lemma ProbedSize32(k: nat, flags: nat)
    requires 4 <= k <= 32 && flags < 16
    ensures Size32(ProbeMask(Shl(LowMask(32 - k), k) + flags, false)) == Pow2(k)
  {
    var hi := Shl(LowMask(32 - k), k);
    ClearFlags(k, flags);
    Pow2Add(32 - k, k);
    MulPred(Pow2(32 - k), Pow2(k));
    assert hi == Pow2(32) - Pow2(k);
    Pow2Monotone(k, 32);
    ComplementIs(32, hi);
  }

  lemma MulPred(a: nat, b: nat)
    requires a >= 1
    ensures (a - 1) * b == a * b - b
  {
  }

  /** Clearing the four flag bits of a value whose bits from `k >= 4` up are
      `hi` leaves `hi`. */
  lemma ClearFlags(k: nat, flags: nat)
    requires 4 <= k <= 32 && flags < 16
    ensures AndNot(Shl(LowMask(32 - k), k) + flags, 0xf) == Shl(LowMask(32 - k), k)
  {
    var hi := Shl(LowMask(32 - k), k);
    Pow2Monotone(4, k);
    assert Pow2(4) == 16 && LowMask(4) == 0xf by {
      Pow2Values();
    }
    AndShlDisjoint(flags, LowMask(32 - k), k);
    var raw := hi + flags;
    forall i: nat
      ensures Bit(AndNot(raw, 0xf), i) == Bit(hi, i)
    {
      BitAndNot(raw, 0xf, i);
      BitOr(flags, hi, i);
      BitLowMask(4, i);
      BitShl(LowMask(32 - k), k, i);
      if i >= 4 {
        BitAbove(flags, 4, i);
      }
      BitRange(hi, i);
    }
    BitsEqual(AndNot(raw, 0xf), hi);
  }

  // ---------------------------------------------------------------------
  // The scan of the BAR slots

  /** What the scan read at one slot: the register, and for a memory BAR the
      high dword (64-bit only) and the two reads of each probe. */
  datatype Slot = Slot(num: nat, reg: nat, hi: nat, lowOrg: nat, lowRaw: nat, highOrg: nat, highRaw: nat)

  /** The accesses the scan makes at one slot. */
  function SlotLog(s: Slot): seq<CfgAccess>
  {
    var o := BarOffset(s.num);
    [CfgRead(o, 4, s.reg)] +
    (if !IsMmio(s.reg) then []
     else if Is64(s.reg) then [CfgRead(o + 4, 4, s.hi)] + ProbeLog(o, s.lowOrg, s.lowRaw) + ProbeLog(o + 4, s.highOrg, s.highRaw)
     else ProbeLog(o, s.lowOrg, s.lowRaw))
  }

  /** `log` followed by the accesses at slot `s`, appended one by one. */
  function AfterSlot(log: seq<CfgAccess>, s: Slot): seq<CfgAccess>
  {
    var o := BarOffset(s.num);
    if !IsMmio(s.reg) then log + [CfgRead(o, 4, s.reg)]
    else if Is64(s.reg) then log + [CfgRead(o, 4, s.reg)] + [CfgRead(o + 4, 4, s.hi)] + ProbeLog(o, s.lowOrg, s.lowRaw) + ProbeLog(o + 4, s.highOrg, s.highRaw)
    else log + [CfgRead(o, 4, s.reg)] + ProbeLog(o, s.lowOrg, s.lowRaw)
  }

  lemma AfterSlotIs(log: seq<CfgAccess>, s: Slot)
    ensures AfterSlot(log, s) == log + SlotLog(s)
  {
  }

  /** The BAR a memory slot describes. */
  function SlotBar(s: Slot): Bar
  {
    var low := AndNot(s.reg, 0xf);
    if Is64(s.reg) then
      Bar(Or(low, Shl(s.hi, 32)), Size64(Or(ProbeMask(s.lowRaw, false), Shl(ProbeMask(s.highRaw, true), 32))), true)
    else
      Bar(low, Size32(ProbeMask(s.lowRaw, false)), false)
  }

  /** Whether the slot adds a BAR: a memory BAR at a non-zero address. */
  predicate AddsBar(s: Slot)
  {
    IsMmio(s.reg) && SlotBar(s).addr != 0
  }

  /** The accesses and the BAR of an I/O slot, a 64-bit and a 32-bit memory slot. */
  lemma SlotIo(s: Slot)
    requires !IsMmio(s.reg)
    ensures SlotLog(s) == [CfgRead(BarOffset(s.num), 4, s.reg)] && !AddsBar(s) && SlotStep(s.reg) == 1
  {
  }

  lemma Slot64(s: Slot)
    requires IsMmio(s.reg) && Is64(s.reg)
    ensures var o := BarOffset(s.num);
      SlotLog(s) == [CfgRead(o, 4, s.reg)] + ([CfgRead(o + 4, 4, s.hi)] + ProbeLog(o, s.lowOrg, s.lowRaw) + ProbeLog(o + 4, s.highOrg, s.highRaw))
    ensures SlotBar(s) == Bar(Or(AndNot(s.reg, 0xf), Shl(s.hi, 32)), Size64(Or(ProbeMask(s.lowRaw, false), Shl(ProbeMask(s.highRaw, true), 32))), true)
    ensures SlotStep(s.reg) == 2 && (AddsBar(s) <==> SlotBar(s).addr != 0)
  {
  }

  lemma Slot32(s: Slot)
    requires IsMmio(s.reg) && !Is64(s.reg)
    ensures SlotLog(s) == [CfgRead(BarOffset(s.num), 4, s.reg)] + ProbeLog(BarOffset(s.num), s.lowOrg, s.lowRaw)
    ensures SlotBar(s) == Bar(AndNot(s.reg, 0xf), Size32(ProbeMask(s.lowRaw, false)), false)
    ensures SlotStep(s.reg) == 1 && (AddsBar(s) <==> SlotBar(s).addr != 0)
  {
  }

  /** `self.bars` after the scan of `slots`. */
  function BarsOf(slots: seq<Slot>): seq<Bar>
  {
    if |slots| == 0 then []
    else
      var s := slots[|slots| - 1];
      BarsOf(slots[..|slots| - 1]) + (if AddsBar(s) then [SlotBar(s)] else [])
  }

  function SlotsLog(slots: seq<Slot>): seq<CfgAccess>
  {
    if |slots| == 0 then []
    else SlotsLog(slots[..|slots| - 1]) + SlotLog(slots[|slots| - 1])
  }

  /** The slot the scan reads next. */
  function NextSlot(slots: seq<Slot>): nat
  {
    if |slots| == 0 then 0 else slots[|slots| - 1].num + SlotStep(slots[|slots| - 1].reg)
  }

  /** A scan of `max` slots: it starts at slot 0, each slot read is the one
      the previous moves on to, every slot read is below `max`, and every
      value read is a dword. */
  predicate SlotChain(slots: seq<Slot>, max: nat)
    decreases |slots|
  {
    if |slots| == 0 then true
    else
      var s := slots[|slots| - 1];
      && SlotChain(slots[..|slots| - 1], max)
      && s.num == NextSlot(slots[..|slots| - 1]) && s.num < max
      && s.reg < 0x1_0000_0000 && s.hi < 0x1_0000_0000
      && s.lowRaw < 0x1_0000_0000 && s.highRaw < 0x1_0000_0000
  }

  /** Spelled out, a scan starts at slot 0 and each slot read is the one the
      previous moves on to. */
  lemma {:induction false} SlotChainIs(slots: seq<Slot>, max: nat)
    requires SlotChain(slots, max)
    ensures |slots| > 0 ==> slots[0].num == 0
    ensures forall k :: 0 <= k < |slots| - 1 ==> slots[k + 1].num == slots[k].num + SlotStep(slots[k].reg)
    ensures forall k :: 0 <= k < |slots| ==> slots[k].num < max && slots[k].reg < 0x1_0000_0000
  {
    if |slots| > 0 {
      var init := slots[..|slots| - 1];
      SlotChainIs(init, max);
      assert forall k :: 0 <= k < |init| ==> slots[k] == init[k];
    }
  }

  lemma SlotsStep(slots: seq<Slot>, s: Slot)
    ensures BarsOf(slots + [s]) == BarsOf(slots) + (if AddsBar(s) then [SlotBar(s)] else [])
    ensures SlotsLog(slots + [s]) == SlotsLog(slots) + SlotLog(s)
    ensures NextSlot(slots + [s]) == s.num + SlotStep(s.reg)
  {
    assert (slots + [s])[..|slots|] == slots;
  }

  /** Extending a scan by the slot it reads next keeps it a scan. */
  lemma SlotChainStep(slots: seq<Slot>, s: Slot, max: nat)
    requires SlotChain(slots, max) && s.num == NextSlot(slots) && s.num < max
    requires s.reg < 0x1_0000_0000 && s.hi < 0x1_0000_0000
    requires s.lowRaw < 0x1_0000_0000 && s.highRaw < 0x1_0000_0000
    ensures SlotChain(slots + [s], max)
  {
    assert (slots + [s])[..|slots|] == slots;
  }

  /** The `k`-th slot read is at least slot `k`. */
  lemma {:induction false} SlotsAdvance(slots: seq<Slot>, max: nat, k: nat)
    requires SlotChain(slots, max) && k < |slots|
    ensures slots[k].num >= k
    decreases |slots|
  {
    var init := slots[..|slots| - 1];
    if k < |slots| - 1 {
      SlotsAdvance(init, max, k);
    } else if k > 0 {
      SlotsAdvance(init, max, k - 1);
    }
  }

  /** A scan of `max` slots reads at most `max` slots and finds at most as many BARs. */
  lemma {:induction false} BarsAtMost(slots: seq<Slot>, max: nat)
    requires SlotChain(slots, max)
    ensures |BarsOf(slots)| <= |slots| <= max
  {
    if |slots| > 0 {
      SlotsAdvance(slots, max, |slots| - 1);
      BarsCount(slots);
    }
  }

  lemma {:induction false} BarsCount(slots: seq<Slot>)
    ensures |BarsOf(slots)| <= |slots|
  {
    if |slots| > 0 {
      BarsCount(slots[..|slots| - 1]);
    }
  }

  /** A BAR found by the scan has a non-zero address with its low four bits
      clear; a 32-bit one lies below `2**32`, and its size is `2**32` minus
      the probed mask. */
  lemma SlotBarShape(s: Slot)
    requires AddsBar(s)
    requires s.reg < 0x1_0000_0000 && s.lowRaw < 0x1_0000_0000
    ensures SlotBar(s).addr != 0 && And(SlotBar(s).addr, 0xf) == 0
    ensures SlotBar(s).is64 == Is64(s.reg)
    ensures !Is64(s.reg) ==> SlotBar(s).addr < 0x1_0000_0000
    ensures !Is64(s.reg) ==> SlotBar(s).size == 0x1_0000_0000 - ProbeMask(s.lowRaw, false)
  {
    var b := SlotBar(s);
    var low := AndNot(s.reg, 0xf);
    Pow2Values();
    assert LowMask(4) == 0xf;
    forall i: nat
      ensures Bit(And(b.addr, 0xf), i) == Bit(0, i)
    {
      BitAnd(b.addr, 0xf, i);
      BitLowMask(4, i);
      BitOfZero(i);
      BitAndNot(s.reg, 0xf, i);
      if Is64(s.reg) {
        BitOr(low, Shl(s.hi, 32), i);
        BitShl(s.hi, 32, i);
      }
    }
    BitsEqual(And(b.addr, 0xf), 0);
    if !Is64(s.reg) {
      Pow2Of32();
      AndNotBelow(s.reg, 0xf, 32);
      AndNotBelow(s.lowRaw, 0xf, 32);
      Size32Is(ProbeMask(s.lowRaw, false));
    }
  }

  /** Every BAR the scan reports comes from a memory slot at a non-zero
      address, and is that slot's BAR. */
  lemma {:induction false} BarsFromSlots(slots: seq<Slot>, b: Bar)
    requires b in BarsOf(slots)
    ensures exists k :: 0 <= k < |slots| && AddsBar(slots[k]) && SlotBar(slots[k]) == b
  {
    if |slots| > 0 {
      var init := slots[..|slots| - 1];
      var s := slots[|slots| - 1];
      if b in BarsOf(init) {
        BarsFromSlots(init, b);
        var k :| 0 <= k < |init| && AddsBar(init[k]) && SlotBar(init[k]) == b;
        assert slots[k] == init[k];
      } else {
        assert AddsBar(s) && b == SlotBar(s);
      }
    }
  }

  // ---------------------------------------------------------------------
  // The sysfs resource file

  /** `int(s, base=16)`: surrounding blanks are ignored. */
  function HexInt(s: string): Result<nat>
  {
    match ParseHex(Strip(s))
    case Some(n) => Ok(n)
    case None => Err(ValueError("invalid literal for int() with base 16: '" + s + "'"))
  }

  /** `parts[i]` */
  function PartAt(parts: seq<string>, i: nat): Result<string>
  {
    if i < |parts| then Ok(parts[i]) else Err(IndexError("list index out of range"))
  }

  /** One line `start end flags` of the resource file: the BAR it adds, if any.
      An I/O region (flags bit 0) and an unassigned one (start 0) add none. */
  function ResourceBar(line: string): (r: Result<seq<Bar>>)
    ensures r.Ok? ==> r.value == [] || (|r.value| == 1 && r.value[0].addr != 0)
  {
    ResourceOfParts(Split(line, ' '))
  }

  /** The BAR the fields of a resource line add. */
  function ResourceOfParts(parts: seq<string>): (r: Result<seq<Bar>>)
    requires |parts| >= 1
    ensures r.Ok? ==> r.value == [] || (|r.value| == 1 && r.value[0].addr != 0)
  {
    var addr :- HexInt(parts[0]);
    var e :- PartAt(parts, 1);
    var end :- HexInt(e);
    var f :- PartAt(parts, 2);
    var flags :- HexInt(f);
    if And(flags, 1) != 0 then Ok([])
    else if addr != 0 then Ok([Bar(addr, end - addr + 1, And(Shr(flags, 1), 3) == 2)])
    else Ok([])
  }

  /** `self.bars` from the first `n` resource lines, or the first error among them. */
  function SysfsBars(lines: seq<string>, n: nat): Result<seq<Bar>>
    requires n <= |lines|
  {
    if n == 0 then Ok([])
    else
      var init :- SysfsBars(lines, n - 1);
      var more :- ResourceBar(lines[n - 1]);
      Ok(init + more)
  }

  lemma SysfsBarsNext(lines: seq<string>, i: nat, bs: seq<Bar>)
    requires i < |lines| && SysfsBars(lines, i) == Ok(bs)
    ensures ResourceBar(lines[i]).Ok? ==> SysfsBars(lines, i + 1) == Ok(bs + ResourceBar(lines[i]).value)
    ensures ResourceBar(lines[i]).Err? ==> SysfsBars(lines, i + 1) == Err(ResourceBar(lines[i]).error)
  {
    var m := ResourceBar(lines[i]);
    assert lines[(i + 1) - 1] == lines[i];
    assert SysfsBars(lines, i + 1) == (var more :- m; Ok(bs + more));
  }

  /** The first line that fails decides the error of the whole parse. */
  lemma {:induction false} SysfsBarsErrSticks(lines: seq<string>, i: nat, n: nat)
    requires i <= n <= |lines| && SysfsBars(lines, i).Err?
    ensures SysfsBars(lines, n) == SysfsBars(lines, i)
    decreases n - i
  {
    if i < n {
      SysfsBarsErrSticks(lines, i, n - 1);
    }
  }

  /** The line the kernel writes for a region, in `hex()` form. */
  function ResourceLine(start: nat, end: nat, flags: nat): string
  {
    Hex(start) + [' '] + (Hex(end) + [' '] + (Hex(flags) + "\n"))
  }

  lemma HexPlain(n: nat)
    ensures ' ' !in Hex(n) && |Hex(n)| > 0 && !IsSpace(Hex(n)[0]) && !IsSpace(Hex(n)[|Hex(n)| - 1])
    ensures Strip(Hex(n)) == Hex(n) && Strip(Hex(n) + "\n") == Hex(n)
  {
    var s := Hex(n);
    var d := Digits(n, 16);
    DigitsValue(n, 16);
    assert s == "0x" + d;
    forall i | 0 <= i < |s|
      ensures s[i] != ' ' && !IsSpace(s[i])
    {
      if i >= 2 {
        assert s[i] == d[i - 2];
        assert 0 <= DigitValue(d[i - 2]);
      }
    }
    assert LStrip(s) == s;
    assert RStrip(s) == s;
    var t := s + "\n";
    assert t[..|t| - 1] == s;
    assert LStrip(t) == t;
    assert RStrip(t) == RStrip(s);
  }

  /** A line whose first three blank-separated fields are the hex numbers
      `start`, `end` and `flags` adds the BAR `(start, end - start + 1,
      bits 2:1 of flags == 2)`, unless it is an I/O region or at address 0. */
  lemma ResourceFields(parts: seq<string>, start: nat, end: nat, flags: nat)
    requires |parts| >= 3
    requires HexInt(parts[0]) == Ok(start) && HexInt(parts[1]) == Ok(end) && HexInt(parts[2]) == Ok(flags)
    ensures ResourceOfParts(parts) ==
      if And(flags, 1) != 0 || start == 0 then Ok([])
      else Ok([Bar(start, end - start + 1, And(Shr(flags, 1), 3) == 2)])
  {
  }

  /** Reading back a line written for a region gives its BAR. */
  lemma ResourceRoundTrip(start: nat, end: nat, flags: nat)
    ensures ResourceBar(ResourceLine(start, end, flags)) ==
      if And(flags, 1) != 0 || start == 0 then Ok([])
      else Ok([Bar(start, end - start + 1, And(Shr(flags, 1), 3) == 2)])
  {
    HexPlain(start);
    HexPlain(end);
    HexPlain(flags);
    ParseHexOfHex(start);
    ParseHexOfHex(end);
    ParseHexOfHex(flags);
    var line := ResourceLine(start, end, flags);
    SplitAt(Hex(start), Hex(end) + [' '] + (Hex(flags) + "\n"), ' ');
    SplitAt(Hex(end), Hex(flags) + "\n", ' ');
    SplitNoSep(Hex(flags) + "\n", ' ');
    var parts := Split(line, ' ');
    assert parts == [Hex(start), Hex(end), Hex(flags) + "\n"];
    ResourceFields(parts, start, end, flags);
  }

  /** A line whose start field is not a hex number fails the whole parse. */
  lemma BadStartFails(lines: seq<string>, i: nat)
    requires i < |lines| && SysfsBars(lines, i).Ok?
    requires ParseHex(Strip(Split(lines[i], ' ')[0])).None?
    ensures SysfsBars(lines, i + 1) == Err(ValueError("invalid literal for int() with base 16: '" + Split(lines[i], ' ')[0] + "'"))
  {
  }

  /** Every BAR read from sysfs is a memory region at a non-zero address,
      added by one line of the file. */
  lemma {:induction false} SysfsBarsFromLines(lines: seq<string>, n: nat, b: Bar)
    requires n <= |lines| && SysfsBars(lines, n).Ok? && b in SysfsBars(lines, n).value
    ensures b.addr != 0
    ensures exists i :: 0 <= i < n && ResourceBar(lines[i]) == Ok([b])
  {
    var init := SysfsBars(lines, n - 1);
    assert init.Ok? && ResourceBar(lines[n - 1]).Ok?;
    SysfsBarsNext(lines, n - 1, init.value);
    var v := ResourceBar(lines[n - 1]).value;
    if b in init.value {
      SysfsBarsFromLines(lines, n - 1, b);
    } else {
      InSecond(init.value, v, b);
    }
  }

  /** An element of the second part of a concatenation that is not in the
      first; a part of at most one element is that element alone. */
  lemma InSecond<T>(a: seq<T>, v: seq<T>, x: T)
    requires x in a + v && x !in a && |v| <= 1
    ensures x in v && v == [x]
  {
    assert x in v;
    assert v[0] == x;
  }

  // ---------------------------------------------------------------------
  // sysfs resource numbers

  /** The number of 64-bit BARs in `bars`. */
  function Count64(bars: seq<Bar>): nat
  {
    if |bars| == 0 then 0
    else Count64(bars[..|bars| - 1]) + (if bars[|bars| - 1].is64 then 1 else 0)
  }

  /** `_bar_num_to_sysfs_resource(barnum)`: `bars[b]` is looked at for every
      `b < barnum`, so a number past the list raises. */
  function SysfsResource(bars: seq<Bar>, barnum: nat): Result<nat>
  {
    if barnum > |bars| then Err(IndexError("list index out of range"))
    else Ok(barnum + Count64(bars[..barnum]))
  }

  /** The next BAR's resource number is one past this one's, two past after a 64-bit BAR. */
  lemma SysfsResourceStep(bars: seq<Bar>, b: nat)
    requires b < |bars|
    ensures SysfsResource(bars, b).Ok? && SysfsResource(bars, b + 1).Ok?
    ensures SysfsResource(bars, b + 1).value ==
      SysfsResource(bars, b).value + (if bars[b].is64 then 2 else 1)
  {
    assert bars[..b + 1][..b] == bars[..b];
  }

  lemma {:induction false} Count64Bound(bars: seq<Bar>)
    ensures Count64(bars) <= |bars|
  {
    if |bars| > 0 {
      Count64Bound(bars[..|bars| - 1]);
    }
  }

  /** A resource number lies between the BAR number and twice it, and
      distinct BARs get distinct numbers. */
  lemma SysfsResourceBounds(bars: seq<Bar>, b: nat, c: nat)
    requires b < c <= |bars|
    ensures SysfsResource(bars, b).Ok? && SysfsResource(bars, c).Ok?
    ensures b <= SysfsResource(bars, b).value <= 2 * b
    ensures SysfsResource(bars, b).value < SysfsResource(bars, c).value
  {
    Count64Bound(bars[..b]);
    Increasing(bars, b, c);
  }

  lemma {:induction false} Increasing(bars: seq<Bar>, b: nat, c: nat)
    requires b < c <= |bars|
    ensures SysfsResource(bars, b).value < SysfsResource(bars, c).value
    decreases c - b
  {
    SysfsResourceStep(bars, b);
    if b + 1 < c {
      Increasing(bars, b + 1, c);
    }
  }
}
