/**
 * NVLink: the link-state decode of `nvlink_get_link_state`
 * (nvidia_gpu_tools.py) and the NVLink units of gpu/units: which unit a
 * device gets (nvlink_auto.py), the Ampere register block and blocked
 * check (nvlink_ampere.py), the link-state filters of Laguna and Hopper
 * (nvlink_hopper.py), Blackwell's MSE-state filter (nvlink_blackwell.py)
 * and the blocking self-test every unit shares (nvlink.py).
 */
module Nvlink {
  import opened Bits
  import opened Text
  import opened GpuErrors
  import opened Devices

  // ---------------------------------------------------------------------
  // nvlink_get_link_state

  /** The device's `nvlink` layout: where group 0 starts, the distance
      between groups and the links in a group. */
  datatype Layout = Layout(baseOffset: nat, perGroupOffset: nat, linksPerGroup: nat)

  /** `_nvlink_link_offset(link, reg)` */
  function LinkOffset(l: Layout, link: nat, reg: nat): nat
    requires l.linksPerGroup > 0
  {
    l.baseOffset + (link / l.linksPerGroup) * l.perGroupOffset + 0x10000 + (link % l.linksPerGroup) * 0x8000 + reg
  }

  /** `_nvlink_nvlipt_lnk_offset(link, 0x484)`, the link-state register. */
  function StateOffset(l: Layout, link: nat): nat
    requires l.linksPerGroup > 0
  {
    LinkOffset(l, link, 0) + 0x7000 + 0x484
  }

  /** The name of a state nibble: one of the eight known states, else the number. */
  function StateName(state: nat): string
  {
    if state == 0x1 then "active"
    else if state == 0x2 then "l2"
    else if state == 0x5 then "active_pending"
    else if state == 0x8 then "empty"
    else if state == 0x9 then "reset"
    else if state == 0xd then "shutdown"
    else if state == 0xe then "contain"
    else if state == 0xf then "disable"
    else Dec(state)
  }

  /** `nvlink_get_link_state` on the value `data` read: "badf" for a failed
      read, else the name of the low nibble. */
  function LinkStateName(data: u32): string
  {
    if IsBadf(data) then "badf" else StateName(And(data, 0xf))
  }

  /** The state a name stands for: the inverse of `StateName`. */
  function StateOf(name: string): Option<nat>
  {
    if name == "active" then Some(0x1)
    else if name == "l2" then Some(0x2)
    else if name == "active_pending" then Some(0x5)
    else if name == "empty" then Some(0x8)
    else if name == "reset" then Some(0x9)
    else if name == "shutdown" then Some(0xd)
    else if name == "contain" then Some(0xe)
    else if name == "disable" then Some(0xf)
    else match ParseInt(name)
      case Some(v) => if v >= 0 then Some(v as nat) else None
      case None => None
  }

  /** A state's name gives the state back: a number's decimal text never
      spells one of the eight names. */
  lemma StateNameRoundTrip(state: nat)
    ensures StateOf(StateName(state)) == Some(state)
    ensures StateName(state) != "badf"
  {
    if !(state == 0x1 || state == 0x2 || state == 0x5 || state == 0x8 || state == 0x9 || state == 0xd || state == 0xe || state == 0xf) {
      ParseDec(state);
      DecLeadsWithDigit(state);
    }
  }

  /** A decimal text starts with a digit, never with a letter. */
  lemma {:induction false} DecLeadsWithDigit(n: nat)
    ensures '0' <= Dec(n)[0] <= '9'
    decreases n
  {
    if n >= 10 {
      DivSmaller(n, 10);
      DecLeadsWithDigit(n / 10);
      assert Dec(n) == Dec(n / 10) + [HexChars[n % 10]];
    }
  }

  /** "badf" is exactly a failed read and "disable" exactly state 0xf; two
      good reads name the same state exactly when their low nibbles agree. */
  lemma LinkStateMeans(data: u32, other: u32)
    ensures LinkStateName(data) == "badf" <==> IsBadf(data)
    ensures LinkStateName(data) == "disable" <==> !IsBadf(data) && And(data, 0xf) == 0xf
    ensures !IsBadf(data) && !IsBadf(other) ==>
      (LinkStateName(data) == LinkStateName(other) <==> And(data, 0xf) == And(other, 0xf))
  {
    StateNameRoundTrip(And(data, 0xf));
    StateNameRoundTrip(And(other, 0xf));
    StateNameRoundTrip(0xf);
  }

  /** `nvlink_get_link_state(link)`: reads the state register with
      `read_bad_ok`. */
  method GetLinkState(dev: Device, layout: Layout, link: nat) returns (s: string)
    requires layout.linksPerGroup > 0
    modifies dev
    ensures s == LinkStateName(old(dev.Next(StateOffset(layout, link))))
    ensures dev.log == old(dev.log) + [Rd(StateOffset(layout, link), old(dev.Next(StateOffset(layout, link))))]
  {
    var data := dev.ReadBadOk(StateOffset(layout, link));
    s := LinkStateName(data);
  }

  // ---------------------------------------------------------------------
  // nvlink_auto.py: which unit a device gets

  datatype UnitKind = LagunaNvlink | BlackwellNvlink | HopperNvlink | AmpereNvlink

  /** What the selection looks at. */
  datatype Chip = Chip(nvswitch: bool, lagunaPlus: bool, blackwellPlus: bool, hopperPlus: bool, name: string)

  /** `is_ampere_100` */
  predicate IsAmpere100(c: Chip)
  {
    c.name == "A100" || c.name == "A30"
  }

  /** `NvlinkAuto.create_instance` */
  function SelectUnit(c: Chip): Option<UnitKind>
  {
    if c.nvswitch then (if c.lagunaPlus then Some(LagunaNvlink) else None)
    else if c.blackwellPlus then Some(BlackwellNvlink)
    else if c.hopperPlus then Some(HopperNvlink)
    else if IsAmpere100(c) then Some(AmpereNvlink)
    else None
  }

  /** Each unit is chosen exactly under its own condition: switches get
      Laguna or nothing, and among GPUs Blackwell wins over Hopper, which
      wins over the A100/A30 check. */
  lemma SelectUnitMeans(c: Chip)
    ensures SelectUnit(c) == Some(LagunaNvlink) <==> c.nvswitch && c.lagunaPlus
    ensures SelectUnit(c) == Some(BlackwellNvlink) <==> !c.nvswitch && c.blackwellPlus
    ensures SelectUnit(c) == Some(HopperNvlink) <==> !c.nvswitch && !c.blackwellPlus && c.hopperPlus
    ensures SelectUnit(c) == Some(AmpereNvlink) <==>
      !c.nvswitch && !c.blackwellPlus && !c.hopperPlus && IsAmpere100(c)
    ensures SelectUnit(c).None? <==>
      if c.nvswitch then !c.lagunaPlus else !c.blackwellPlus && !c.hopperPlus && !IsAmpere100(c)
  {
  }

  /** `does_flr_reenable_links`: only Ampere's links stay blocked across an FLR. */
  predicate DoesFlrReenableLinks(k: UnitKind)
  {
    k != AmpereNvlink
  }

  /** `is_reset_needed_after_blocking`: the base class says yes, Ampere no. */
  predicate IsResetNeededAfterBlocking(k: UnitKind)
  {
    k != AmpereNvlink
  }

  /** `num_nvlinks`: 12 on Ampere, 64 on Laguna, six per IOCTRL instance
      (device-info type 18) on Hopper, one per present link on Blackwell. */
  function NumNvlinks(k: UnitKind, ioctrl: seq<nat>, present: seq<nat>): nat
  {
    match k
    case AmpereNvlink => AmpereLinks
    case LagunaNvlink => 64
    case HopperNvlink => |ioctrl| * 6
    case BlackwellNvlink => |present|
  }

  /** The Laguna unit's register layout: 4 links per group, group `g` at
      0x1000000 + 0x100000 * g. */
  const LagunaLayout: Layout := Layout(0x1000000, 0x100000, 4)

  /** The Hopper unit's register layout: 6 links per group, group `g` at
      0xa00000 + 0x40000 * g. */
  const HopperLayout: Layout := Layout(0xa00000, 0x40000, 6)

  // ---------------------------------------------------------------------
  // Index filters

  /** The indices of `states` whose state satisfies `p`, in order. */
  function IndicesWhere(states: seq<string>, p: string -> bool): (r: seq<nat>)
    ensures |r| <= |states|
  {
    if states == [] then []
    else
      var n := |states| - 1;
      IndicesWhere(states[..n], p) + (if p(states[n]) then [n] else [])
  }

  predicate Ascending(xs: seq<nat>)
  {
    forall i, j :: 0 <= i < j < |xs| ==> xs[i] < xs[j]
  }

  /** The filter lists exactly the indices whose state satisfies `p`,
      each once, in ascending order. */
  lemma {:induction false} IndicesWhereMeans(states: seq<string>, p: string -> bool)
    ensures Ascending(IndicesWhere(states, p))
    ensures forall x: nat :: x in IndicesWhere(states, p) <==> x < |states| && p(states[x])
    ensures forall x :: x in IndicesWhere(states, p) ==> x < |states|
  {
    if states != [] {
      var n := |states| - 1;
      var init := states[..n];
      IndicesWhereMeans(init, p);
      var r := IndicesWhere(init, p);
      assert IndicesWhere(states, p) == r + (if p(states[n]) then [n] else []);
      forall i, j | 0 <= i < j < |IndicesWhere(states, p)|
        ensures IndicesWhere(states, p)[i] < IndicesWhere(states, p)[j]
      {
        if j >= |r| {
          assert r[i] in r;
        }
      }
      forall x: nat
        ensures x in IndicesWhere(states, p) <==> x < |states| && p(states[x])
      {
        if x < n {
          assert init[x] == states[x];
        }
      }
    }
  }

  /** Laguna's enabled links: neither "badf" nor "disable". */
  predicate EnabledState(s: string)
  {
    s != "badf" && s != "disable"
  }

  /** Laguna's blocked links: "disable". */
  predicate BlockedState(s: string)
  {
    s == "disable"
  }

  /** Blackwell's blocked links: the MSE port state "disabled". */
  predicate DisabledPort(s: string)
  {
    s == "disabled"
  }

  /** `state` is the state of link `l` named by the value read at position
      `at + per - 1` of `log`, a read of the link's state register; with
      `per == 2` the read before it is of the same register. */
  ghost predicate LinkRead(log: seq<Access>, at: nat, per: nat, layout: Layout, l: nat, state: string)
    requires layout.linksPerGroup > 0
  {
    && 1 <= per && at + per <= |log|
    && log[at + per - 1] == Rd(StateOffset(layout, l), log[at + per - 1].value)
    && state == LinkStateName(log[at + per - 1].value)
    && (per == 2 ==> log[at].Rd? && log[at].offset == StateOffset(layout, l))
  }

  /** `states[l]` is read by the `per` accesses from `from + per * l` of `log`. */
  ghost predicate StatesRead(log: seq<Access>, from: nat, per: nat, layout: Layout, states: seq<string>)
    requires layout.linksPerGroup > 0
  {
    && 1 <= per <= 2
    && from + per * |states| == |log|
    && forall l :: 0 <= l < |states| ==> LinkRead(log, from + per * l, per, layout, l, states[l])
  }

  // ---------------------------------------------------------------------
  // nvlink_ampere.py

  const AmpereLinks: nat := 12
  const BlockReg: nat := 0x64c
  const LockReg: nat := 0x650

  /** `_nvlink_offset(link, reg)`: four links per group, groups 0x40000
      apart from 0xa00000, link 0 of a group at 0x17000 and the links
      0x8000 apart. */
  function AmpereOffset(link: nat, reg: nat): nat
  {
    0xa00000 + 0x40000 * (link / 4) + 0x17000 + 0x8000 * (link % 4) + reg
  }

  /** The two registers of the twelve links are 24 distinct registers. */
  lemma AmpereOffsetsDistinct(l1: nat, r1: nat, l2: nat, r2: nat)
    requires l1 < AmpereLinks && l2 < AmpereLinks
    requires r1 == BlockReg || r1 == LockReg
    requires r2 == BlockReg || r2 == LockReg
    ensures AmpereOffset(l1, r1) == AmpereOffset(l2, r2) ==> l1 == l2 && r1 == r2
  {
  }

  /** `block_nvlink(link, lock)` on a link already checked to be in
      range: `write_verbose` of 1 to the block register and, when locking,
      to the lock register; the first failure raises. */
  function BlockLink(bar0: (seq<Access>, nat) -> u32, log: seq<Access>, link: nat, lock: bool): (Result<()>, seq<Access>)
  {
    var (r, log1) := VerboseWrite(bar0, log, AmpereOffset(link, BlockReg), 1);
    if r.Err? || !lock then (r, log1)
    else VerboseWrite(bar0, log1, AmpereOffset(link, LockReg), 1)
  }

  /** `block_nvlinks(links)`: each link in turn, locked; a link outside
      0..11 fails the `assert`. */
  function BlockLinks(bar0: (seq<Access>, nat) -> u32, log: seq<Access>, links: seq<int>): (Result<bool>, seq<Access>)
  {
    if links == [] then (Ok(true), log)
    else
      var (r, log1) := BlockLinks(bar0, log, links[..|links| - 1]);
      var link := links[|links| - 1];
      if r.Err? then (r, log1)
      else if !(0 <= link < AmpereLinks) then (Err(AssertionError("")), log1)
      else
        var (b, log2) := BlockLink(bar0, log1, link, true);
        (if b.Err? then Err(b.error) else Ok(true), log2)
  }

  /** One more link of `block_nvlinks` after the first `i` succeeded. */
  lemma BlockLinksNext(bar0: (seq<Access>, nat) -> u32, log: seq<Access>, links: seq<int>, i: nat)
    requires i < |links| && BlockLinks(bar0, log, links[..i]).0 == Ok(true)
    ensures var log1 := BlockLinks(bar0, log, links[..i]).1;
      BlockLinks(bar0, log, links[..i + 1]) ==
        if !(0 <= links[i] < AmpereLinks) then (Err(AssertionError("")), log1)
        else
          var (b, log2) := BlockLink(bar0, log1, links[i], true);
          (if b.Err? then Err(b.error) else Ok(true), log2)
  {
    assert links[..i + 1][..i] == links[..i];
  }

  /** Once `block_nvlinks` has raised, the later links change nothing. */
  lemma {:induction false} BlockLinksErrStays(bar0: (seq<Access>, nat) -> u32, log: seq<Access>, links: seq<int>, k: nat)
    requires k <= |links| && BlockLinks(bar0, log, links[..k]).0.Err?
    ensures BlockLinks(bar0, log, links) == BlockLinks(bar0, log, links[..k])
    decreases |links| - k
  {
    if k < |links| {
      var n := |links| - 1;
      assert links[..n][..k] == links[..k];
      BlockLinksErrStays(bar0, log, links[..n], k);
    } else {
      assert links[..k] == links;
    }
  }

  /** `is_nvlink_blocked(link)`: both registers read exactly 1; the lock
      register is read only when the block register reads 1.  A bad read
      raises. */
  function ReadBlocked(bar0: (seq<Access>, nat) -> u32, log: seq<Access>, link: nat): (Result<bool>, seq<Access>)
  {
    var o1 := AmpereOffset(link, BlockReg);
    var v1 := bar0(log, o1);
    var log1 := log + [Rd(o1, v1)];
    if IsBadf(v1) then (Err(CheckedRead(o1, v1).error), log1)
    else if v1 != 1 then (Ok(false), log1)
    else
      var o2 := AmpereOffset(link, LockReg);
      var v2 := bar0(log1, o2);
      var log2 := log1 + [Rd(o2, v2)];
      if IsBadf(v2) then (Err(CheckedRead(o2, v2).error), log2)
      else (Ok(v2 == 1), log2)
  }

  /** `get_blocked_nvlinks()` over links `0 .. n - 1`. */
  function BlockedLinks(bar0: (seq<Access>, nat) -> u32, log: seq<Access>, n: nat): (Result<seq<nat>>, seq<Access>)
  {
    if n == 0 then (Ok([]), log)
    else
      var (r, log1) := BlockedLinks(bar0, log, n - 1);
      if r.Err? then (r, log1)
      else
        var (b, log2) := ReadBlocked(bar0, log1, n - 1);
        if b.Err? then (Err(b.error), log2)
        else (Ok(r.value + (if b.value then [n - 1] else [])), log2)
  }

  /** One more link of `get_blocked_nvlinks` after the first `k` were read. */
  lemma BlockedLinksNext(bar0: (seq<Access>, nat) -> u32, log: seq<Access>, k: nat, blocked: seq<nat>)
    requires BlockedLinks(bar0, log, k).0 == Ok(blocked)
    ensures BlockedLinks(bar0, log, k + 1).1 == ReadBlocked(bar0, BlockedLinks(bar0, log, k).1, k).1
    ensures var b := ReadBlocked(bar0, BlockedLinks(bar0, log, k).1, k).0;
      BlockedLinks(bar0, log, k + 1).0 == if b.Err? then Err(b.error) else Ok(blocked + (if b.value then [k] else []))
  {
  }

  /** Once `get_blocked_nvlinks` has raised, the later links change nothing. */
  lemma {:induction false} BlockedLinksErrStays(bar0: (seq<Access>, nat) -> u32, log: seq<Access>, k: nat, n: nat)
    requires k <= n && BlockedLinks(bar0, log, k).0.Err?
    ensures BlockedLinks(bar0, log, n) == BlockedLinks(bar0, log, k)
    decreases n - k
  {
    if k < n {
      BlockedLinksErrStays(bar0, log, k, n - 1);
    }
  }

  /** A register file that behaves as memory: every register reads the
      value last written to it, 0 if nothing was.  `LastWritten` is such a
      `bar0`, and the lemmas below run the unit's operations on it. */
  predicate Blocked(log: seq<Access>, link: nat)
  {
    LastWritten(log, AmpereOffset(link, BlockReg)) == 1 && LastWritten(log, AmpereOffset(link, LockReg)) == 1
  }

  /** No bad value was ever written. */
  predicate Clean(log: seq<Access>)
  {
    forall i :: 0 <= i < |log| && log[i].Wr? ==> !IsBadf(log[i].value)
  }

  /** Every write of `ext` writes 1. */
  predicate WritesOne(ext: seq<Access>)
  {
    forall i :: 0 <= i < |ext| && ext[i].Wr? ==> ext[i].value == 1
  }

  /** `ext` holds reads only. */
  predicate OnlyReads(ext: seq<Access>)
  {
    Writes(ext) == []
  }

  lemma OneNotBadf()
    ensures !IsBadf(1) && !IsBadf(0)
  {
    BadfRange(1);
    BadfRange(0);
  }

  /** A read leaves every register's last written value alone; a write sets its own. */
  lemma LastWrittenStep(log: seq<Access>, a: Access, o: nat)
    ensures LastWritten(log + [a], o) ==
      if a.Wr? && a.offset == o then a.value else LastWritten(log, o)
  {
    WrittenUpToPrefix(log, [a], |log|, o);
  }

  /** On a memory, a value last written is good when nothing bad was written. */
  lemma {:induction false} CleanReads(log: seq<Access>, o: nat)
    requires Clean(log)
    ensures !IsBadf(LastWritten(log, o))
  {
    CleanUpTo(log, |log|, o);
  }

  lemma {:induction false} CleanUpTo(log: seq<Access>, k: nat, o: nat)
    requires Clean(log) && k <= |log|
    ensures !IsBadf(WrittenUpTo(log, k, o))
  {
    if k == 0 {
      OneNotBadf();
    } else if !(log[k - 1].Wr? && log[k - 1].offset == o) {
      CleanUpTo(log, k - 1, o);
    }
  }

  /** Writing only 1s keeps a clean log clean. */
  lemma CleanAppend(log: seq<Access>, ext: seq<Access>)
    requires Clean(log) && WritesOne(ext)
    ensures Clean(log + ext)
  {
    OneNotBadf();
    forall i | 0 <= i < |log + ext| && (log + ext)[i].Wr?
      ensures !IsBadf((log + ext)[i].value)
    {
      if i >= |log| {
        assert (log + ext)[i] == ext[i - |log|];
      }
    }
  }

  /** Reads leave every register's last written value alone. */
  lemma {:induction false} ReadsKeep(log: seq<Access>, ext: seq<Access>, o: nat)
    requires OnlyReads(ext)
    ensures LastWritten(log + ext, o) == LastWritten(log, o)
    decreases |ext|
  {
    if ext != [] {
      var n := |ext| - 1;
      var pre := log + ext[..n];
      assert log + ext == pre + [ext[n]];
      assert ext[n].Rd? && OnlyReads(ext[..n]);
      LastWrittenStep(pre, ext[n], o);
      ReadsKeep(log, ext[..n], o);
    } else {
      assert log + ext == log;
    }
  }

  /** A register last written with 1 keeps reading 1 while only 1 is written. */
  lemma {:induction false} StaysOne(log: seq<Access>, ext: seq<Access>, o: nat)
    requires LastWritten(log, o) == 1 && WritesOne(ext)
    ensures LastWritten(log + ext, o) == 1
    decreases |ext|
  {
    if ext != [] {
      var n := |ext| - 1;
      var pre := log + ext[..n];
      assert log + ext == pre + [ext[n]];
      assert WritesOne(ext[..n]) by {
        forall i | 0 <= i < n && ext[..n][i].Wr?
          ensures ext[..n][i].value == 1
        {
          assert ext[..n][i] == ext[i];
        }
      }
      LastWrittenStep(pre, ext[n], o);
      StaysOne(log, ext[..n], o);
    } else {
      assert log + ext == log;
    }
  }

  /** What `write_verbose(o, 1)` appends when both its reads are good. */
  function VerboseExt(o: nat, before: u32): seq<Access>
  {
    [Rd(o, before), Wr(o, 1), Rd(o, 1)]
  }

  /** After `VerboseExt(o, _)`, `o` holds 1 and every other register is unchanged. */
  lemma LastWrittenVerbose(log: seq<Access>, o: nat, before: u32, q: nat)
    ensures LastWritten(log + VerboseExt(o, before), q) == if q == o then 1 else LastWritten(log, q)
  {
    var l1 := log + [Rd(o, before)];
    var l2 := l1 + [Wr(o, 1)];
    assert log + VerboseExt(o, before) == l2 + [Rd(o, 1)];
    LastWrittenStep(log, Rd(o, before), q);
    LastWrittenStep(l1, Wr(o, 1), q);
    LastWrittenStep(l2, Rd(o, 1), q);
  }

  /** On a memory with nothing bad written, `write_verbose(o, 1)` succeeds:
      the read before it sees the value last written and the read after it 1. */
  lemma VerboseWriteOnMemory(log: seq<Access>, o: nat)
    requires Clean(log)
    ensures VerboseWrite(LastWritten, log, o, 1) == (Ok(()), log + VerboseExt(o, LastWritten(log, o)))
  {
    OneNotBadf();
    CleanReads(log, o);
    var l1 := log + [Rd(o, LastWritten(log, o))];
    LastWrittenStep(log, Rd(o, LastWritten(log, o)), o);
    LastWrittenStep(l1, Wr(o, 1), o);
    assert l1 + [Wr(o, 1)] + [Rd(o, 1)] == log + VerboseExt(o, LastWritten(log, o));
  }

  /** `out` is `log` followed by accesses that write only 1s. */
  predicate OnesAfter(log: seq<Access>, out: seq<Access>)
  {
    log <= out && WritesOne(out[|log|..])
  }

  /** Writes of 1 after writes of 1 write only 1s; they keep a clean log
      clean and a register holding 1 holding 1. */
  lemma OnesAfterMeans(log: seq<Access>, mid: seq<Access>, out: seq<Access>, o: nat)
    requires OnesAfter(log, mid) && OnesAfter(mid, out)
    ensures OnesAfter(log, out)
    ensures Clean(mid) ==> Clean(out)
    ensures LastWritten(mid, o) == 1 ==> LastWritten(out, o) == 1
  {
    var e1 := mid[|log|..];
    var e2 := out[|mid|..];
    assert mid == log + e1;
    assert out == mid + e2;
    assert out[|log|..] == e1 + e2;
    forall i | 0 <= i < |e1 + e2|
      ensures (e1 + e2)[i] == if i < |e1| then e1[i] else e2[i - |e1|]
    {
    }
    if Clean(mid) {
      CleanAppend(mid, e2);
    }
    if LastWritten(mid, o) == 1 {
      StaysOne(mid, e2, o);
    }
  }

  /** On a memory with nothing bad written, blocking one link succeeds,
      writes only 1s, keeps the log clean, leaves both registers of the link
      reading 1 and every other register as it was. */
  lemma BlockLinkOnMemory(log: seq<Access>, link: nat, q: nat)
    requires Clean(log)
    ensures var (r, out) := BlockLink(LastWritten, log, link, true);
      && r.Ok? && OnesAfter(log, out) && Clean(out)
      && Blocked(out, link)
      && (q != AmpereOffset(link, BlockReg) && q != AmpereOffset(link, LockReg) ==> LastWritten(out, q) == LastWritten(log, q))
  {
    var o1 := AmpereOffset(link, BlockReg);
    var o2 := AmpereOffset(link, LockReg);
    VerboseWriteOnMemory(log, o1);
    var e1 := VerboseExt(o1, LastWritten(log, o1));
    var log1 := log + e1;
    assert WritesOne(e1);
    CleanAppend(log, e1);
    VerboseWriteOnMemory(log1, o2);
    var e2 := VerboseExt(o2, LastWritten(log1, o2));
    var out := log1 + e2;
    assert WritesOne(e2);
    CleanAppend(log1, e2);
    assert log1[|log|..] == e1 && out[|log1|..] == e2;
    OnesAfterMeans(log, log1, out, o1);
    LastWrittenVerbose(log, o1, LastWritten(log, o1), o1);
    LastWrittenVerbose(log1, o2, LastWritten(log1, o2), o2);
    LastWrittenVerbose(log, o1, LastWritten(log, o1), q);
    LastWrittenVerbose(log1, o2, LastWritten(log1, o2), q);
  }

  /** On a memory with nothing bad written, `block_nvlinks(links)` with
      every link in range succeeds, and afterwards every link in `links`
      has both registers reading 1: each one reports blocked. */
  lemma {:induction false} BlockLinksOnMemory(log: seq<Access>, links: seq<int>)
    requires Clean(log)
    requires forall i :: 0 <= i < |links| ==> 0 <= links[i] < AmpereLinks
    ensures var (r, out) := BlockLinks(LastWritten, log, links);
      && r == Ok(true) && OnesAfter(log, out) && Clean(out)
      && forall i :: 0 <= i < |links| ==> Blocked(out, links[i])
  {
    if links != [] {
      var n := |links| - 1;
      BlockLinksOnMemory(log, links[..n]);
      BlockLinksNext(LastWritten, log, links, n);
      assert links[..n + 1] == links;
      var log1 := BlockLinks(LastWritten, log, links[..n]).1;
      BlockLinkOnMemory(log1, links[n], 0);
      var out := BlockLink(LastWritten, log1, links[n], true).1;
      OnesAfterMeans(log, log1, out, 0);
      assert BlockLinks(LastWritten, log, links).1 == out;
      forall i | 0 <= i < |links|
        ensures Blocked(out, links[i])
      {
        if i < n {
          assert links[..n][i] == links[i];
          assert Blocked(log1, links[i]);
          OnesAfterMeans(log, log1, out, AmpereOffset(links[i], BlockReg));
          OnesAfterMeans(log, log1, out, AmpereOffset(links[i], LockReg));
          assert LastWritten(out, AmpereOffset(links[i], BlockReg)) == 1;
          assert LastWritten(out, AmpereOffset(links[i], LockReg)) == 1;
        } else {
          assert i == n;
          assert Blocked(out, links[n]);
        }
      }
    }
  }

  /** Reads keep a clean log clean. */
  lemma {:induction false} CleanAfterReads(log: seq<Access>, ext: seq<Access>)
    requires Clean(log) && OnlyReads(ext)
    ensures Clean(log + ext)
    decreases |ext|
  {
    if ext != [] {
      var n := |ext| - 1;
      assert ext[n].Rd? && OnlyReads(ext[..n]);
      CleanAfterReads(log, ext[..n]);
      var pre := log + ext[..n];
      assert log + ext == pre + [ext[n]];
      forall i | 0 <= i < |pre| + 1 && (pre + [ext[n]])[i].Wr?
        ensures !IsBadf((pre + [ext[n]])[i].value)
      {
        assert i < |pre| && (pre + [ext[n]])[i] == pre[i];
      }
    } else {
      assert log + ext == log;
    }
  }

  /** On a memory with nothing bad written, `is_nvlink_blocked` reports
      exactly whether both registers were last written with 1, and only reads. */
  lemma ReadBlockedOnMemory(log: seq<Access>, link: nat)
    requires Clean(log)
    ensures var (r, out) := ReadBlocked(LastWritten, log, link);
      && r.Ok? && log < out && OnlyReads(out[|log|..])
      && (r.value <==> Blocked(log, link))
  {
    var o1 := AmpereOffset(link, BlockReg);
    var o2 := AmpereOffset(link, LockReg);
    CleanReads(log, o1);
    CleanReads(log, o2);
    var log1 := log + [Rd(o1, LastWritten(log, o1))];
    LastWrittenStep(log, Rd(o1, LastWritten(log, o1)), o2);
    var out := ReadBlocked(LastWritten, log, link).1;
    assert out == log1 || out == log1 + [Rd(o2, LastWritten(log, o2))];
  }

  /** `r` lists, in ascending order, exactly the links below `n` whose two
      registers were last written with 1. */
  predicate ListsBlocked(r: seq<nat>, n: nat, log: seq<Access>)
  {
    && Ascending(r) && (forall x :: x in r ==> x < n)
    && forall x: nat :: x < n ==> (x in r <==> Blocked(log, x))
  }

  /** The links below `n` whose two registers were last written with 1, in order. */
  function BlockedBelow(log: seq<Access>, n: nat): seq<nat>
  {
    if n == 0 then [] else BlockedBelow(log, n - 1) + (if Blocked(log, n - 1) then [n - 1] else [])
  }

  /** `BlockedBelow` lists, in ascending order, exactly the blocked links below `n`. */
  lemma {:induction false} BlockedBelowMeans(log: seq<Access>, n: nat)
    ensures ListsBlocked(BlockedBelow(log, n), n, log)
  {
    if n > 0 {
      BlockedBelowMeans(log, n - 1);
      ListsBlockedNext(BlockedBelow(log, n - 1), n, log, Blocked(log, n - 1));
    }
  }

  /** Appending link `n - 1` exactly when it is blocked extends the list
      from `n - 1` links to `n`. */
  lemma ListsBlockedNext(r1: seq<nat>, n: nat, log: seq<Access>, b: bool)
    requires n > 0 && ListsBlocked(r1, n - 1, log) && (b <==> Blocked(log, n - 1))
    ensures ListsBlocked(r1 + (if b then [n - 1] else []), n, log)
  {
    var r := r1 + (if b then [n - 1] else []);
    forall i, j | 0 <= i < j < |r|
      ensures r[i] < r[j]
    {
      if j >= |r1| {
        assert r1[i] in r1;
      }
    }
  }

  /** `out` is `log` followed by reads only. */
  predicate ReadsAfter(log: seq<Access>, out: seq<Access>)
  {
    log <= out && OnlyReads(out[|log|..])
  }

  /** Reads after reads are reads; they keep a clean log clean and leave
      every register's last written value alone. */
  lemma ReadsAfterMeans(log: seq<Access>, mid: seq<Access>, out: seq<Access>, o: nat)
    requires ReadsAfter(log, mid) && ReadsAfter(mid, out)
    ensures ReadsAfter(log, out)
    ensures Clean(log) ==> Clean(mid)
    ensures LastWritten(mid, o) == LastWritten(log, o)
  {
    var e1 := mid[|log|..];
    assert mid == log + e1;
    WritesSplit(log, mid, out);
    if Clean(log) {
      CleanAfterReads(log, e1);
    }
    ReadsKeep(log, e1, o);
  }

  /** On a memory with nothing bad written, `get_blocked_nvlinks()` after
      `block_nvlinks(links)` succeeds and names every link of `links`. */
  lemma BlockThenQuery(log: seq<Access>, links: seq<int>)
    requires Clean(log)
    requires forall i :: 0 <= i < |links| ==> 0 <= links[i] < AmpereLinks
    ensures var (r, out) := BlockLinks(LastWritten, log, links);
      var q := BlockedLinks(LastWritten, out, AmpereLinks).0;
      && r == Ok(true) && q.Ok? && Ascending(q.value)
      && forall i :: 0 <= i < |links| ==> links[i] in q.value
  {
    BlockLinksOnMemory(log, links);
    var out := BlockLinks(LastWritten, log, links).1;
    BlockedLinksOnMemory(out, AmpereLinks);
    BlockedBelowMeans(out, AmpereLinks);
    forall i | 0 <= i < |links|
      ensures links[i] in BlockedBelow(out, AmpereLinks)
    {
      assert Blocked(out, links[i]);
    }
  }

  /** On a memory with nothing bad written, `get_blocked_nvlinks` over
      `0 .. n - 1` only reads and lists exactly the blocked links, in order. */
  lemma {:induction false} BlockedLinksOnMemory(log: seq<Access>, n: nat)
    requires Clean(log)
    ensures BlockedLinks(LastWritten, log, n).0 == Ok(BlockedBelow(log, n))
    ensures ReadsAfter(log, BlockedLinks(LastWritten, log, n).1)
  {
    if n > 0 {
      BlockedLinksOnMemory(log, n - 1);
      var log1 := BlockedLinks(LastWritten, log, n - 1).1;
      BlockedStep(log, log1, n);
      BlockedLinksNext(LastWritten, log, n - 1, BlockedBelow(log, n - 1));
    }
  }

  /** Reading link `n - 1` after reads only: it succeeds, only reads and
      reports whether the link is blocked. */
  lemma BlockedStep(log: seq<Access>, log1: seq<Access>, n: nat)
    requires n > 0 && Clean(log) && ReadsAfter(log, log1)
    ensures var (b, out) := ReadBlocked(LastWritten, log1, n - 1);
      b.Ok? && (b.value <==> Blocked(log, n - 1)) && ReadsAfter(log, out)
  {
    assert log1[|log1|..] == [];
    ReadsAfterMeans(log, log1, log1, AmpereOffset(n - 1, BlockReg));
    ReadsAfterMeans(log, log1, log1, AmpereOffset(n - 1, LockReg));
    ReadBlockedOnMemory(log1, n - 1);
    var out := ReadBlocked(LastWritten, log1, n - 1).1;
    ReadsAfterMeans(log, log1, out, 0);
  }

  /** The Ampere unit. */
  class AmpereUnit {
    const dev: Device

    constructor(dev: Device)
      ensures this.dev == dev
    {
      this.dev := dev;
    }

    /** `block_nvlink(link, lock)` */
    method BlockNvlink(link: int, lock: bool) returns (r: Result<()>)
      modifies dev
      ensures !(0 <= link < AmpereLinks) ==> r == Err(AssertionError("")) && dev.log == old(dev.log)
      ensures 0 <= link < AmpereLinks ==> (r, dev.log) == BlockLink(dev.bar0, old(dev.log), link, lock)
    {
      if !(0 <= link < AmpereLinks) {
        return Err(AssertionError(""));
      }
      r := dev.WriteVerbose(AmpereOffset(link, BlockReg), 1);
      if r.Err? || !lock {
        return;
      }
      r := dev.WriteVerbose(AmpereOffset(link, LockReg), 1);
    }

    /** `block_nvlinks(nvlinks)` */
    method BlockNvlinks(links: seq<int>) returns (r: Result<bool>)
      modifies dev
      ensures (r, dev.log) == BlockLinks(dev.bar0, old(dev.log), links)
    {
      var i := 0;
      while i < |links|
        invariant 0 <= i <= |links|
        invariant (Ok(true), dev.log) == BlockLinks(dev.bar0, old(dev.log), links[..i])
      {
        BlockLinksNext(dev.bar0, old(dev.log), links, i);
        var b := BlockNvlink(links[i], true);
        if b.Err? {
          r := Err(b.error);
          BlockLinksErrStays(dev.bar0, old(dev.log), links, i + 1);
          return;
        }
        i := i + 1;
      }
      assert links[..i] == links;
      r := Ok(true);
    }

    /** `is_nvlink_blocked(link)` */
    method IsNvlinkBlocked(link: nat) returns (r: Result<bool>)
      modifies dev
      ensures (r, dev.log) == ReadBlocked(dev.bar0, old(dev.log), link)
    {
      var v1 := dev.Read(AmpereOffset(link, BlockReg));
      BadfRange(old(dev.Next(AmpereOffset(link, BlockReg))));
      if v1.Err? {
        return Err(v1.error);
      }
      if v1.value != 1 {
        return Ok(false);
      }
      var v2 := dev.Read(AmpereOffset(link, LockReg));
      if v2.Err? {
        return Err(v2.error);
      }
      r := Ok(v2.value == 1);
    }

    /** `get_blocked_nvlinks()` */
    method GetBlockedNvlinks() returns (r: Result<seq<nat>>)
      modifies dev
      ensures (r, dev.log) == BlockedLinks(dev.bar0, old(dev.log), AmpereLinks)
    {
      var blocked: seq<nat> := [];
      var link: nat := 0;
      while link < AmpereLinks
        invariant 0 <= link <= AmpereLinks
        invariant (Ok(blocked), dev.log) == BlockedLinks(dev.bar0, old(dev.log), link)
      {
        BlockedLinksNext(dev.bar0, old(dev.log), link, blocked);
        var b := IsNvlinkBlocked(link);
        if b.Err? {
          BlockedLinksErrStays(dev.bar0, old(dev.log), link + 1, AmpereLinks);
          return Err(b.error);
        }
        if b.value {
          blocked := blocked + [link];
        } else {
          assert blocked + [] == blocked;
        }
        link := link + 1;
      }
      r := Ok(blocked);
    }

    /** `get_enabled_nvlinks()`: every link. */
    function EnabledNvlinks(): (r: seq<nat>)
      ensures |r| == AmpereLinks && forall i :: 0 <= i < |r| ==> r[i] == i
    {
      seq(AmpereLinks, i => i)
    }
  }

  // ---------------------------------------------------------------------
  // nvlink_hopper.py

  /** Laguna's and Hopper's enabled and blocked lists, read through the
      device's link-state register. */
  class LagunaUnit {
    const dev: Device
    /** The device's `nvlink` register layout. */
    const layout: Layout
    /** `num_nvlinks` */
    const numNvlinks: nat

    constructor(dev: Device, layout: Layout, numNvlinks: nat)
      ensures this.dev == dev && this.layout == layout && this.numNvlinks == numNvlinks
    {
      this.dev := dev;
      this.layout := layout;
      this.numNvlinks := numNvlinks;
    }

    /** `get_enabled_nvlinks()`: the state is read twice per link and the
        second read decides. */
    method GetEnabledNvlinks() returns (r: seq<nat>, ghost states: seq<string>)
      requires layout.linksPerGroup > 0
      modifies dev
      ensures |states| == numNvlinks && old(dev.log) <= dev.log
      ensures StatesRead(dev.log, |old(dev.log)|, 2, layout, states)
      ensures r == IndicesWhere(states, EnabledState)
    {
      r := [];
      states := [];
      var link: nat := 0;
      while link < numNvlinks
        invariant 0 <= link <= numNvlinks && |states| == link
        invariant old(dev.log) <= dev.log
        invariant StatesRead(dev.log, |old(dev.log)|, 2, layout, states)
        invariant r == IndicesWhere(states, EnabledState)
      {
        ghost var log0 := dev.log;
        var linkState := GetLinkState(dev, layout, link);
        linkState := GetLinkState(dev, layout, link);
        if EnabledState(linkState) {
          r := r + [link];
        }
        assert (states + [linkState])[..link] == states;
        StatesReadNext(log0, dev.log, |old(dev.log)|, 2, layout, states, linkState);
        states := states + [linkState];
        link := link + 1;
      }
    }

    /** `get_blocked_nvlinks()` */
    method GetBlockedNvlinks() returns (r: seq<nat>, ghost states: seq<string>)
      requires layout.linksPerGroup > 0
      modifies dev
      ensures |states| == numNvlinks && old(dev.log) <= dev.log
      ensures StatesRead(dev.log, |old(dev.log)|, 1, layout, states)
      ensures r == IndicesWhere(states, BlockedState)
    {
      r := [];
      states := [];
      var link: nat := 0;
      while link < numNvlinks
        invariant 0 <= link <= numNvlinks && |states| == link
        invariant old(dev.log) <= dev.log
        invariant StatesRead(dev.log, |old(dev.log)|, 1, layout, states)
        invariant r == IndicesWhere(states, BlockedState)
      {
        ghost var log0 := dev.log;
        var blocked, linkState := IsNvlinkBlocked(link);
        if blocked {
          r := r + [link];
        }
        assert (states + [linkState])[..link] == states;
        StatesReadNext(log0, dev.log, |old(dev.log)|, 1, layout, states, linkState);
        states := states + [linkState];
        link := link + 1;
      }
    }

    /** `is_nvlink_blocked(link)`: the link's state is "disable". */
    method IsNvlinkBlocked(link: nat) returns (blocked: bool, ghost state: string)
      requires layout.linksPerGroup > 0
      modifies dev
      ensures state == LinkStateName(old(dev.Next(StateOffset(layout, link))))
      ensures dev.log == old(dev.log) + [Rd(StateOffset(layout, link), old(dev.Next(StateOffset(layout, link))))]
      ensures blocked <==> BlockedState(state)
    {
      var s := GetLinkState(dev, layout, link);
      state := s;
      blocked := s == "disable";
    }
  }

  /** One more link's reads extend what was read. */
  lemma StatesReadNext(log0: seq<Access>, log1: seq<Access>, from: nat, per: nat, layout: Layout, states: seq<string>, s: string)
    requires layout.linksPerGroup > 0
    requires StatesRead(log0, from, per, layout, states)
    requires |log1| == |log0| + per && log0 <= log1
    requires log1[|log1| - 1] == Rd(StateOffset(layout, |states|), log1[|log1| - 1].value)
    requires s == LinkStateName(log1[|log1| - 1].value)
    requires per == 2 ==> log1[|log0|].Rd? && log1[|log0|].offset == StateOffset(layout, |states|)
    ensures StatesRead(log1, from, per, layout, states + [s])
  {
    var ss := states + [s];
    forall l | 0 <= l < |ss|
      ensures LinkRead(log1, from + per * l, per, layout, l, ss[l])
    {
      var at := from + per * l;
      if l < |states| {
        assert LinkRead(log0, at, per, layout, l, states[l]);
        LinkBefore(from, per, l, |states|);
        assert log1[at + per - 1] == log0[at + per - 1] && log1[at] == log0[at];
      } else {
        assert at == |log0| && at + per == |log1|;
      }
    }
  }

  /** The reads of an earlier link end before those of a later one begin. */
  lemma LinkBefore(from: nat, per: nat, l: nat, n: nat)
    requires l < n
    ensures from + per * l + per <= from + per * n
  {
    assert per * l + per == per * (l + 1);
    assert per * (l + 1) <= per * n by {
      assert per * n == per * (l + 1) + per * (n - l - 1);
    }
  }

  // ---------------------------------------------------------------------
  // nvlink_blackwell.py

  /** `get_blocked_nvlinks()` on the port states the MSE reported: the
      indices below `num_nvlinks` whose state is "disabled".  A list
      shorter than `num_nvlinks` raises `IndexError`. */
  method BlackwellBlocked(linkStates: seq<string>, numNvlinks: nat) returns (r: Result<seq<nat>>)
    ensures r.Err? <==> numNvlinks > |linkStates|
    ensures r.Err? ==> r.error == IndexError("list index out of range")
    ensures r.Ok? ==> r.value == IndicesWhere(linkStates[..numNvlinks], DisabledPort)
  {
    var blocked: seq<nat> := [];
    var link := 0;
    while link < numNvlinks
      invariant 0 <= link <= numNvlinks && link <= |linkStates|
      invariant blocked == IndicesWhere(linkStates[..link], DisabledPort)
    {
      if link >= |linkStates| {
        return Err(IndexError("list index out of range"));
      }
      if linkStates[link] == "disabled" {
        blocked := blocked + [link];
      }
      assert linkStates[..link + 1][..link] == linkStates[..link];
      link := link + 1;
    }
    r := Ok(blocked);
  }

  /** Blackwell's blocked list names, in ascending order, exactly the
      links below `num_nvlinks` whose port is "disabled". */
  lemma BlackwellBlockedMeans(linkStates: seq<string>, numNvlinks: nat, x: nat)
    requires numNvlinks <= |linkStates|
    ensures Ascending(IndicesWhere(linkStates[..numNvlinks], DisabledPort))
    ensures x in IndicesWhere(linkStates[..numNvlinks], DisabledPort) <==> x < numNvlinks && linkStates[x] == "disabled"
  {
    IndicesWhereMeans(linkStates[..numNvlinks], DisabledPort);
  }

  // ---------------------------------------------------------------------
  // nvlink.py: test_nvlink_blocking

  /** What the self-test asks of the device and the unit, in order. */
  datatype Action = Block(links: seq<nat>) | ResetWithOs | ResetWithSbr | WaitForBoot | QueryBlocked

  /** The unit under test: its kind, `num_nvlinks` and enabled links. */
  datatype Unit = Unit(kind: UnitKind, numNvlinks: nat, enabled: seq<nat>)

  /** The steps before the first query: block, then an OS reset and a boot
      wait when the unit asks for a reset or an FLR would re-enable the links. */
  function BlockSteps(u: Unit): seq<Action>
  {
    [Block(u.enabled)] +
    (if IsResetNeededAfterBlocking(u.kind) || !DoesFlrReenableLinks(u.kind) then [ResetWithOs, WaitForBoot] else [])
  }

  /** The steps of the unblocking reset: an OS reset (FLR) when it
      re-enables links, else a secondary-bus reset; then a boot wait. */
  function UnblockSteps(u: Unit): seq<Action>
  {
    [if DoesFlrReenableLinks(u.kind) then ResetWithOs else ResetWithSbr, WaitForBoot]
  }

  /** The links of a list, as the set the self-test builds. */
  function Elems(s: seq<nat>): set<nat>
  {
    set l | l in s
  }

  lemma ElemsSubset(a: seq<nat>, b: seq<nat>)
    ensures Elems(a) <= Elems(b) <==> forall l :: l in a ==> l in b
  {
    if forall l :: l in a ==> l in b {
      forall l | l in Elems(a)
        ensures l in Elems(b)
      {
      }
    } else {
      var l :| l in a && l !in b;
      assert l in Elems(a) && l !in Elems(b);
    }
  }

  lemma ElemsDisjoint(a: seq<nat>, b: seq<nat>)
    ensures Elems(a) * Elems(b) == {} <==> forall l :: l in a ==> l !in b
  {
    if !(forall l :: l in a ==> l !in b) {
      var l :| l in a && l in b;
      assert l in Elems(a) * Elems(b);
    }
  }

  /** `test_nvlink_blocking()` after `actions`, where `blocked(acts)` is
      what `get_blocked_nvlinks()` returns after the actions `acts`. */
  function TestBlocking(u: Unit, blocked: seq<Action> -> seq<nat>, actions: seq<Action>): (bool, seq<Action>)
  {
    if u.numNvlinks == 0 then (true, actions)
    else
      var a1 := actions + BlockSteps(u);
      var first := blocked(a1);
      var a2 := a1 + [QueryBlocked];
      if !(Elems(u.enabled) <= Elems(first)) then (false, a2)
      else
        var a3 := a2 + UnblockSteps(u);
        var second := blocked(a3);
        (Elems(second) * Elems(u.enabled) == {}, a3 + [QueryBlocked])
  }

  /** The test passes exactly when the unit has no links, or blocking left
      every enabled link blocked and the unblocking reset left none of them
      blocked.  It always blocks first, queries after each reset and boot
      wait, and never uses a secondary-bus reset on a unit whose links an
      FLR re-enables. */
  lemma TestBlockingMeans(u: Unit, blocked: seq<Action> -> seq<nat>, actions: seq<Action>)
    ensures var (ok, out) := TestBlocking(u, blocked, actions);
      var a1 := actions + BlockSteps(u);
      var a3 := a1 + [QueryBlocked] + UnblockSteps(u);
      && actions <= out
      && (u.numNvlinks == 0 ==> ok && out == actions)
      && (u.numNvlinks > 0 ==>
          && out[|actions|] == Block(u.enabled)
          && out[|out| - 1] == QueryBlocked
          && (ok <==> (forall l :: l in u.enabled ==> l in blocked(a1)) && (forall l :: l in u.enabled ==> l !in blocked(a3))))
      && (DoesFlrReenableLinks(u.kind) ==> ResetWithSbr !in out[|actions|..])
  {
    if u.numNvlinks > 0 {
      var a1 := actions + BlockSteps(u);
      ElemsSubset(u.enabled, blocked(a1));
      ElemsDisjoint(blocked(a1 + [QueryBlocked] + UnblockSteps(u)), u.enabled);
    }
  }

  /** A device and unit running the self-test. */
  class BlockingTest {
    const unit: Unit
    /** What `get_blocked_nvlinks()` returns after the given actions. */
    const blocked: seq<Action> -> seq<nat>
    /** Every action taken so far. */
    var actions: seq<Action>

    constructor(unit: Unit, blocked: seq<Action> -> seq<nat>)
      ensures this.unit == unit && this.blocked == blocked && actions == []
    {
      this.unit := unit;
      this.blocked := blocked;
      actions := [];
    }

    method Do(a: Action)
      modifies this
      ensures actions == old(actions) + [a]
    {
      actions := actions + [a];
    }

    method GetBlocked() returns (r: seq<nat>)
      modifies this
      ensures r == blocked(old(actions)) && actions == old(actions) + [QueryBlocked]
    {
      r := blocked(actions);
      actions := actions + [QueryBlocked];
    }

    /** `test_nvlink_blocking()` */
    method TestNvlinkBlocking() returns (ok: bool)
      modifies this
      ensures (ok, actions) == TestBlocking(unit, blocked, old(actions))
    {
      if unit.numNvlinks == 0 {
        return true;
      }
      var linksToBlock := unit.enabled;
      Do(Block(linksToBlock));
      if IsResetNeededAfterBlocking(unit.kind) || !DoesFlrReenableLinks(unit.kind) {
        Do(ResetWithOs);
        Do(WaitForBoot);
      }
      assert actions == old(actions) + BlockSteps(unit);
      var blockedLinks := GetBlocked();
      var want := Elems(linksToBlock);
      if !(want <= Elems(blockedLinks)) {
        return false;
      }
      if DoesFlrReenableLinks(unit.kind) {
        Do(ResetWithOs);
      } else {
        Do(ResetWithSbr);
      }
      Do(WaitForBoot);
      assert actions == old(actions) + BlockSteps(unit) + [QueryBlocked] + UnblockSteps(unit);
      blockedLinks := GetBlocked();
      ok := Elems(blockedLinks) * want == {};
    }
  }
}
