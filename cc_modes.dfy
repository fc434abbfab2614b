/**
 * The composite knob operations of nvidia_gpu_tools.py: `set_cc_mode`,
 * `set_ppcie_mode`, `set_bar0_firewall_mode`, `query_prc_knobs` and the
 * decode of the CC, PPCIe and BAR0-firewall mode registers.
 *
 * Each setter is a fixed list of `prc_knob_check_and_write` calls (a plan)
 * run in order until the first error.  Against the table firmware of
 * KnobModes the module proves what the knobs hold after each setter, and
 * that no table along the way has the CCD knob on while CCM is off, the
 * state the register decode reports as invalid.
 */
module CcModes {
  import opened Bits
  import opened Text
  import opened GpuErrors
  import opened FspRpcs
  import opened KnobModes
  import opened Devices
  import opened KnobSettings
  import Prc

  /** What a device says of itself to the operations below:
      `is_cc_query_supported`, `is_ppcie_query_supported`,
      `is_bar0_firewall_supported`, `is_hopper`, `is_blackwell_plus` and
      `is_gpu()` (false for an NVSwitch), `has_fsp`, `is_ampere_plus`,
      `is_blackwell`, and the address of
      `NV_THERM_I2CS_SCRATCH_FSP_BOOT_COMPLETE` in its register map
      (0x200bc on GH100). */
  datatype Caps = Caps(ccQuery: bool, ppcieQuery: bool, bar0Firewall: bool,
                       hopper: bool, blackwellPlus: bool, isGpu: bool, hasFsp: bool, ampere: bool,
                       blackwell: bool, bootReg: nat)

  // -----------------------------------------------------------------------
  // wait_for_boot

  /** The `poll_register("boot_complete", ...)` of `wait_for_boot`, or None
      where it polls nothing.  An NVSwitch polls 0x660bc for 0xff when it is
      LS10 or later, which is when it can query PPCIe; a GPU from Hopper on
      polls the FSP boot-complete scratch for 0xff (10 ticks from Blackwell
      on, reading with `read_bad_ok` on Blackwell itself), an older GPU
      polls 0x118234 for 0x3ff. */
  function BootPoll(caps: Caps): Option<PollParams>
  {
    if !caps.isGpu then
      if caps.ppcieQuery then Some(PollParams(Register, "boot_complete", 0x660bc, Some(0xff), 5, LowMask(32), false, None))
      else None
    else if caps.hopper || caps.blackwellPlus then
      Some(PollParams(Register, "boot_complete", caps.bootReg, Some(0xff), if caps.blackwellPlus then 10 else 5,
                      LowMask(32), caps.blackwell, None))
    else Some(PollParams(Register, "boot_complete", 0x118234, Some(0x3ff), 5, LowMask(32), false, None))
  }

  /** `count` dwords from `base` on. */
  function Dwords(base: nat, count: nat): (r: seq<nat>)
    ensures |r| == count && forall i :: 0 <= i < count ==> r[i] == base + 4 * i
  {
    seq(count, i => base + 4 * i)
  }

  /** The registers `NvSwitch.debug_dump` reads on LS10: boot status and
      flags, 16 software scratches and 4 FSP scratches. */
  function SwitchDumpOffsets(): seq<nat>
  {
    [0x660bc, 0x66120] + Dwords(0x284e0, 16) + Dwords(0x8f0320, 4)
  }

  /** `read(offset)` of each offset in turn, stopping at the first bad value. */
  function CheckedReads(bar0: (seq<Access>, nat) -> u32, log: seq<Access>, offsets: seq<nat>): (Result<()>, seq<Access>)
    decreases |offsets|
  {
    if |offsets| == 0 then (Ok(()), log)
    else
      var v := bar0(log, offsets[0]);
      var log1 := log + [Rd(offsets[0], v)];
      if IsBadf(v) then (Err(CheckedRead(offsets[0], v).error), log1)
      else CheckedReads(bar0, log1, offsets[1..])
  }

  /** `read_bad_ok(offset)` of each offset in turn. */
  function BadOkReads(bar0: (seq<Access>, nat) -> u32, log: seq<Access>, offsets: seq<nat>): seq<Access>
    decreases |offsets|
  {
    if |offsets| == 0 then log
    else BadOkReads(bar0, log + [Rd(offsets[0], bar0(log, offsets[0]))], offsets[1..])
  }

  /** `wait_for_boot()` after the accesses `log`: the boot poll, and its
      error path when it fails. */
  function BootWait(caps: Caps, bar0: (seq<Access>, nat) -> u32, log: seq<Access>): (Result<()>, seq<Access>)
  {
    match BootPoll(caps)
    case None => (Ok(()), log)
    case Some(p) =>
      var (r, log1) := Poll(p, bar0, log, 0);
      if r.Ok? then (r, log1) else BootFailed(caps, p.offset, bar0, log1, r.error)
  }

  /** The `except GpuError` of `wait_for_boot` after the poll of `offset`
      failed with `e`: a GPU from Hopper on reads the boot register and the
      four FSP scratches for its debug message, and an NVSwitch dumps its
      registers; then `e` is raised again, unless one of the GPU's debug
      reads raised first. */
  function BootFailed(caps: Caps, offset: nat, bar0: (seq<Access>, nat) -> u32, log: seq<Access>, e: Error)
    : (r: (Result<()>, seq<Access>))
    ensures r.0.Err?
  {
    if !caps.isGpu then (Err(e), BadOkReads(bar0, log, SwitchDumpOffsets()))
    else if caps.hopper || caps.blackwellPlus then
      var (d, log2) := CheckedReads(bar0, log, [offset] + Dwords(0x8f0320, 4));
      (if d.Err? then d else Err(e), log2)
    else (Err(e), log)
  }

  /** Knobs 2, 4 and 34, zeroed before CC or PPCIe is turned on. */
  const ClearKnobs: seq<Assign> := [Assign(2, 0), Assign(4, 0), Assign(34, 0)]

  /** No call of the plan names CCM or CCD. */
  predicate LeavesCc(plan: seq<Assign>)
  {
    forall i | 0 <= i < |plan| :: plan[i].knob != Prc.CCM && plan[i].knob != Prc.CCD
  }

  // -----------------------------------------------------------------------
  // set_cc_mode

  /** The values a CC mode stores in CCM, CCD and the BAR0 decoupler. */
  datatype CcValues = CcValues(ccm: nat, ccd: nat, bar0: nat)

  /** The mode argument of `set_cc_mode`; any other mode is a ValueError. */
  function CcModeValues(mode: string): (r: Result<CcValues>)
    ensures r.Ok? <==> mode == "on" || mode == "devtools" || mode == "off"
    ensures r.Err? ==> r.error == ValueError("Invalid mode " + mode)
    ensures r.Ok? ==> r.value.ccm <= 1 && r.value.ccd <= r.value.ccm && r.value.bar0 <= 2
  {
    if mode == "on" then Ok(CcValues(1, 0, 2))
    else if mode == "devtools" then Ok(CcValues(1, 1, 0))
    else if mode == "off" then Ok(CcValues(0, 0, 0))
    else Err(ValueError("Invalid mode " + mode))
  }

  /** The calls before the CC knobs: knobs 2, 4, 34 and PPCIe zeroed when
      enabling, then the BAR0 decoupler on Hopper. */
  function CcPre(v: CcValues, ppcie: bool, hopper: bool): seq<Assign>
  {
    (if v.ccm == 1 then ClearKnobs + (if ppcie then [Assign(Prc.PPCIE, 0)] else []) else [])
    + (if hopper then [Assign(Prc.BAR0_DECOUPLER, v.bar0)] else [])
  }

  /** The CC knobs: CCM is written first when enabling and last when disabling. */
  function CcLast(v: CcValues): seq<Assign>
  {
    if v.ccm == 1 then [Assign(Prc.CCM, v.ccm), Assign(Prc.CCD, v.ccd)]
    else [Assign(Prc.CCD, v.ccd), Assign(Prc.CCM, v.ccm)]
  }

  /** The `prc_knob_check_and_write` calls of `set_cc_mode`, in order. */
  function CcPlan(v: CcValues, ppcie: bool, hopper: bool): seq<Assign>
  {
    CcPre(v, ppcie, hopper) + CcLast(v)
  }

  /** Whether `set_cc_mode` zeroes the PPCIe knob: where PPCIe can be
      queried its knob is read, and an invalid-knob answer (older firmware
      without PPCIe) means no; any other error of the read is raised. */
  function PpcieProbe(reply: Reply, sent: seq<Cmd>, ppcieQuery: bool): (Result<bool>, seq<Cmd>)
  {
    if !ppcieQuery then (Ok(false), sent)
    else
      var (rp, sent1) := KnobRead(reply, sent, Prc.PPCIE);
      if rp.Ok? then (Ok(true), sent1)
      else if IsInvalidKnob(rp.error) then (Ok(false), sent1)
      else (Err(rp.error), sent1)
  }

  /** `set_cc_mode(mode)`: nothing is sent for a bad mode; then the PPCIe
      probe, then the plan. */
  function CcModeCalls(reply: Reply, sent: seq<Cmd>, caps: Caps, mode: string): (Result<()>, seq<Cmd>)
  {
    if !caps.ccQuery then (Err(AssertionError("is_cc_query_supported")), sent)
    else match CcModeValues(mode)
      case Err(e) => (Err(e), sent)
      case Ok(v) =>
        var (rp, sent1) := PpcieProbe(reply, sent, caps.ppcieQuery);
        if rp.Err? then (Err(rp.error), sent1)
        else RunPlan(CheckAndWriteStep(reply), sent1, CcPlan(v, rp.value, caps.hopper))
  }

  // -----------------------------------------------------------------------
  // set_ppcie_mode and set_bar0_firewall_mode

  /** The values a PPCIe mode stores in the PPCIe knob and the BAR0 decoupler. */
  datatype PpcieValues = PpcieValues(ppcie: nat, bar0: nat)

  /** The mode argument of `set_ppcie_mode`: switches have no BAR0 decoupler
      to turn on; any mode but "on" and "off" is a ValueError. */
  function PpcieModeValues(mode: string, isGpu: bool): (r: Result<PpcieValues>)
    ensures r.Ok? <==> mode == "on" || mode == "off"
    ensures r.Err? ==> r.error == ValueError("Invalid mode " + mode)
    ensures r.Ok? ==> r.value.ppcie <= 1 && (r.value.ppcie == 1 <==> mode == "on")
    ensures r.Ok? ==> (r.value.bar0 == 2 <==> mode == "on" && isGpu) && (r.value.bar0 != 2 ==> r.value.bar0 == 0)
  {
    if mode == "on" then Ok(PpcieValues(1, if isGpu then 2 else 0))
    else if mode == "off" then Ok(PpcieValues(0, 0))
    else Err(ValueError("Invalid mode " + mode))
  }

  /** The calls of `set_ppcie_mode`: when enabling, knobs 2, 4, 34 and then
      CCD and CCM are zeroed; then the BAR0 decoupler and the PPCIe knob. */
  function PpciePlan(v: PpcieValues): seq<Assign>
  {
    PpciePre(v) + PpcieLast(v) + PpciePost(v)
  }

  function PpciePre(v: PpcieValues): seq<Assign>
  {
    if v.ppcie == 1 then ClearKnobs else []
  }

  function PpcieLast(v: PpcieValues): seq<Assign>
  {
    if v.ppcie == 1 then [Assign(Prc.CCD, 0), Assign(Prc.CCM, 0)] else []
  }

  function PpciePost(v: PpcieValues): seq<Assign>
  {
    [Assign(Prc.BAR0_DECOUPLER, v.bar0), Assign(Prc.PPCIE, v.ppcie)]
  }

  /** `set_ppcie_mode(mode)`: the CCM knob is read first and any error of
      that read ends the operation; then the plan runs. */
  function PpcieModeCalls(reply: Reply, sent: seq<Cmd>, caps: Caps, mode: string): (Result<()>, seq<Cmd>)
  {
    if !caps.ppcieQuery then (Err(AssertionError("is_ppcie_query_supported")), sent)
    else match PpcieModeValues(mode, caps.isGpu)
      case Err(e) => (Err(e), sent)
      case Ok(v) =>
        var (rc, sent1) := KnobRead(reply, sent, Prc.CCM);
        if rc.Err? then (Err(rc.error), sent1)
        else RunPlan(CheckAndWriteStep(reply), sent1, PpciePlan(v))
  }

  /** The BAR0 decoupler value of `set_bar0_firewall_mode`: 2 for "on" and 0
      for any other mode. */
  function Bar0FirewallValue(mode: string): (r: nat)
    ensures r == 2 <==> mode == "on"
    ensures r != 2 ==> r == 0
  {
    if mode == "on" then 2 else 0
  }

  /** `set_bar0_firewall_mode(mode)`: one check-and-write of the decoupler. */
  function Bar0FirewallModeCalls(reply: Reply, sent: seq<Cmd>, caps: Caps, mode: string): (Result<()>, seq<Cmd>)
  {
    if !caps.bar0Firewall then (Err(AssertionError("is_bar0_firewall_supported")), sent)
    else CheckAndWrite(reply, sent, Prc.BAR0_DECOUPLER, Bar0FirewallValue(mode))
  }

  /** `query_prc_knobs()`: every `PrcKnob` read in enum order. */
  function PrcKnobsCalls(reply: Reply, sent: seq<Cmd>, caps: Caps): (Result<seq<(string, KnobState)>>, seq<Cmd>)
  {
    if !caps.hasFsp then (Err(AssertionError("has_fsp")), sent)
    else QueryKnobs(KnobReadStep(reply), Prc.StrFromKnobId, sent, KnobIds())
  }

  /** Whatever the firmware answers, `query_prc_knobs` only reads: without
      an FSP nothing is sent; on success every knob was read once, in enum
      order, and each entry is named by `str_from_knob_id`; an error other
      than invalid-knob ends the reads at the knob that raised it. */
  lemma PrcKnobsSends(reply: Reply, sent: seq<Cmd>, caps: Caps)
    ensures var (r, out) := PrcKnobsCalls(reply, sent, caps);
      (!caps.hasFsp ==> r == Err(AssertionError("has_fsp")) && out == sent)
      && (caps.hasFsp && r.Ok? ==>
        out == sent + Reads(KnobIds()) && |r.value| == 46
        && forall i :: 0 <= i < 46 ==> r.value[i].0 == Prc.StrFromKnobId(i + 1))
      && (caps.hasFsp && r.Err? ==>
        !IsInvalidKnob(r.error) && exists k :: 0 < k <= 46 && out == sent + Reads(KnobIds()[..k]))
  {
    if caps.hasFsp {
      KnobReadShape(reply);
      QueryKnobsSends(KnobReadStep(reply), Prc.StrFromKnobId, sent, KnobIds());
      QueryKnobsNames(KnobReadStep(reply), Prc.StrFromKnobId, sent, KnobIds());
    }
  }

  /** On the table firmware `query_prc_knobs` reports, for knob ids 1..46 in
      order, the table's value or "invalid" where the firmware lacks the
      knob, and changes no knob. */
  lemma PrcKnobsOnTable(init: Table, sent: seq<Cmd>, caps: Caps)
    requires caps.hasFsp && Table16(TableAfter(init, sent))
    ensures var (r, out) := PrcKnobsCalls(Firmware(init), sent, caps);
      var t := TableAfter(init, sent);
      r.Ok? && |r.value| == 46
      && (forall i :: 0 <= i < 46 ==> r.value[i] == (Prc.StrFromKnobId(i + 1), StateOn(t, i + 1)))
      && TableAfter(init, out) == t
  {
    FirmwareRead(init);
    QueryKnobsOnTable(KnobReadStep(Firmware(init)), Prc.StrFromKnobId, init, sent, KnobIds());
    QueryKnobsNames(KnobReadStep(Firmware(init)), Prc.StrFromKnobId, sent, KnobIds());
  }

  // -----------------------------------------------------------------------
  // knobs_set

  /** The mode a setter receives for a setting: Python formats a bool as
      "True" or "False" and None as "None", none of which is a valid mode. */
  function ModeArg(v: KnobValue): string
  {
    match v
    case Mode(s) => s
    case Flag(b) => if b then "True" else "False"
    case NoValue => "None"
  }

  /** The setters of `knobs_set`: `set_cc_mode` and `set_ppcie_mode` as
      modelled here, and `other` for the ECC and MIG setters. */
  function KnobSetStep(reply: Reply, caps: Caps, other: (string, KnobValue) -> Result<()>): SetStep
  {
    (s: seq<Cmd>, k: string, v: KnobValue) =>
      if k == "cc" then CcModeCalls(reply, s, caps, ModeArg(v))
      else if k == "ppcie" then PpcieModeCalls(reply, s, caps, ModeArg(v))
      else (other(k, v), s)
  }

  /** A read of the CC or PPCIe mode register that reports "on". */
  predicate ReadsOn(caps: Caps, a: Access)
  {
    a.Rd? && CheckedRead(a.offset, a.value).Ok?
    && ((caps.ccQuery && CcModeRegister(caps) == Some(a.offset) && CcModeOfReg(a.value) == "on")
        || (caps.ppcieQuery && a.offset == PpcieModeRegister(caps.isGpu) && PpcieModeOfReg(caps.isGpu, a.value) == "on"))
  }

  // -----------------------------------------------------------------------
  // Plans on a knob table

  /** The value a knob holds, 0 when the firmware lacks it. */
  function Get(t: Table, id: nat): nat
  {
    if id in t then t[id] else 0
  }

  /** The state the CC register decode reports as invalid: CCD on, CCM off. */
  predicate CcdWithoutCcm(t: Table)
  {
    Get(t, Prc.CCD) != 0 && Get(t, Prc.CCM) == 0
  }

  /** The CC knobs written in a safe order: CCM on before CCD, or CCD off
      before CCM (or not at all). */
  predicate SafeCcOrder(last: seq<Assign>)
  {
    last == [] || (|last| == 2 && ((last[0] == Assign(Prc.CCM, 1) && last[1].knob == Prc.CCD)
                                 || (last[0] == Assign(Prc.CCD, 0) && last[1].knob == Prc.CCM)))
  }

  lemma UpdateLeavesCc(t: Table, plan: seq<Assign>)
    requires LeavesCc(plan)
    ensures Get(Update(t, plan), Prc.CCM) == Get(t, Prc.CCM)
    ensures Get(Update(t, plan), Prc.CCD) == Get(t, Prc.CCD)
  {
    UpdateOther(t, plan, Prc.CCM);
    UpdateOther(t, plan, Prc.CCD);
  }

  lemma UpdateOne(t: Table, a: Assign)
    ensures Update(t, [a]) == t[a.knob := a.value]
  {
    assert [a][1..] == [];
  }

  lemma UpdatePair(t: Table, a: Assign, b: Assign)
    ensures Update(t, [a, b]) == t[a.knob := a.value][b.knob := b.value]
  {
    assert [a, b][1..] == [b];
    UpdateOne(t[a.knob := a.value], b);
  }

  /** A plan that leaves the CC knobs alone except for two writes in a safe
      order never passes through CCD-without-CCM: every prefix of it, applied
      to a table outside that state, leaves the table outside it. */
  lemma {:induction false} OrderedPlanSafe(t: Table, pre: seq<Assign>, last: seq<Assign>, post: seq<Assign>, j: nat)
    requires LeavesCc(pre) && SafeCcOrder(last) && LeavesCc(post)
    requires !CcdWithoutCcm(t) && j <= |pre + last + post|
    ensures !CcdWithoutCcm(Update(t, (pre + last + post)[..j]))
    decreases j
  {
    var plan := pre + last + post;
    if j <= |pre| {
      assert plan[..j] == pre[..j];
      assert LeavesCc(pre[..j]);
      UpdateLeavesCc(t, pre[..j]);
    } else if j <= |pre| + |last| {
      var u := Update(t, pre);
      UpdateLeavesCc(t, pre);
      assert plan[..j] == pre + last[..j - |pre|];
      UpdateAppend(t, pre, last[..j - |pre|]);
      if j == |pre| + 1 {
        assert last[..1] == [last[0]];
        UpdateOne(u, last[0]);
      } else {
        assert last[..2] == [last[0], last[1]];
        UpdatePair(u, last[0], last[1]);
      }
    } else {
      var m := |pre| + |last|;
      OrderedPlanSafe(t, pre, last, post, m);
      assert plan[..m] == pre + last;
      assert plan[..j] == (pre + last) + post[..j - m];
      UpdateAppend(t, pre + last, post[..j - m]);
      assert LeavesCc(post[..j - m]);
      UpdateLeavesCc(Update(t, pre + last), post[..j - m]);
    }
  }

  /** Valid CC values make `set_cc_mode`'s plan safely ordered, with values
      a 16-bit knob holds. */
  lemma CcPlanShape(v: CcValues, ppcie: bool, hopper: bool)
    requires v.ccm <= 1 && v.ccd <= v.ccm && v.bar0 <= 2
    ensures LeavesCc(CcPre(v, ppcie, hopper)) && SafeCcOrder(CcLast(v))
    ensures Values16(CcPlan(v, ppcie, hopper))
  {
  }

  lemma PpciePlanShape(v: PpcieValues)
    requires v.ppcie <= 1 && v.bar0 <= 2
    ensures LeavesCc(PpciePre(v)) && SafeCcOrder(PpcieLast(v)) && LeavesCc(PpciePost(v))
    ensures Values16(PpciePlan(v))
  {
  }

  /** Knob reads answer from the table the earlier commands left, as the
      table firmware's do. */
  ghost predicate TableReads(reply: Reply, init: Table)
  {
    forall s: seq<Cmd>, id: nat | Table16(TableAfter(init, s)) ::
      KnobRead(reply, s, id) == (if id in TableAfter(init, s) then Ok(TableAfter(init, s)[id])
                                 else Err(InvalidKnobReply()), s + [ReadCmd(id)])
  }

  /** A reply that behaves like the table firmware for reads and for
      check-and-write calls, and sends what `check_and_write` sends. */
  ghost predicate TableLike(reply: Reply, init: Table)
  {
    TableReads(reply, init) && TableStep(CheckAndWriteStep(reply), init)
      && StepShape(CheckAndWriteStep(reply))
  }

  lemma FirmwareIsTableLike(init: Table)
    ensures TableLike(Firmware(init), init)
  {
    forall s: seq<Cmd>, id: nat | Table16(TableAfter(init, s))
      ensures KnobRead(Firmware(init), s, id) == (if id in TableAfter(init, s) then Ok(TableAfter(init, s)[id])
                                 else Err(InvalidKnobReply()), s + [ReadCmd(id)])
    {
      KnobReadOnTable(init, s, id);
    }
    FirmwareStep(init);
    CheckAndWriteShape(Firmware(init));
  }

  /** The commands `out` extend `sent`, and no table along the extension
      has CCD on with CCM off. */
  predicate SafeRun(init: Table, sent: seq<Cmd>, out: seq<Cmd>)
  {
    |sent| <= |out| && out[..|sent|] == sent
    && forall k | |sent| <= k <= |out| :: !CcdWithoutCcm(TableAfter(init, out[..k]))
  }

  /** A safe run after a command that leaves the table alone is a safe run
      from before that command. */
  lemma SafeRunBack(init: Table, sent: seq<Cmd>, c: Option<Cmd>, out: seq<Cmd>)
    requires !CcdWithoutCcm(TableAfter(init, sent))
    requires c.Some? ==> TableAfter(init, sent + [c.value]) == TableAfter(init, sent)
    requires SafeRun(init, if c.Some? then sent + [c.value] else sent, out)
    ensures SafeRun(init, sent, out)
  {
    if c.Some? {
      var sent1 := sent + [c.value];
      PrefixOne(sent, c.value);
      PrefixOfPrefix(sent, sent1, out);
      forall k | |sent| <= k <= |out|
        ensures !CcdWithoutCcm(TableAfter(init, out[..k]))
      {
        if k == |sent| {
          assert out[..k] == sent;
        }
      }
    }
  }

  /** A run of a plan built as `pre + last + post` against a table-like
      firmware, from a table outside CCD-without-CCM, stays outside it at
      every command. */
  lemma OrderedRunSafe(step: Step, init: Table, sent: seq<Cmd>, pre: seq<Assign>, last: seq<Assign>, post: seq<Assign>)
    requires TableStep(step, init) && StepShape(step)
    requires LeavesCc(pre) && SafeCcOrder(last) && LeavesCc(post) && Values16(pre + last + post)
    requires Table16(TableAfter(init, sent)) && !CcdWithoutCcm(TableAfter(init, sent))
    ensures SafeRun(init, sent, RunPlan(step, sent, pre + last + post).1)
  {
    var t := TableAfter(init, sent);
    var plan := pre + last + post;
    forall j | 0 <= j <= |plan| && AllKnown(t, plan, j)
      ensures (u => !CcdWithoutCcm(u))(Update(t, plan[..j]))
    {
      OrderedPlanSafe(t, pre, last, post, j);
    }
    RunPlanKeeps(step, init, sent, plan, u => !CcdWithoutCcm(u));
    RunPlanExtends(step, sent, plan);
  }

  /** `set_cc_mode` against the table firmware never leaves CCD on with CCM
      off at any command it sends, starting from a table outside that
      state; it only appends to what was sent before. */
  lemma CcModeNeverCcdWithoutCcm(init: Table, sent: seq<Cmd>, caps: Caps, mode: string)
    requires Table16(TableAfter(init, sent)) && !CcdWithoutCcm(TableAfter(init, sent))
    ensures SafeRun(init, sent, CcModeCalls(Firmware(init), sent, caps, mode).1)
  {
    FirmwareIsTableLike(init);
    CcModeSafeOn(Firmware(init), init, sent, caps, mode);
  }

  /** Against a table-like firmware the PPCIe probe reads the knob and
      reports whether the table has it. */
  lemma PpcieProbeOnTable(reply: Reply, init: Table, sent: seq<Cmd>, ppcieQuery: bool)
    requires TableReads(reply, init) && Table16(TableAfter(init, sent))
    ensures PpcieProbe(reply, sent, ppcieQuery) ==
      if ppcieQuery then (Ok(Prc.PPCIE in TableAfter(init, sent)), sent + [ReadCmd(Prc.PPCIE)])
      else (Ok(false), sent)
  {
    assert IsInvalidKnob(InvalidKnobReply());
  }

  lemma CcModeSafeOn(reply: Reply, init: Table, sent: seq<Cmd>, caps: Caps, mode: string)
    requires TableLike(reply, init)
    requires Table16(TableAfter(init, sent)) && !CcdWithoutCcm(TableAfter(init, sent))
    ensures SafeRun(init, sent, CcModeCalls(reply, sent, caps, mode).1)
  {
    var out := CcModeCalls(reply, sent, caps, mode).1;
    if !caps.ccQuery || CcModeValues(mode).Err? {
      SafeRunBack(init, sent, None, sent);
    } else {
      PpcieProbeOnTable(reply, init, sent, caps.ppcieQuery);
      TableAfterRead(init, sent, Prc.PPCIE);
      var sent1 := PpcieProbe(reply, sent, caps.ppcieQuery).1;
      CcRunSafe(CheckAndWriteStep(reply), init, sent1, CcModeValues(mode).value,
                PpcieProbe(reply, sent, caps.ppcieQuery).0.value, caps.hopper);
      SafeRunBack(init, sent, if caps.ppcieQuery then Some(ReadCmd(Prc.PPCIE)) else None, out);
    }
  }

  lemma CcRunSafe(step: Step, init: Table, sent: seq<Cmd>, v: CcValues, ppcie: bool, hopper: bool)
    requires TableStep(step, init) && StepShape(step)
    requires Table16(TableAfter(init, sent)) && !CcdWithoutCcm(TableAfter(init, sent))
    requires v.ccm <= 1 && v.ccd <= v.ccm && v.bar0 <= 2
    ensures SafeRun(init, sent, RunPlan(step, sent, CcPlan(v, ppcie, hopper)).1)
  {
    CcPlanShape(v, ppcie, hopper);
    var pre := CcPre(v, ppcie, hopper);
    assert CcPlan(v, ppcie, hopper) == pre + CcLast(v) + [];
    OrderedRunSafe(step, init, sent, pre, CcLast(v), []);
  }

  // -----------------------------------------------------------------------
  // What the knobs hold after set_cc_mode

  lemma AllKnownAppend(t: Table, a: seq<Assign>, b: seq<Assign>)
    ensures AllKnown(t, a + b, |a + b|) <==> AllKnown(t, a, |a|) && AllKnown(t, b, |b|)
  {
    if AllKnown(t, a, |a|) && AllKnown(t, b, |b|) {
      forall i | 0 <= i < |a + b|
        ensures (a + b)[i].knob in t
      {
        if i >= |a| {
          assert (a + b)[i] == b[i - |a|];
        }
      }
    }
    if AllKnown(t, a + b, |a + b|) {
      forall i | 0 <= i < |a|
        ensures a[i].knob in t
      {
        assert (a + b)[i] == a[i];
      }
      forall i | 0 <= i < |b|
        ensures b[i].knob in t
      {
        assert (a + b)[|a| + i] == b[i];
      }
    }
  }

  lemma UpdateTriple(t: Table, a: Assign, b: Assign, c: Assign)
    ensures Update(t, [a, b, c]) == t[a.knob := a.value][b.knob := b.value][c.knob := c.value]
  {
    assert [a, b, c][1..] == [b, c];
    UpdatePair(t[a.knob := a.value], b, c);
  }

  /** The knobs `set_cc_mode` needs: CCM and CCD, the BAR0 decoupler on
      Hopper, and knobs 2, 4 and 34 when enabling. */
  predicate CcKnobsKnown(t: Table, v: CcValues, hopper: bool)
  {
    Prc.CCM in t && Prc.CCD in t && (hopper ==> Prc.BAR0_DECOUPLER in t)
    && (v.ccm == 1 ==> 2 in t && 4 in t && 34 in t)
  }

  /** The table `u` after `set_cc_mode` with values `v` ran on `t` to the
      end, PPCIe zeroed when `ppcie`: the CC knobs hold the mode's values,
      knobs 2, 4, 34 and PPCIe are zero when enabling and untouched when
      disabling, the decoupler is set on Hopper only, and every other knob
      is as it was. */
  predicate CcKnobsSet(t: Table, u: Table, v: CcValues, ppcie: bool, hopper: bool)
  {
    u.Keys == t.Keys
    && Get(u, Prc.CCM) == v.ccm && Get(u, Prc.CCD) == v.ccd
    && Get(u, Prc.BAR0_DECOUPLER) == (if hopper then v.bar0 else Get(t, Prc.BAR0_DECOUPLER))
    && (forall id | id in {2, 4, 34} :: Get(u, id) == if v.ccm == 1 then 0 else Get(t, id))
    && Get(u, Prc.PPCIE) == (if v.ccm == 1 && ppcie then 0 else Get(t, Prc.PPCIE))
    && (forall id | id in t && id !in {2, 4, 34, Prc.PPCIE, Prc.BAR0_DECOUPLER, Prc.CCM, Prc.CCD} :: u[id] == t[id])
  }

  /** The table after the calls before the CC knobs. */
  function CcPreTable(t: Table, v: CcValues, ppcie: bool, hopper: bool): Table
  {
    var t1 := if v.ccm == 1 then t[2 := 0][4 := 0][34 := 0] else t;
    var t2 := if v.ccm == 1 && ppcie then t1[Prc.PPCIE := 0] else t1;
    if hopper then t2[Prc.BAR0_DECOUPLER := v.bar0] else t2
  }

  lemma CcPreUpdate(t: Table, v: CcValues, ppcie: bool, hopper: bool)
    ensures var pre := CcPre(v, ppcie, hopper);
      (AllKnown(t, pre, |pre|) <==>
         (hopper ==> Prc.BAR0_DECOUPLER in t) && (v.ccm == 1 ==> 2 in t && 4 in t && 34 in t && (ppcie ==> Prc.PPCIE in t)))
      && Update(t, pre) == CcPreTable(t, v, ppcie, hopper)
  {
    var a := if v.ccm == 1 then ClearKnobs + (if ppcie then [Assign(Prc.PPCIE, 0)] else []) else [];
    var b := if hopper then [Assign(Prc.BAR0_DECOUPLER, v.bar0)] else [];
    var p := if ppcie then [Assign(Prc.PPCIE, 0)] else [];
    AllKnownAppend(t, a, b);
    UpdateAppend(t, a, b);
    if v.ccm == 1 {
      AllKnownAppend(t, ClearKnobs, p);
      UpdateAppend(t, ClearKnobs, p);
      UpdateTriple(t, Assign(2, 0), Assign(4, 0), Assign(34, 0));
      if ppcie {
        UpdateOne(Update(t, ClearKnobs), Assign(Prc.PPCIE, 0));
      }
    }
    if hopper {
      UpdateOne(Update(t, a), Assign(Prc.BAR0_DECOUPLER, v.bar0));
    }
  }

  /** `set_cc_mode`'s plan names only known knobs exactly when the CC knobs
      it needs exist (and PPCIe, when it zeroes it); run to the end it
      leaves the table `CcKnobsSet` describes. */
  lemma CcPlanTable(t: Table, v: CcValues, ppcie: bool, hopper: bool)
    requires v.ccm <= 1 && v.ccd <= v.ccm
    ensures var plan := CcPlan(v, ppcie, hopper);
      (AllKnown(t, plan, |plan|) <==> CcKnobsKnown(t, v, hopper) && (v.ccm == 1 && ppcie ==> Prc.PPCIE in t))
      && (AllKnown(t, plan, |plan|) ==> CcKnobsSet(t, Update(t, plan), v, ppcie, hopper))
  {
    var pre := CcPre(v, ppcie, hopper);
    var c := CcLast(v);
    AllKnownAppend(t, pre, c);
    UpdateAppend(t, pre, c);
    CcPreUpdate(t, v, ppcie, hopper);
    var t2 := CcPreTable(t, v, ppcie, hopper);
    UpdatePair(t2, c[0], c[1]);
    assert c == [c[0], c[1]];
    if CcKnobsKnown(t, v, hopper) && (v.ccm == 1 && ppcie ==> Prc.PPCIE in t) {
      CcFinalTable(t, v, ppcie, hopper);
    }
  }

  lemma CcFinalTable(t: Table, v: CcValues, ppcie: bool, hopper: bool)
    requires v.ccm <= 1 && v.ccd <= v.ccm
    requires CcKnobsKnown(t, v, hopper) && (v.ccm == 1 && ppcie ==> Prc.PPCIE in t)
    ensures var c := CcLast(v);
      CcKnobsSet(t, CcPreTable(t, v, ppcie, hopper)[c[0].knob := c[0].value][c[1].knob := c[1].value], v, ppcie, hopper)
  {
    var c := CcLast(v);
    var u := CcPreTable(t, v, ppcie, hopper)[c[0].knob := c[0].value][c[1].knob := c[1].value];
    assert u.Keys == t.Keys;
    forall id | id in t && id !in {2, 4, 34, Prc.PPCIE, Prc.BAR0_DECOUPLER, Prc.CCM, Prc.CCD}
      ensures u[id] == t[id]
    {
    }
  }

  /** `set_cc_mode` against the table firmware, for a valid mode on a device
      that supports the CC query: it succeeds exactly when the CC knobs it
      needs exist, fails otherwise with the invalid-knob error, and on
      success the knobs hold what `CcKnobsSet` says (PPCIe zeroed when the
      firmware has that knob). */
  lemma CcModeOnTable(init: Table, sent: seq<Cmd>, caps: Caps, mode: string)
    requires Table16(TableAfter(init, sent)) && caps.ccQuery && CcModeValues(mode).Ok?
    ensures var (r, out) := CcModeCalls(Firmware(init), sent, caps, mode);
      var t := TableAfter(init, sent);
      var v := CcModeValues(mode).value;
      (r.Ok? <==> CcKnobsKnown(t, v, caps.hopper))
      && (r.Err? ==> r.error == InvalidKnobReply())
      && (r.Ok? ==> CcKnobsSet(t, TableAfter(init, out), v, caps.ppcieQuery && Prc.PPCIE in t, caps.hopper))
  {
    FirmwareIsTableLike(init);
    CcModeOnTableLike(Firmware(init), init, sent, caps, mode);
  }

  lemma CcModeOnTableLike(reply: Reply, init: Table, sent: seq<Cmd>, caps: Caps, mode: string)
    requires TableLike(reply, init)
    requires Table16(TableAfter(init, sent)) && caps.ccQuery && CcModeValues(mode).Ok?
    ensures var (r, out) := CcModeCalls(reply, sent, caps, mode);
      var t := TableAfter(init, sent);
      var v := CcModeValues(mode).value;
      (r.Ok? <==> CcKnobsKnown(t, v, caps.hopper))
      && (r.Err? ==> r.error == InvalidKnobReply())
      && (r.Ok? ==> CcKnobsSet(t, TableAfter(init, out), v, caps.ppcieQuery && Prc.PPCIE in t, caps.hopper))
  {
    PpcieProbeOnTable(reply, init, sent, caps.ppcieQuery);
    TableAfterRead(init, sent, Prc.PPCIE);
    var sent1 := PpcieProbe(reply, sent, caps.ppcieQuery).1;
    CcRunOnTable(CheckAndWriteStep(reply), init, sent1, CcModeValues(mode).value,
                 PpcieProbe(reply, sent, caps.ppcieQuery).0.value, caps.hopper);
  }

  /** The plan of `set_cc_mode` run against a table-like step. */
  lemma CcRunOnTable(step: Step, init: Table, sent: seq<Cmd>, v: CcValues, ppcie: bool, hopper: bool)
    requires TableStep(step, init) && Table16(TableAfter(init, sent))
    requires v.ccm <= 1 && v.ccd <= v.ccm && v.bar0 <= 2
    ensures var (r, out) := RunPlan(step, sent, CcPlan(v, ppcie, hopper));
      var t := TableAfter(init, sent);
      (r.Ok? <==> CcKnobsKnown(t, v, hopper) && (v.ccm == 1 && ppcie ==> Prc.PPCIE in t))
      && (r.Err? ==> r.error == InvalidKnobReply())
      && (r.Ok? ==> CcKnobsSet(t, TableAfter(init, out), v, ppcie, hopper))
  {
    CcPlanShape(v, ppcie, hopper);
    RunPlanOnTable(step, init, sent, CcPlan(v, ppcie, hopper));
    CcPlanTable(TableAfter(init, sent), v, ppcie, hopper);
  }

  // -----------------------------------------------------------------------
  // set_ppcie_mode against the table firmware

  /** The knobs `set_ppcie_mode` needs: CCM (read first), the BAR0
      decoupler and PPCIe, and knobs 2, 4, 34 and CCD when enabling. */
  predicate PpcieKnobsKnown(t: Table, v: PpcieValues)
  {
    Prc.CCM in t && Prc.BAR0_DECOUPLER in t && Prc.PPCIE in t
    && (v.ppcie == 1 ==> 2 in t && 4 in t && 34 in t && Prc.CCD in t)
  }

  /** The table `u` after `set_ppcie_mode` with values `v` ran on `t` to the
      end: PPCIe and the decoupler hold the mode's values, knobs 2, 4, 34,
      CCD and CCM are zero when enabling and untouched when disabling, and
      every other knob is as it was. */
  predicate PpcieKnobsSet(t: Table, u: Table, v: PpcieValues)
  {
    u.Keys == t.Keys
    && Get(u, Prc.PPCIE) == v.ppcie && Get(u, Prc.BAR0_DECOUPLER) == v.bar0
    && (forall id | id in {2, 4, 34, Prc.CCD, Prc.CCM} :: Get(u, id) == if v.ppcie == 1 then 0 else Get(t, id))
    && (forall id | id in t && id !in {2, 4, 34, Prc.PPCIE, Prc.BAR0_DECOUPLER, Prc.CCM, Prc.CCD} :: u[id] == t[id])
  }

  function PpcieFinalTable(t: Table, v: PpcieValues): Table
  {
    var t1 := if v.ppcie == 1 then t[2 := 0][4 := 0][34 := 0][Prc.CCD := 0][Prc.CCM := 0] else t;
    t1[Prc.BAR0_DECOUPLER := v.bar0][Prc.PPCIE := v.ppcie]
  }

  lemma PpciePlanTable(t: Table, v: PpcieValues)
    ensures var plan := PpciePlan(v);
      (AllKnown(t, plan, |plan|) <==>
         Prc.BAR0_DECOUPLER in t && Prc.PPCIE in t
         && (v.ppcie == 1 ==> 2 in t && 4 in t && 34 in t && Prc.CCD in t && Prc.CCM in t))
      && Update(t, plan) == PpcieFinalTable(t, v)
  {
    var a := PpciePre(v);
    var b := PpcieLast(v);
    var c := PpciePost(v);
    AllKnownAppend(t, a + b, c);
    AllKnownAppend(t, a, b);
    UpdateAppend(t, a + b, c);
    UpdateAppend(t, a, b);
    if v.ppcie == 1 {
      UpdateTriple(t, Assign(2, 0), Assign(4, 0), Assign(34, 0));
      UpdatePair(Update(t, a), b[0], b[1]);
      assert b == [b[0], b[1]];
    }
    UpdatePair(Update(t, a + b), c[0], c[1]);
    assert c == [c[0], c[1]];
  }

  lemma PpcieFinalKnobs(t: Table, v: PpcieValues)
    requires PpcieKnobsKnown(t, v)
    ensures PpcieKnobsSet(t, PpcieFinalTable(t, v), v)
  {
    var u := PpcieFinalTable(t, v);
    assert u.Keys == t.Keys;
    forall id | id in t && id !in {2, 4, 34, Prc.PPCIE, Prc.BAR0_DECOUPLER, Prc.CCM, Prc.CCD}
      ensures u[id] == t[id]
    {
    }
  }

  /** The plan of `set_ppcie_mode` run against a table-like step. */
  lemma PpcieRunOnTable(step: Step, init: Table, sent: seq<Cmd>, v: PpcieValues)
    requires TableStep(step, init) && Table16(TableAfter(init, sent))
    requires v.ppcie <= 1 && v.bar0 <= 2 && Prc.CCM in TableAfter(init, sent)
    ensures var (r, out) := RunPlan(step, sent, PpciePlan(v));
      var t := TableAfter(init, sent);
      (r.Ok? <==> PpcieKnobsKnown(t, v))
      && (r.Err? ==> r.error == InvalidKnobReply())
      && (r.Ok? ==> PpcieKnobsSet(t, TableAfter(init, out), v))
  {
    var t := TableAfter(init, sent);
    PpciePlanShape(v);
    RunPlanOnTable(step, init, sent, PpciePlan(v));
    PpciePlanTable(t, v);
    if PpcieKnobsKnown(t, v) {
      PpcieFinalKnobs(t, v);
    }
  }

  /** `set_ppcie_mode` against the table firmware, for a valid mode on a
      device that supports the PPCIe query: it succeeds exactly when the
      knobs it needs exist (a missing CCM fails the first read), fails
      otherwise with the invalid-knob error, and on success the knobs hold
      what `PpcieKnobsSet` says. */
  lemma PpcieModeOnTable(init: Table, sent: seq<Cmd>, caps: Caps, mode: string)
    requires Table16(TableAfter(init, sent)) && caps.ppcieQuery && PpcieModeValues(mode, caps.isGpu).Ok?
    ensures var (r, out) := PpcieModeCalls(Firmware(init), sent, caps, mode);
      var t := TableAfter(init, sent);
      var v := PpcieModeValues(mode, caps.isGpu).value;
      (r.Ok? <==> PpcieKnobsKnown(t, v))
      && (r.Err? ==> r.error == InvalidKnobReply())
      && (r.Ok? ==> PpcieKnobsSet(t, TableAfter(init, out), v))
  {
    FirmwareIsTableLike(init);
    PpcieModeOnTableLike(Firmware(init), init, sent, caps, mode);
  }

  lemma PpcieModeOnTableLike(reply: Reply, init: Table, sent: seq<Cmd>, caps: Caps, mode: string)
    requires TableLike(reply, init)
    requires Table16(TableAfter(init, sent)) && caps.ppcieQuery && PpcieModeValues(mode, caps.isGpu).Ok?
    ensures var (r, out) := PpcieModeCalls(reply, sent, caps, mode);
      var t := TableAfter(init, sent);
      var v := PpcieModeValues(mode, caps.isGpu).value;
      (r.Ok? <==> PpcieKnobsKnown(t, v))
      && (r.Err? ==> r.error == InvalidKnobReply())
      && (r.Ok? ==> PpcieKnobsSet(t, TableAfter(init, out), v))
  {
    TableAfterRead(init, sent, Prc.CCM);
    if Prc.CCM in TableAfter(init, sent) {
      PpcieRunOnTable(CheckAndWriteStep(reply), init, sent + [ReadCmd(Prc.CCM)], PpcieModeValues(mode, caps.isGpu).value);
    }
  }

  /** `set_ppcie_mode` against the table firmware never leaves CCD on with
      CCM off at any command it sends, starting from a table outside that
      state. */
  lemma PpcieModeNeverCcdWithoutCcm(init: Table, sent: seq<Cmd>, caps: Caps, mode: string)
    requires Table16(TableAfter(init, sent)) && !CcdWithoutCcm(TableAfter(init, sent))
    ensures SafeRun(init, sent, PpcieModeCalls(Firmware(init), sent, caps, mode).1)
  {
    FirmwareIsTableLike(init);
    PpcieModeSafeOn(Firmware(init), init, sent, caps, mode);
  }

  lemma PpcieModeSafeOn(reply: Reply, init: Table, sent: seq<Cmd>, caps: Caps, mode: string)
    requires TableLike(reply, init)
    requires Table16(TableAfter(init, sent)) && !CcdWithoutCcm(TableAfter(init, sent))
    ensures SafeRun(init, sent, PpcieModeCalls(reply, sent, caps, mode).1)
  {
    var out := PpcieModeCalls(reply, sent, caps, mode).1;
    var sent1 := sent + [ReadCmd(Prc.CCM)];
    TableAfterRead(init, sent, Prc.CCM);
    if !caps.ppcieQuery || PpcieModeValues(mode, caps.isGpu).Err? {
      SafeRunBack(init, sent, None, sent);
    } else if Prc.CCM !in TableAfter(init, sent) {
      SafeRunBack(init, sent1, None, sent1);
      SafeRunBack(init, sent, Some(ReadCmd(Prc.CCM)), out);
    } else {
      PpcieRunSafe(CheckAndWriteStep(reply), init, sent1, PpcieModeValues(mode, caps.isGpu).value);
      SafeRunBack(init, sent, Some(ReadCmd(Prc.CCM)), out);
    }
  }

  lemma PpcieRunSafe(step: Step, init: Table, sent: seq<Cmd>, v: PpcieValues)
    requires TableStep(step, init) && StepShape(step)
    requires Table16(TableAfter(init, sent)) && !CcdWithoutCcm(TableAfter(init, sent))
    requires v.ppcie <= 1 && v.bar0 <= 2
    ensures SafeRun(init, sent, RunPlan(step, sent, PpciePlan(v)).1)
  {
    PpciePlanShape(v);
    OrderedRunSafe(step, init, sent, PpciePre(v), PpcieLast(v), PpciePost(v));
  }

  /** `set_bar0_firewall_mode` against the table firmware: it succeeds
      exactly when the firmware has the decoupler knob, and then the knob
      holds 2 for "on" and 0 otherwise; the CC knobs are untouched. */
  lemma Bar0FirewallModeOnTable(init: Table, sent: seq<Cmd>, caps: Caps, mode: string)
    requires Table16(TableAfter(init, sent)) && caps.bar0Firewall
    ensures var (r, out) := Bar0FirewallModeCalls(Firmware(init), sent, caps, mode);
      var t := TableAfter(init, sent);
      (r.Ok? <==> Prc.BAR0_DECOUPLER in t)
      && (r.Err? ==> r.error == InvalidKnobReply())
      && (r.Ok? ==> TableAfter(init, out) == t[Prc.BAR0_DECOUPLER := Bar0FirewallValue(mode)])
  {
    var value := Bar0FirewallValue(mode);
    CheckAndWriteOnTable(init, sent, Prc.BAR0_DECOUPLER, value);
    TablesAlongCall(init, sent, Assign(Prc.BAR0_DECOUPLER, value));
  }

  // -----------------------------------------------------------------------
  // What set_cc_mode sends, whatever the firmware answers

  /** The knobs a plan names. */
  function KnobSet(plan: seq<Assign>): set<nat>
    decreases |plan|
  {
    if |plan| == 0 then {} else {plan[0].knob} + KnobSet(plan[1..])
  }

  lemma {:induction false} KnobSetAppend(a: seq<Assign>, b: seq<Assign>)
    ensures KnobSet(a + b) == KnobSet(a) + KnobSet(b)
    decreases |a|
  {
    if |a| == 0 {
      assert a + b == b;
    } else {
      assert (a + b)[1..] == a[1..] + b;
      KnobSetAppend(a[1..], b);
    }
  }

  lemma KnobSetSmall(x: Assign, y: Assign, z: Assign)
    ensures KnobSet([x]) == {x.knob}
    ensures KnobSet([x, y]) == {x.knob, y.knob}
    ensures KnobSet([x, y, z]) == {x.knob, y.knob, z.knob}
  {
    assert [x][1..] == [];
    assert KnobSet([z]) == {z.knob} by { assert [z][1..] == []; }
    assert KnobSet([y]) == {y.knob} by { assert [y][1..] == []; }
    assert KnobSet([y, z]) == {y.knob, z.knob} by { assert [y, z][1..] == [z]; }
    assert [x, y][1..] == [y];
    assert [x, y, z][1..] == [y, z];
  }

  /** The order of `set_cc_mode`'s calls: knobs 2, 4 and 34 first when
      enabling, the decoupler (to the mode's value) just before the CC knobs
      on Hopper, and the CC knobs last: CCM before CCD when enabling, CCD
      before CCM when disabling. */
  lemma CcPlanOrder(v: CcValues, ppcie: bool, hopper: bool)
    requires v.ccm <= 1 && v.ccd <= v.ccm
    ensures var plan := CcPlan(v, ppcie, hopper);
      var n := |plan|;
      n >= 2 && LeavesCc(plan[..n - 2])
      && plan[n - 2..] == (if v.ccm == 1 then [Assign(Prc.CCM, 1), Assign(Prc.CCD, v.ccd)]
                           else [Assign(Prc.CCD, 0), Assign(Prc.CCM, 0)])
      && (v.ccm == 1 ==> plan[..3] == ClearKnobs)
      && (hopper ==> plan[n - 3] == Assign(Prc.BAR0_DECOUPLER, v.bar0))
  {
    var plan := CcPlan(v, ppcie, hopper);
    var pre := CcPre(v, ppcie, hopper);
    var n := |plan|;
    assert plan[..n - 2] == pre;
    assert plan[n - 2..] == CcLast(v);
    if v.ccm == 1 {
      assert plan[..3] == pre[..3];
    }
  }

  /** The knobs `set_cc_mode` writes: CCM and CCD; knobs 2, 4 and 34 when
      enabling, and PPCIe too when the firmware has it; the decoupler on
      Hopper only. */
  lemma CcPlanKnobs(v: CcValues, ppcie: bool, hopper: bool)
    ensures KnobSet(CcPlan(v, ppcie, hopper)) == {Prc.CCM, Prc.CCD}
      + (if v.ccm == 1 then {2, 4, 34} + (if ppcie then {Prc.PPCIE} else {}) else {})
      + (if hopper then {Prc.BAR0_DECOUPLER} else {})
  {
    var pre := CcPre(v, ppcie, hopper);
    var a := if v.ccm == 1 then ClearKnobs + (if ppcie then [Assign(Prc.PPCIE, 0)] else []) else [];
    var b := if hopper then [Assign(Prc.BAR0_DECOUPLER, v.bar0)] else [];
    var c := CcLast(v);
    KnobSetAppend(pre, c);
    KnobSetAppend(a, b);
    KnobSetSmall(c[0], c[1], c[1]);
    assert c == [c[0], c[1]];
    KnobSetSmall(Assign(Prc.BAR0_DECOUPLER, v.bar0), c[0], c[0]);
    if v.ccm == 1 {
      KnobSetAppend(ClearKnobs, if ppcie then [Assign(Prc.PPCIE, 0)] else []);
      KnobSetSmall(Assign(2, 0), Assign(4, 0), Assign(34, 0));
      KnobSetSmall(Assign(Prc.PPCIE, 0), c[0], c[0]);
    }
  }

  /** What `set_cc_mode` sends for any firmware answers: nothing for a
      missing CC query or a bad mode; otherwise the PPCIe read where PPCIe
      can be queried, then each call of the plan (with PPCIe zeroed only if
      it is queried) sends its read and possibly its write, in plan order,
      every call running when the operation succeeds. */
  lemma CcModeSends(reply: Reply, sent: seq<Cmd>, caps: Caps, mode: string)
    ensures var (r, out) := CcModeCalls(reply, sent, caps, mode);
      (!caps.ccQuery || CcModeValues(mode).Err? ==> r.Err? && out == sent)
      && (caps.ccQuery && CcModeValues(mode).Ok? ==>
        var v := CcModeValues(mode).value;
        exists p: bool, writes: seq<bool> | |writes| <= |CcPlan(v, p, caps.hopper)| ::
          (p ==> caps.ppcieQuery)
          && out == sent + (if caps.ppcieQuery then [ReadCmd(Prc.PPCIE)] else []) + StepCmds(CcPlan(v, p, caps.hopper), writes)
          && (r.Ok? ==> |writes| == |CcPlan(v, p, caps.hopper)|))
  {
    if caps.ccQuery && CcModeValues(mode).Ok? {
      var v := CcModeValues(mode).value;
      var (rp, sent1) := PpcieProbe(reply, sent, caps.ppcieQuery);
      var pre := if caps.ppcieQuery then [ReadCmd(Prc.PPCIE)] else [];
      assert sent1 == sent + pre;
      if rp.Err? {
        assert StepCmds(CcPlan(v, false, caps.hopper), []) == [];
        assert CcModeCalls(reply, sent, caps, mode).1 == sent + pre + StepCmds(CcPlan(v, false, caps.hopper), []);
      } else {
        CheckAndWriteShape(reply);
        RunPlanShape(CheckAndWriteStep(reply), sent1, CcPlan(v, rp.value, caps.hopper));
      }
    }
  }

  // -----------------------------------------------------------------------
  // Reading the modes back from registers

  /** `x & (1 << k)` is `1 << k` when bit `k` of `x` is set, else 0. */
  lemma {:induction false} AndSingleBit(x: nat, k: nat)
    ensures And(x, Pow2(k)) == if Bit(x, k) == 1 then Pow2(k) else 0
    decreases k
  {
    if k == 0 {
      assert And(x / 2, 0) == 0;
    } else {
      AndSingleBit(x / 2, k - 1);
      assert Pow2(k) % 2 == 0;
      assert Pow2(k) / 2 == Pow2(k - 1);
    }
  }

  /** The debug reads only read, ending where they stop. */
  lemma {:induction false} CheckedReadsOnlyRead(bar0: (seq<Access>, nat) -> u32, log: seq<Access>, offsets: seq<nat>)
    ensures var (r, out) := CheckedReads(bar0, log, offsets);
      log <= out && |out| <= |log| + |offsets| && Writes(out[|log|..]) == []
      && (r.Ok? ==> |out| == |log| + |offsets|)
      && (r.Err? ==> r.error.GpuError?)
    decreases |offsets|
  {
    if |offsets| > 0 {
      var v := bar0(log, offsets[0]);
      var log1 := log + [Rd(offsets[0], v)];
      assert Writes(log1[|log|..]) == [] by {
        assert log1[|log|..] == [Rd(offsets[0], v)];
        assert [Rd(offsets[0], v)][..0] == [];
      }
      if IsBadf(v) {
        CheckedReadMeans(offsets[0], v);
      } else {
        CheckedReadsOnlyRead(bar0, log1, offsets[1..]);
        WritesSplit(log, log1, CheckedReads(bar0, log1, offsets[1..]).1);
      }
    }
  }

  /** A register dump reads each offset once, in order. */
  lemma {:induction false} BadOkReadsAre(bar0: (seq<Access>, nat) -> u32, log: seq<Access>, offsets: seq<nat>)
    ensures var out := BadOkReads(bar0, log, offsets);
      log <= out && |out| == |log| + |offsets|
      && forall i :: 0 <= i < |offsets| ==> out[|log| + i] == Rd(offsets[i], bar0(out[..|log| + i], offsets[i]))
    decreases |offsets|
  {
    if |offsets| > 0 {
      var v := bar0(log, offsets[0]);
      var log1 := log + [Rd(offsets[0], v)];
      BadOkReadsAre(bar0, log1, offsets[1..]);
      var out := BadOkReads(bar0, log1, offsets[1..]);
      assert out[..|log|] == log by {
        assert out[..|log|] == out[..|log1|][..|log|];
      }
      forall i | 0 <= i < |offsets|
        ensures out[|log| + i] == Rd(offsets[i], bar0(out[..|log| + i], offsets[i]))
      {
        if i == 0 {
          assert out[..|log|] == log;
        } else {
          assert offsets[i] == offsets[1..][i - 1];
          assert |log| + i == |log1| + (i - 1);
        }
      }
    }
  }

  /** Reads only: a dump appends no writes. */
  lemma BadOkReadsOnlyRead(bar0: (seq<Access>, nat) -> u32, log: seq<Access>, offsets: seq<nat>)
    ensures var out := BadOkReads(bar0, log, offsets);
      log <= out && Writes(out[|log|..]) == []
  {
    BadOkReadsAre(bar0, log, offsets);
    var out := BadOkReads(bar0, log, offsets);
    forall i | 0 <= i < |out[|log|..]|
      ensures out[|log|..][i].Rd?
    {
      assert i < |offsets|;
      assert out[|log| + i] == Rd(offsets[i], bar0(out[..|log| + i], offsets[i]));
      assert out[|log|..][i] == out[|log| + i];
    }
    AllReadsNoWrites(out[|log|..]);
  }

  /** A log of reads holds no writes. */
  lemma {:induction false} AllReadsNoWrites(log: seq<Access>)
    requires forall i :: 0 <= i < |log| ==> log[i].Rd?
    ensures Writes(log) == []
    decreases |log|
  {
    if |log| > 0 {
      AllReadsNoWrites(log[..|log| - 1]);
      WritesAppend(log[..|log| - 1], [log[|log| - 1]]);
      assert log[..|log| - 1] + [log[|log| - 1]] == log;
      assert [log[|log| - 1]][..0] == [];
    }
  }

  /** `wait_for_boot` only reads, and everything it raises is a
      `GpuError`. */
  lemma BootWaitOnlyReads(caps: Caps, bar0: (seq<Access>, nat) -> u32, log: seq<Access>)
    ensures var (r, out) := BootWait(caps, bar0, log);
      log <= out && Writes(out[|log|..]) == [] && (r.Err? ==> IsGpuError(r.error))
  {
    match BootPoll(caps)
    case None =>
      assert log[|log|..] == [];
    case Some(p) =>
      var (r1, log1) := Poll(p, bar0, log, 0);
      PollOnlyReads(p, bar0, log, 0);
      PollRaisesGpuError(p, bar0, log, 0);
      if r1.Err? {
        BootFailedOnlyReads(caps, p.offset, bar0, log1, r1.error);
        WritesSplit(log, log1, BootFailed(caps, p.offset, bar0, log1, r1.error).1);
      }
  }

  /** The error path only reads, and raises a `GpuError` when given one. */
  lemma BootFailedOnlyReads(caps: Caps, offset: nat, bar0: (seq<Access>, nat) -> u32, log: seq<Access>, e: Error)
    ensures var (r, out) := BootFailed(caps, offset, bar0, log, e);
      log <= out && Writes(out[|log|..]) == [] && (IsGpuError(e) ==> IsGpuError(r.error))
  {
    if !caps.isGpu {
      BadOkReadsOnlyRead(bar0, log, SwitchDumpOffsets());
    } else if caps.hopper || caps.blackwellPlus {
      CheckedReadsOnlyRead(bar0, log, [offset] + Dwords(0x8f0320, 4));
    } else {
      assert log[|log|..] == [];
    }
  }

  /** `wait_for_boot` returns at once where nothing is polled, and
      otherwise succeeds exactly when its poll does, having made just the
      poll's reads; what the poll's last read saw is `PollEndsOn`'s. */
  lemma BootWaitOk(caps: Caps, bar0: (seq<Access>, nat) -> u32, log: seq<Access>)
    ensures BootPoll(caps).None? ==> BootWait(caps, bar0, log) == (Ok(()), log)
    ensures BootPoll(caps).Some? ==>
      (BootWait(caps, bar0, log).0.Ok? <==> Poll(BootPoll(caps).value, bar0, log, 0).0.Ok?)
    ensures BootPoll(caps).Some? && Poll(BootPoll(caps).value, bar0, log, 0).0.Ok? ==>
      BootWait(caps, bar0, log) == Poll(BootPoll(caps).value, bar0, log, 0)
  {
  }

  /** The boot poll is satisfied exactly by its done value: the mask keeps
      all 32 bits. */
  lemma BootDoneValue(caps: Caps, v: u32)
    requires BootPoll(caps).Some?
    ensures Satisfied(BootPoll(caps).value, v) <==> v == BootPoll(caps).value.value.value
  {
    Pow2Of32();
    AndFullMask(v, 32);
  }

  /** `query_cc_mode()` after the accesses `log`: the assertion, None where
      no register holds the mode, otherwise the boot wait and then a
      checked read of the mode register. */
  function CcQuery(caps: Caps, bar0: (seq<Access>, nat) -> u32, log: seq<Access>): (Result<Option<string>>, seq<Access>)
  {
    if !caps.ccQuery then (Err(AssertionError("is_cc_query_supported")), log)
    else match CcModeRegister(caps)
      case None => (Ok(None), log)
      case Some(off) =>
        var (b, log1) := BootWait(caps, bar0, log);
        if b.Err? then (Err(b.error), log1)
        else
          var v := bar0(log1, off);
          (if IsBadf(v) then Err(CheckedRead(off, v).error) else Ok(Some(CcModeOfReg(v))), log1 + [Rd(off, v)])
  }

  /** `query_ppcie_mode()` after the accesses `log`: the assertion, the boot
      wait, then a checked read of the mode register. */
  function PpcieQuery(caps: Caps, bar0: (seq<Access>, nat) -> u32, log: seq<Access>): (Result<string>, seq<Access>)
  {
    if !caps.ppcieQuery then (Err(AssertionError("is_ppcie_query_supported")), log)
    else
      var off := PpcieModeRegister(caps.isGpu);
      var (b, log1) := BootWait(caps, bar0, log);
      if b.Err? then (Err(b.error), log1)
      else
        var v := bar0(log1, off);
        (if IsBadf(v) then Err(CheckedRead(off, v).error) else Ok(PpcieModeOfReg(caps.isGpu, v)), log1 + [Rd(off, v)])
  }

  /** A mode query only reads; a mode it reports is the decode of its last
      read, a good read of the mode register made after a completed boot
      wait; and it raises only `GpuError`s and its assertion. */
  lemma CcQueryMeans(caps: Caps, bar0: (seq<Access>, nat) -> u32, log: seq<Access>)
    ensures var (r, out) := CcQuery(caps, bar0, log);
      log <= out && Writes(out[|log|..]) == []
      && (!caps.ccQuery ==> r == Err(AssertionError("is_cc_query_supported")))
      && (caps.ccQuery && r.Err? ==> IsGpuError(r.error))
      && (r.Ok? && r.value.Some? ==>
            && CcModeRegister(caps).Some? && BootWait(caps, bar0, log).0.Ok?
            && out == BootWait(caps, bar0, log).1 + [out[|out| - 1]] && |out| > |log|
            && out[|out| - 1].Rd? && out[|out| - 1].offset == CcModeRegister(caps).value
            && !IsBadf(out[|out| - 1].value) && r.value.value == CcModeOfReg(out[|out| - 1].value))
  {
    BootWaitOnlyReads(caps, bar0, log);
    if caps.ccQuery && CcModeRegister(caps).Some? {
      var off := CcModeRegister(caps).value;
      var (b, log1) := BootWait(caps, bar0, log);
      if b.Ok? {
        var v := bar0(log1, off);
        CheckedReadMeans(off, v);
        ReadAppended(log, log1, Rd(off, v));
      }
    } else {
      assert log[|log|..] == [];
    }
  }

  lemma PpcieQueryMeans(caps: Caps, bar0: (seq<Access>, nat) -> u32, log: seq<Access>)
    ensures var (r, out) := PpcieQuery(caps, bar0, log);
      log <= out && Writes(out[|log|..]) == []
      && (!caps.ppcieQuery ==> r == Err(AssertionError("is_ppcie_query_supported")))
      && (caps.ppcieQuery && r.Err? ==> IsGpuError(r.error))
      && (r.Ok? ==>
            && caps.ppcieQuery && BootWait(caps, bar0, log).0.Ok?
            && out == BootWait(caps, bar0, log).1 + [out[|out| - 1]] && |out| > |log|
            && out[|out| - 1].Rd? && out[|out| - 1].offset == PpcieModeRegister(caps.isGpu)
            && !IsBadf(out[|out| - 1].value) && r.value == PpcieModeOfReg(caps.isGpu, out[|out| - 1].value))
  {
    BootWaitOnlyReads(caps, bar0, log);
    if caps.ppcieQuery {
      var off := PpcieModeRegister(caps.isGpu);
      var (b, log1) := BootWait(caps, bar0, log);
      if b.Ok? {
        var v := bar0(log1, off);
        CheckedReadMeans(off, v);
        ReadAppended(log, log1, Rd(off, v));
      }
    } else {
      assert log[|log|..] == [];
    }
  }

  /** The mode checks at the start of `knobs_set` after the accesses `log`:
      the CC query where CC can be queried, then the PPCIe query where PPCIe
      can; the knob states are trusted when the caller knows of no pending
      settings and neither mode reads "on". */
  function ModesTrusted(caps: Caps, bar0: (seq<Access>, nat) -> u32, log: seq<Access>, noPending: bool): (Result<bool>, seq<Access>)
  {
    var (cc, log1) := if caps.ccQuery then CcQuery(caps, bar0, log) else (Ok(None), log);
    if cc.Err? then (Err(cc.error), log1)
    else
      var (pp, log2) := if caps.ppcieQuery then PpcieQuery(caps, bar0, log1) else (Ok("off"), log1);
      if pp.Err? then (Err(pp.error), log2)
      else (Ok(noPending && cc.value != Some("on") && pp.value != "on"), log2)
  }

  /** The checks only read; they trust the states only when the caller
      knows of no pending settings; an error they raise is a `GpuError`. */
  lemma ModesTrustedMeans(caps: Caps, bar0: (seq<Access>, nat) -> u32, log: seq<Access>, noPending: bool)
    ensures var (r, out) := ModesTrusted(caps, bar0, log, noPending);
      log <= out && Writes(out[|log|..]) == []
      && (r.Err? ==> IsGpuError(r.error))
      && (r == Ok(true) ==> noPending)
  {
    var c := if caps.ccQuery then CcQuery(caps, bar0, log) else (Ok(None), log);
    if caps.ccQuery {
      CcQueryMeans(caps, bar0, log);
    } else {
      assert log[|log|..] == [];
    }
    if c.0.Ok? {
      var q := if caps.ppcieQuery then PpcieQuery(caps, bar0, c.1) else (Ok("off"), c.1);
      if caps.ppcieQuery {
        PpcieQueryMeans(caps, bar0, c.1);
      } else {
        assert c.1[|c.1|..] == [];
      }
      WritesSplit(log, c.1, q.1);
      ModesTrustedUnfold(caps, bar0, log, noPending);
    } else {
      assert ModesTrusted(caps, bar0, log, noPending) == (Err(c.0.error), c.1);
    }
  }

  /** When the checks distrust the states although the caller knew of no
      pending settings, one of their reads is a good read of a mode register
      decoding to "on". */
  lemma ModesDistrustedOn(caps: Caps, bar0: (seq<Access>, nat) -> u32, log: seq<Access>)
    ensures var (r, out) := ModesTrusted(caps, bar0, log, true);
      r == Ok(false) ==> exists i :: |log| <= i < |out| && ReadsOn(caps, out[i])
  {
    var c := if caps.ccQuery then CcQuery(caps, bar0, log) else (Ok(None), log);
    if caps.ccQuery {
      CcQueryMeans(caps, bar0, log);
    }
    if c.0.Ok? {
      var q := if caps.ppcieQuery then PpcieQuery(caps, bar0, c.1) else (Ok("off"), c.1);
      if caps.ppcieQuery {
        PpcieQueryMeans(caps, bar0, c.1);
      }
      ModesTrustedUnfold(caps, bar0, log, true);
      if q.0.Ok? {
        if c.0.value == Some("on") {
          var i := |c.1| - 1;
          assert q.1[..|c.1|] == c.1;
          assert q.1[i] == c.1[i];
          assert ReadsOn(caps, q.1[i]);
        } else if q.0.value == "on" {
          assert ReadsOn(caps, q.1[|q.1| - 1]);
        }
      }
    }
  }

  /** The checks past a cc query that did not fail: the ppcie query, and the
      verdict from both modes. */
  lemma ModesTrustedUnfold(caps: Caps, bar0: (seq<Access>, nat) -> u32, log: seq<Access>, noPending: bool)
    requires caps.ccQuery ==> CcQuery(caps, bar0, log).0.Ok?
    ensures var c := if caps.ccQuery then CcQuery(caps, bar0, log) else (Ok(None), log);
      var q := if caps.ppcieQuery then PpcieQuery(caps, bar0, c.1) else (Ok("off"), c.1);
      ModesTrusted(caps, bar0, log, noPending)
        == if q.0.Err? then (Err(q.0.error), q.1)
           else (Ok(noPending && c.0.value != Some("on") && q.0.value != "on"), q.1)
  {
  }

  // -----------------------------------------------------------------------
  // knobs_query

  /** `query_final_ecc_state` and `query_mig_mode`, which are not part of
      this model: given the knob and the accesses so far, the state they
      report or the exception they raise, and the accesses they make. */
  type StateQuery = (string, seq<Access>) -> (Result<bool>, seq<Access>)

  /** One pass of the `knobs_query` loop after the accesses `log`: the CC
      and PPCIe mode queries, `other` for "ecc" and "mig", and a
      `ValueError` for any other knob. */
  function KnobQuery(caps: Caps, bar0: (seq<Access>, nat) -> u32, log: seq<Access>,
                     other: StateQuery, k: string): (Result<KnobValue>, seq<Access>)
  {
    if k == "cc" then
      var (r, out) := CcQuery(caps, bar0, log);
      (if r.Err? then Err(r.error) else if r.value.None? then Ok(NoValue) else Ok(Mode(r.value.value)), out)
    else if k == "ppcie" then
      var (r, out) := PpcieQuery(caps, bar0, log);
      (if r.Err? then Err(r.error) else Ok(Mode(r.value)), out)
    else if k == "ecc" || k == "mig" then
      var (r, made) := other(k, log);
      (if r.Err? then Err(r.error) else Ok(Flag(r.value)), log + made)
    else (Err(ValueError("Unhandled " + k)), log)
  }

  /** `knobs_query(names)` after the accesses `log`: the states of the
      knobs queried one after the other, stopping at the first exception. */
  function KnobsQuery(caps: Caps, bar0: (seq<Access>, nat) -> u32, log: seq<Access>,
                      other: StateQuery, names: seq<string>): (Result<map<string, KnobValue>>, seq<Access>)
    decreases |names|
  {
    if names == [] then (Ok(map[]), log)
    else
      var (prev, log1) := KnobsQuery(caps, bar0, log, other, names[..|names| - 1]);
      if prev.Err? then (prev, log1)
      else
        var k := names[|names| - 1];
        var (q, log2) := KnobQuery(caps, bar0, log1, other, k);
        (if q.Err? then Err(q.error) else Ok(prev.value[k := q.value]), log2)
  }

  /** The `current_state` dictionary as the settings loop looks it up. */
  function StateOf(state: map<string, KnobValue>): string -> KnobValue
  {
    k => if k in state then state[k] else NoValue
  }

  /** Once a prefix of the names raises, the query raises the same with the
      same accesses. */
  lemma {:induction false} KnobsQueryStops(caps: Caps, bar0: (seq<Access>, nat) -> u32, log: seq<Access>,
                                           other: StateQuery, names: seq<string>, n: nat)
    requires n <= |names|
    requires KnobsQuery(caps, bar0, log, other, names[..n]).0.Err?
    ensures KnobsQuery(caps, bar0, log, other, names) == KnobsQuery(caps, bar0, log, other, names[..n])
    decreases |names| - n
  {
    if n < |names| {
      assert names[..n + 1][..n] == names[..n];
      KnobsQueryStops(caps, bar0, log, other, names, n + 1);
    } else {
      assert names[..n] == names;
    }
  }

  /** The query only extends the accesses; when it reports, every name is
      one of "cc", "ppcie", "ecc" and "mig" and the report has exactly the
      names as keys, each holding what its own query reported; and the first
      unhandled name raises `ValueError` before any later knob is queried. */
  lemma {:induction false} KnobsQueryMeans(caps: Caps, bar0: (seq<Access>, nat) -> u32, log: seq<Access>,
                                           other: StateQuery, names: seq<string>)
    ensures var (r, out) := KnobsQuery(caps, bar0, log, other, names);
      && log <= out
      && (r.Ok? ==> (forall k :: k in names ==> Handled(k)) && (forall k :: k in r.value <==> k in names))
      && (forall j :: (0 <= j < |names| && !Handled(names[j])
                       && KnobsQuery(caps, bar0, log, other, names[..j]).0.Ok?) ==>
            r == Err(ValueError("Unhandled " + names[j]))
            && out == KnobsQuery(caps, bar0, log, other, names[..j]).1)
    decreases |names|
  {
    if names != [] {
      var init := names[..|names| - 1];
      KnobsQueryMeans(caps, bar0, log, other, init);
      var (prev, log1) := KnobsQuery(caps, bar0, log, other, init);
      var k := names[|names| - 1];
      if prev.Ok? {
        KnobQueryExtends(caps, bar0, log1, other, k);
      }
      forall j | 0 <= j < |names| && !Handled(names[j]) && KnobsQuery(caps, bar0, log, other, names[..j]).0.Ok?
        ensures KnobsQuery(caps, bar0, log, other, names)
                  == (Err(ValueError("Unhandled " + names[j])), KnobsQuery(caps, bar0, log, other, names[..j]).1)
      {
        assert names[..j + 1][..j] == names[..j];
        KnobsQueryStops(caps, bar0, log, other, names, j + 1);
      }
    }
  }

  lemma KnobQueryExtends(caps: Caps, bar0: (seq<Access>, nat) -> u32, log: seq<Access>, other: StateQuery, k: string)
    ensures var (r, out) := KnobQuery(caps, bar0, log, other, k);
      log <= out && (r.Ok? ==> Handled(k))
  {
    if k == "cc" {
      CcQueryMeans(caps, bar0, log);
    } else if k == "ppcie" {
      PpcieQueryMeans(caps, bar0, log);
    }
  }

  /** The `query_cc_mode_hopper`/`_blackwell` decode of the CC register's
      low two bits: bit 0 is CC on, bit 1 devtools. */
  function CcModeOfReg(reg: nat): string
  {
    var state := And(reg, 3);
    if state == 3 then "devtools"
    else if state == 1 then "on"
    else if state == 0 then "off"
    else "invalid-devtools-only-fix-by-setting-cc-mode"
  }

  /** The register `query_cc_mode` reads: 0x1182cc on Hopper, 0x590 on
      Blackwell and later; on other devices it returns None. */
  function CcModeRegister(caps: Caps): Option<nat>
  {
    if caps.hopper then Some(0x1182cc) else if caps.blackwellPlus then Some(0x590) else None
  }

  lemma CcStateBits(reg: nat)
    ensures And(reg, 3) == reg % 4
  {
    AndLowMask(reg, 2);
    assert Pow2(2) == 4 by { assert Pow2(1) == 2; }
  }

  /** Reading back a mode `set_cc_mode` accepts: a register whose bit 0
      holds the CCM value and bit 1 the CCD value decodes to that mode. */
  lemma CcModeRoundTrip(mode: string, reg: nat)
    requires CcModeValues(mode).Ok?
    requires reg % 4 == CcModeValues(mode).value.ccm + 2 * CcModeValues(mode).value.ccd
    ensures CcModeOfReg(reg) == mode
  {
    CcStateBits(reg);
  }

  /** Conversely every register decodes to a mode `set_cc_mode` accepts,
      with the same bits, except CCD on with CCM off (0b10), which decodes
      to the invalid state. */
  lemma CcModeOfRegValid(reg: nat)
    ensures CcModeValues(CcModeOfReg(reg)).Ok? <==> reg % 4 != 2
    ensures reg % 4 != 2 ==>
      var v := CcModeValues(CcModeOfReg(reg)).value;
      v.ccm + 2 * v.ccd == reg % 4
  {
    CcStateBits(reg);
  }

  /** The invalid decode is exactly the state the setters never pass
      through: CCD on while CCM is off. */
  lemma InvalidDecodeIsCcdWithoutCcm(t: Table)
    requires Get(t, Prc.CCM) <= 1 && Get(t, Prc.CCD) <= 1
    ensures CcModeOfReg(Get(t, Prc.CCM) + 2 * Get(t, Prc.CCD)) == "invalid-devtools-only-fix-by-setting-cc-mode"
      <==> CcdWithoutCcm(t)
  {
    CcStateBits(Get(t, Prc.CCM) + 2 * Get(t, Prc.CCD));
  }

  /** `query_bar0_firewall_mode`: "on" exactly when bit 2 of register 0x590
      is set. */
  function Bar0FirewallModeOfReg(reg: nat): (r: string)
    ensures r == "on" || r == "off"
  {
    if And(reg, 4) == 4 then "on" else "off"
  }

  lemma Bar0FirewallModeBit(reg: nat)
    ensures Bar0FirewallModeOfReg(reg) == "on" <==> Bit(reg, 2) == 1
  {
    AndSingleBit(reg, 2);
    assert Pow2(2) == 4 by { assert Pow2(1) == 2; }
  }

  /** `query_ppcie_mode`: bit 5 of 0x1182cc on a GPU, bit 0 of 0x28c50 on an
      NVSwitch. */
  function PpcieModeOfReg(isGpu: bool, reg: nat): string
  {
    if isGpu then (if And(reg, 0x20) == 0x20 then "on" else "off")
    else (if And(reg, 0x1) == 0x1 then "on" else "off")
  }

  function PpcieModeRegister(isGpu: bool): nat
  {
    if isGpu then 0x1182cc else 0x28c50
  }

  lemma PpcieModeBit(isGpu: bool, reg: nat)
    ensures PpcieModeOfReg(isGpu, reg) == "on" <==> Bit(reg, if isGpu then 5 else 0) == 1
  {
    AndSingleBit(reg, 5);
    AndSingleBit(reg, 0);
    Pow2Values();
  }

  // -----------------------------------------------------------------------
  // The operations on a GPU

  /** The parts of a `Gpu` the knob operations use: what it supports, its
      BAR0 and its FSP RPC channel. */
  class Gpu {
    const caps: Caps
    const dev: Device
    const rpc: FspRpc

    constructor(caps: Caps, dev: Device, rpc: FspRpc)
      ensures this.caps == caps && this.dev == dev && this.rpc == rpc
    {
      this.caps := caps;
      this.dev := dev;
      this.rpc := rpc;
    }

    /** `wait_for_boot()` */
    method WaitForBoot() returns (r: Result<()>)
      modifies dev
      ensures (r, dev.log) == BootWait(caps, dev.bar0, old(dev.log))
    {
      match BootPoll(caps) {
        case None =>
          r := Ok(());
        case Some(p) =>
          r := PollRegister(dev, p);
          if r.Err? {
            r := FailBoot(p.offset, r.error);
          }
      }
    }

    /** The `except GpuError` branch of `wait_for_boot` after the poll of
        `offset` failed with `e`. */
    method FailBoot(offset: nat, e: Error) returns (r: Result<()>)
      modifies dev
      ensures (r, dev.log) == BootFailed(caps, offset, dev.bar0, old(dev.log), e)
    {
      r := Err(e);
      if !caps.isGpu {
        DumpRegisters(SwitchDumpOffsets());
      } else if caps.hopper || caps.blackwellPlus {
        var first := dev.Read(offset);
        if first.Err? {
          r := Err(first.error);
          return;
        }
        assert ([offset] + Dwords(0x8f0320, 4))[1..] == Dwords(0x8f0320, 4);
        var d := ReadAll(Dwords(0x8f0320, 4));
        if d.Err? {
          r := d;
        }
      }
    }

    /** The checked reads of `wait_for_boot`'s debug message. */
    method ReadAll(offsets: seq<nat>) returns (r: Result<()>)
      modifies dev
      ensures (r, dev.log) == CheckedReads(dev.bar0, old(dev.log), offsets)
    {
      var i := 0;
      while i < |offsets|
        invariant 0 <= i <= |offsets|
        invariant CheckedReads(dev.bar0, dev.log, offsets[i..]) == CheckedReads(dev.bar0, old(dev.log), offsets)
      {
        var v := dev.Read(offsets[i]);
        assert offsets[i..][1..] == offsets[i + 1..];
        if v.Err? {
          return Err(v.error);
        }
        i := i + 1;
      }
      r := Ok(());
    }

    /** `NvSwitch.debug_dump()`: one `read_bad_ok` per register. */
    method DumpRegisters(offsets: seq<nat>)
      modifies dev
      ensures dev.log == BadOkReads(dev.bar0, old(dev.log), offsets)
    {
      for i := 0 to |offsets|
        invariant BadOkReads(dev.bar0, dev.log, offsets[i..]) == BadOkReads(dev.bar0, old(dev.log), offsets)
      {
        var _ := dev.ReadBadOk(offsets[i]);
        assert offsets[i..][1..] == offsets[i + 1..];
      }
    }

    /** `query_cc_mode()` */
    method QueryCcMode() returns (r: Result<Option<string>>)
      modifies dev
      ensures (r, dev.log) == CcQuery(caps, dev.bar0, old(dev.log))
    {
      if !caps.ccQuery {
        return Err(AssertionError("is_cc_query_supported"));
      }
      match CcModeRegister(caps) {
        case None =>
          r := Ok(None);
        case Some(off) =>
          var b := WaitForBoot();
          if b.Err? {
            return Err(b.error);
          }
          var reg := dev.Read(off);
          if reg.Err? {
            return Err(reg.error);
          }
          r := Ok(Some(CcModeOfReg(reg.value)));
      }
    }

    /** `query_bar0_firewall_mode()` */
    method QueryBar0FirewallMode() returns (r: Result<string>)
      modifies dev
      ensures !caps.bar0Firewall ==> r == Err(AssertionError("is_bar0_firewall_supported")) && dev.log == old(dev.log)
      ensures caps.bar0Firewall ==>
        var v := old(dev.Next(0x590));
        dev.log == old(dev.log) + [Rd(0x590, v)]
        && r == (if CheckedRead(0x590, v).Ok? then Ok(Bar0FirewallModeOfReg(v)) else Err(CheckedRead(0x590, v).error))
    {
      if !caps.bar0Firewall {
        return Err(AssertionError("is_bar0_firewall_supported"));
      }
      var config := dev.Read(0x590);
      if config.Err? {
        return Err(config.error);
      }
      r := Ok(Bar0FirewallModeOfReg(config.value));
    }

    /** `query_ppcie_mode()` */
    method QueryPpcieMode() returns (r: Result<string>)
      modifies dev
      ensures (r, dev.log) == PpcieQuery(caps, dev.bar0, old(dev.log))
    {
      if !caps.ppcieQuery {
        return Err(AssertionError("is_ppcie_query_supported"));
      }
      var b := WaitForBoot();
      if b.Err? {
        return Err(b.error);
      }
      var reg := dev.Read(PpcieModeRegister(caps.isGpu));
      if reg.Err? {
        return Err(reg.error);
      }
      r := Ok(PpcieModeOfReg(caps.isGpu, reg.value));
    }

    /** The PPCIe probe of `set_cc_mode`: the knob is read where PPCIe can
        be queried, and an invalid-knob answer means no PPCIe. */
    method ProbePpcie() returns (r: Result<bool>)
      requires rpc.maxWords >= 2
      modifies rpc
      ensures (r, rpc.sent) == PpcieProbe(rpc.reply, old(rpc.sent), caps.ppcieQuery)
    {
      if !caps.ppcieQuery {
        return Ok(false);
      }
      var rp := rpc.PrcKnobRead(Prc.PPCIE);
      if rp.Ok? {
        r := Ok(true);
      } else if IsInvalidKnob(rp.error) {
        r := Ok(false);
      } else {
        r := Err(rp.error);
      }
    }

    /** Knobs 2, 4 and 34 are zeroed before CC or PPCIe is enabled; for CC
        also the PPCIe knob, where the firmware has it. */
    method ZeroKnobs(ppcie: bool) returns (r: Result<()>)
      requires rpc.maxWords >= 2
      modifies rpc
      ensures (r, rpc.sent) ==
        RunPlan(CheckAndWriteStep(rpc.reply), old(rpc.sent), ClearKnobs + (if ppcie then [Assign(Prc.PPCIE, 0)] else []))
    {
      ghost var step := CheckAndWriteStep(rpc.reply);
      ghost var s0 := rpc.sent;
      ghost var p := if ppcie then [Assign(Prc.PPCIE, 0)] else [];
      assert ClearKnobs + p == [Assign(2, 0)] + ([Assign(4, 0)] + ([Assign(34, 0)] + p));
      RunPlanCons(step, s0, Assign(2, 0), [Assign(4, 0)] + ([Assign(34, 0)] + p));
      r := rpc.PrcKnobCheckAndWrite(2, 0);
      if r.Err? {
        return;
      }
      ghost var s1 := rpc.sent;
      RunPlanCons(step, s1, Assign(4, 0), [Assign(34, 0)] + p);
      r := rpc.PrcKnobCheckAndWrite(4, 0);
      if r.Err? {
        return;
      }
      ghost var s2 := rpc.sent;
      RunPlanCons(step, s2, Assign(34, 0), p);
      r := rpc.PrcKnobCheckAndWrite(34, 0);
      if r.Err? {
        return;
      }
      if ppcie {
        RunPlanOne(step, rpc.sent, Assign(Prc.PPCIE, 0));
        r := rpc.PrcKnobCheckAndWrite(Prc.PPCIE, 0);
      }
    }

    /** Two `prc_knob_check_and_write` calls in order; the first error ends them. */
    method CheckAndWritePair(a: Assign, b: Assign) returns (r: Result<()>)
      requires rpc.maxWords >= 2
      modifies rpc
      ensures (r, rpc.sent) == RunPlan(CheckAndWriteStep(rpc.reply), old(rpc.sent), [a, b])
    {
      ghost var step := CheckAndWriteStep(rpc.reply);
      assert [a, b] == [a] + [b];
      RunPlanCons(step, rpc.sent, a, [b]);
      r := rpc.PrcKnobCheckAndWrite(a.knob, a.value);
      if r.Err? {
        return;
      }
      RunPlanOne(step, rpc.sent, b);
      r := rpc.PrcKnobCheckAndWrite(b.knob, b.value);
    }

    /** `set_cc_mode(mode)` */
    method SetCcMode(mode: string) returns (r: Result<()>)
      requires rpc.maxWords >= 2
      modifies rpc
      ensures (r, rpc.sent) == CcModeCalls(rpc.reply, old(rpc.sent), caps, mode)
    {
      if !caps.ccQuery {
        return Err(AssertionError("is_cc_query_supported"));
      }
      var values := CcModeValues(mode);
      if values.Err? {
        return Err(values.error);
      }
      var v := values.value;
      var ppcie := ProbePpcie();
      if ppcie.Err? {
        return Err(ppcie.error);
      }
      ghost var step := CheckAndWriteStep(rpc.reply);
      ghost var s0 := rpc.sent;
      ghost var zero := if v.ccm == 1 then ClearKnobs + (if ppcie.value then [Assign(Prc.PPCIE, 0)] else []) else [];
      ghost var bar0 := if caps.hopper then [Assign(Prc.BAR0_DECOUPLER, v.bar0)] else [];
      RunPlanAppend(step, s0, zero + bar0, CcLast(v));
      RunPlanAppend(step, s0, zero, bar0);
      r := Ok(());
      if v.ccm == 1 {
        r := ZeroKnobs(ppcie.value);
        if r.Err? {
          return;
        }
      }
      ghost var s1 := rpc.sent;
      if caps.hopper {
        RunPlanOne(step, s1, Assign(Prc.BAR0_DECOUPLER, v.bar0));
        r := rpc.PrcKnobCheckAndWrite(Prc.BAR0_DECOUPLER, v.bar0);
        if r.Err? {
          return;
        }
      }
      // CCM is enabled first and disabled last, so that CCD is never on
      // while CCM is off.
      if v.ccm == 1 {
        r := CheckAndWritePair(Assign(Prc.CCM, v.ccm), Assign(Prc.CCD, v.ccd));
      } else {
        r := CheckAndWritePair(Assign(Prc.CCD, v.ccd), Assign(Prc.CCM, v.ccm));
      }
    }

    /** `set_ppcie_mode(mode)` */
    method SetPpcieMode(mode: string) returns (r: Result<()>)
      requires rpc.maxWords >= 2
      modifies rpc
      ensures (r, rpc.sent) == PpcieModeCalls(rpc.reply, old(rpc.sent), caps, mode)
    {
      if !caps.ppcieQuery {
        return Err(AssertionError("is_ppcie_query_supported"));
      }
      var values := PpcieModeValues(mode, caps.isGpu);
      if values.Err? {
        return Err(values.error);
      }
      var v := values.value;
      // The CCM knob is only read for a message; an error of the read ends
      // the operation all the same.
      var ccm := rpc.PrcKnobRead(Prc.CCM);
      if ccm.Err? {
        return Err(ccm.error);
      }
      ghost var step := CheckAndWriteStep(rpc.reply);
      ghost var s0 := rpc.sent;
      RunPlanAppend(step, s0, PpciePre(v) + PpcieLast(v), PpciePost(v));
      RunPlanAppend(step, s0, PpciePre(v), PpcieLast(v));
      r := Ok(());
      if v.ppcie == 1 {
        assert ClearKnobs + [] == ClearKnobs;
        r := ZeroKnobs(false);
        if r.Err? {
          return;
        }
        r := CheckAndWritePair(Assign(Prc.CCD, 0), Assign(Prc.CCM, 0));
        if r.Err? {
          return;
        }
      }
      r := CheckAndWritePair(Assign(Prc.BAR0_DECOUPLER, v.bar0), Assign(Prc.PPCIE, v.ppcie));
    }

    /** `set_bar0_firewall_mode(mode)` */
    method SetBar0FirewallMode(mode: string) returns (r: Result<()>)
      requires rpc.maxWords >= 2
      modifies rpc
      ensures (r, rpc.sent) == Bar0FirewallModeCalls(rpc.reply, old(rpc.sent), caps, mode)
    {
      if !caps.bar0Firewall {
        return Err(AssertionError("is_bar0_firewall_supported"));
      }
      r := rpc.PrcKnobCheckAndWrite(Prc.BAR0_DECOUPLER, Bar0FirewallValue(mode));
    }

    /** `query_prc_knobs()` */
    method QueryPrcKnobs() returns (r: Result<seq<(string, KnobState)>>)
      requires rpc.maxWords >= 2
      modifies rpc
      ensures (r, rpc.sent) == PrcKnobsCalls(rpc.reply, old(rpc.sent), caps)
    {
      if !caps.hasFsp {
        return Err(AssertionError("has_fsp"));
      }
      var ids := KnobIds();
      var knobName := Prc.StrFromKnobId;
      var state: seq<(string, KnobState)> := [];
      var i := 0;
      while i < |ids|
        invariant 0 <= i <= |ids|
        invariant (Ok(state), rpc.sent) == QueryKnobs(KnobReadStep(rpc.reply), knobName, old(rpc.sent), ids[..i])
      {
        var name := knobName(ids[i]);
        ghost var s1 := rpc.sent;
        var v := rpc.PrcKnobRead(ids[i]);
        assert (v, rpc.sent) == KnobReadStep(rpc.reply)(s1, ids[i]);
        QueryKnobsNext(KnobReadStep(rpc.reply), knobName, old(rpc.sent), ids, i);
        if v.Err? {
          if !IsInvalidKnob(v.error) {
            QueryKnobsStops(KnobReadStep(rpc.reply), knobName, old(rpc.sent), ids, i + 1);
            return Err(v.error);
          }
          state := state + [(name, Invalid)];
        } else {
          state := state + [(name, Value(v.value))];
        }
        i := i + 1;
      }
      assert ids[..i] == ids;
      r := Ok(state);
    }

    /** The mode checks at the start of `knobs_set`. */
    method KnobStatesTrusted(noPending: bool) returns (r: Result<bool>)
      modifies dev
      ensures (r, dev.log) == ModesTrusted(caps, dev.bar0, old(dev.log), noPending)
    {
      var trusted := noPending;
      var cc: Result<Option<string>> := Ok(None);
      if caps.ccQuery {
        cc := QueryCcMode();
        if cc.Err? {
          return Err(cc.error);
        }
        if cc.value == Some("on") {
          trusted := false;
        }
      }
      if caps.ppcieQuery {
        var pp := QueryPpcieMode();
        if pp.Err? {
          return Err(pp.error);
        }
        if pp.value == "on" {
          trusted := false;
        }
      }
      r := Ok(trusted);
    }

    /** The settings loop of `knobs_set` with `current_state` given as
        `current`. */
    method SetKnobsLoop(knobs: seq<(string, KnobValue)>, current: string -> KnobValue,
                        other: (string, KnobValue) -> Result<()>) returns (r: Result<seq<string>>)
      requires rpc.maxWords >= 2
      modifies rpc
      ensures (r, rpc.sent) == SetKnobs(KnobSetStep(rpc.reply, caps, other), caps.ampere, current, old(rpc.sent), knobs)
    {
      ghost var step := KnobSetStep(rpc.reply, caps, other);
      ghost var s0 := rpc.sent;
      var modified: seq<string> := [];
      var i := 0;
      while i < |knobs|
        invariant 0 <= i <= |knobs|
        invariant (Ok(modified), rpc.sent) == SetKnobs(step, caps.ampere, current, s0, knobs[..i])
      {
        var (k, v) := knobs[i];
        SetKnobsNext(step, caps.ampere, current, s0, knobs, i);
        if current(k) == v {
          i := i + 1;
          continue;
        }
        if !Handled(k) {
          SetKnobsStops(step, caps.ampere, current, s0, knobs, i + 1);
          return Err(ValueError("Unhandled " + k));
        }
        if k == "ecc" && !caps.ampere && !Truthy(v) {
          SetKnobsStops(step, caps.ampere, current, s0, knobs, i + 1);
          return Err(ValueError("knob ecc only supports enabled state"));
        }
        ghost var s1 := rpc.sent;
        var e: Result<()>;
        if k == "cc" {
          e := SetCcMode(ModeArg(v));
        } else if k == "ppcie" {
          e := SetPpcieMode(ModeArg(v));
        } else {
          e := other(k, v);
        }
        assert (e, rpc.sent) == step(s1, k, v);
        if e.Err? {
          if k == "ppcie" && IsInvalidKnob(e.error) {
            i := i + 1;
            continue;
          }
          SetKnobsStops(step, caps.ampere, current, s0, knobs, i + 1);
          return Err(e.error);
        }
        modified := modified + [k];
        i := i + 1;
      }
      assert knobs[..i] == knobs;
      r := Ok(modified);
    }

    /** `knobs_query(names)`. */
    method QueryKnobStates(names: seq<string>, other: StateQuery) returns (r: Result<map<string, KnobValue>>)
      modifies dev
      ensures (r, dev.log) == KnobsQuery(caps, dev.bar0, old(dev.log), other, names)
    {
      var state: map<string, KnobValue> := map[];
      var i := 0;
      while i < |names|
        invariant 0 <= i <= |names|
        invariant (Ok(state), dev.log) == KnobsQuery(caps, dev.bar0, old(dev.log), other, names[..i])
      {
        var k := names[i];
        assert names[..i + 1][..i] == names[..i];
        var v: KnobValue;
        if k == "cc" {
          var cc := QueryCcMode();
          if cc.Err? {
            KnobsQueryStops(caps, dev.bar0, old(dev.log), other, names, i + 1);
            return Err(cc.error);
          }
          v := if cc.value.None? then NoValue else Mode(cc.value.value);
        } else if k == "ppcie" {
          var pp := QueryPpcieMode();
          if pp.Err? {
            KnobsQueryStops(caps, dev.bar0, old(dev.log), other, names, i + 1);
            return Err(pp.error);
          }
          v := Mode(pp.value);
        } else if k == "ecc" || k == "mig" {
          var (q, made) := other(k, dev.log);
          dev.log := dev.log + made;
          if q.Err? {
            KnobsQueryStops(caps, dev.bar0, old(dev.log), other, names, i + 1);
            return Err(q.error);
          }
          v := Flag(q.value);
        } else {
          KnobsQueryStops(caps, dev.bar0, old(dev.log), other, names, i + 1);
          return Err(ValueError("Unhandled " + k));
        }
        state := state[k := v];
        i := i + 1;
      }
      assert names[..i] == names;
      r := Ok(state);
    }

    /** `knobs_set(knobs, no_pending)`, whose flag `noPending` says the
        caller knows of no pending settings. Where the knob states are
        trusted they come from `knobs_query`, with `query` for the ECC and
        MIG queries, and an exception it raises (an unhandled knob among
        them) ends the call before anything is set; where they are not
        trusted every knob counts as "unknown". `other` is what the ECC and
        MIG setters return. */
    method KnobsSet(knobs: seq<(string, KnobValue)>, noPending: bool,
                    query: StateQuery, other: (string, KnobValue) -> Result<()>)
      returns (r: Result<seq<string>>)
      requires rpc.maxWords >= 2
      modifies dev, rpc
      ensures var (t, log) := ModesTrusted(caps, dev.bar0, old(dev.log), noPending);
        var (q, qlog) := if t == Ok(true) then KnobsQuery(caps, dev.bar0, log, query, Names(knobs)) else (Ok(map[]), log);
        && dev.log == qlog
        && (t.Err? ==> r == Err(t.error) && rpc.sent == old(rpc.sent))
        && (t.Ok? && q.Err? ==> r == Err(q.error) && rpc.sent == old(rpc.sent))
        && (t.Ok? && q.Ok? ==>
              (r, rpc.sent) == SetKnobs(KnobSetStep(rpc.reply, caps, other), caps.ampere,
                                        if t.value then StateOf(q.value) else _ => Unknown, old(rpc.sent), knobs))
      ensures ModesTrusted(caps, dev.bar0, old(dev.log), noPending).0 == Ok(true)
              && (exists i :: 0 <= i < |knobs| && !Handled(knobs[i].0))
              ==> r.Err? && rpc.sent == old(rpc.sent)
    {
      var trusted := KnobStatesTrusted(noPending);
      if trusted.Err? {
        return Err(trusted.error);
      }
      var current: string -> KnobValue := _ => Unknown;
      if trusted.value {
        ghost var log := dev.log;
        var names := Names(knobs);
        var state := QueryKnobStates(names, query);
        KnobsQueryMeans(caps, dev.bar0, log, query, names);
        if state.Err? {
          return Err(state.error);
        }
        current := StateOf(state.value);
      }
      r := SetKnobsLoop(knobs, current, other);
    }
  }
}
