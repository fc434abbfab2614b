/**
 * The register side of `NvidiaDevice` (nvidia_gpu_tools.py): 32-bit BAR0
 * reads and writes, the `0xbadf????` check of `Gpu.read` / `NvSwitch.read`,
 * and the two register polling loops.
 *
 * The hardware and its firmware are an oracle: what a read returns is a
 * function of every access made before it.  Time is counted in loop
 * iterations: the k-th pass of a polling loop is k ticks after its start,
 * and `timeout` is a number of ticks.
 */
module Devices {
  import opened Bits
  import opened Text
  import opened GpuErrors

  /** One BAR0 access: a 32-bit read and the value it returned, or a 32-bit write. */
  datatype Access = Rd(offset: nat, value: u32) | Wr(offset: nat, value: u32)

  /** `data >> 16 == 0xbadf`: the pattern a failed BAR0 read returns. */
  predicate IsBadf(v: nat)
  {
    Shr(v, 16) == 0xbadf
  }

  /** The bad values are exactly the 64K values 0xbadf0000 ..= 0xbadfffff. */
  lemma BadfRange(v: nat)
    ensures IsBadf(v) <==> 0xbadf_0000 <= v <= 0xbadf_ffff
  {
    ShrIsDiv(v, 16);
    Pow2Of16();
  }

  /** `Gpu.read(reg)` once `bar0.read32(reg)` has returned `v`. */
  function CheckedRead(offset: nat, v: u32): Result<u32>
  {
    if IsBadf(v) then Err(GpuError("reg " + Hex(offset) + " = " + Hex(v) + ", bad?"))
    else Ok(v)
  }

  /** `read` passes every value through except the bad ones, which raise `GpuError`. */
  lemma CheckedReadMeans(offset: nat, v: u32)
    ensures CheckedRead(offset, v).Ok? <==> !(0xbadf_0000 <= v <= 0xbadf_ffff)
    ensures CheckedRead(offset, v).Ok? ==> CheckedRead(offset, v).value == v
    ensures CheckedRead(offset, v).Err? ==> CheckedRead(offset, v).error.GpuError?
  {
    BadfRange(v);
  }

  class Device {
    /** What `bar0.read32(offset)` returns after the accesses given. */
    const bar0: (seq<Access>, nat) -> u32
    /** Every BAR0 access made through this device, oldest first. */
    var log: seq<Access>

    constructor(bar0: (seq<Access>, nat) -> u32)
      ensures this.bar0 == bar0 && log == []
    {
      this.bar0 := bar0;
      log := [];
    }

    /** The value the next read of `offset` returns. */
    function Next(offset: nat): u32
      reads this
    {
      bar0(log, offset)
    }

    /** `read_bad_ok(reg)`: the raw value, whatever it is. */
    method ReadBadOk(offset: nat) returns (v: u32)
      modifies this
      ensures v == old(Next(offset))
      ensures log == old(log) + [Rd(offset, v)]
    {
      v := bar0(log, offset);
      log := log + [Rd(offset, v)];
    }

    /** `read(reg)`: the raw value, or `GpuError` for a `0xbadf????` value. */
    method Read(offset: nat) returns (r: Result<u32>)
      modifies this
      ensures r == CheckedRead(offset, old(Next(offset)))
      ensures log == old(log) + [Rd(offset, old(Next(offset)))]
    {
      var v := ReadBadOk(offset);
      r := CheckedRead(offset, v);
    }

    /** `check_read(reg)`: whether the value read is good. */
    method CheckRead(offset: nat) returns (good: bool)
      modifies this
      ensures good <==> !IsBadf(old(Next(offset)))
      ensures log == old(log) + [Rd(offset, old(Next(offset)))]
    {
      var v := ReadBadOk(offset);
      good := !IsBadf(v);
    }

    /** `write(reg, data)` */
    method Write(offset: nat, v: u32)
      modifies this
      ensures log == old(log) + [Wr(offset, v)]
    {
      log := log + [Wr(offset, v)];
    }

    /** `write_verbose(reg, data)`: a checked read, the write, a checked read. */
    method WriteVerbose(offset: nat, v: u32) returns (r: Result<()>)
      modifies this
      ensures (r, log) == VerboseWrite(bar0, old(log), offset, v)
    {
      var before := Read(offset);
      if before.Err? {
        return Err(before.error);
      }
      Write(offset, v);
      var after := Read(offset);
      if after.Err? {
        return Err(after.error);
      }
      r := Ok(());
    }
  }

  /** The outcome and the accesses of `write_verbose(offset, v)` after `log`. */
  function VerboseWrite(bar0: (seq<Access>, nat) -> u32, log: seq<Access>, offset: nat, v: u32): (Result<()>, seq<Access>)
  {
    var before := bar0(log, offset);
    var log1 := log + [Rd(offset, before)];
    if IsBadf(before) then (Err(CheckedRead(offset, before).error), log1)
    else
      var log2 := log1 + [Wr(offset, v)];
      var after := bar0(log2, offset);
      (if IsBadf(after) then Err(CheckedRead(offset, after).error) else Ok(()), log2 + [Rd(offset, after)])
  }

  /** `write_verbose` writes the value exactly when the read before it is good,
      and writes nothing else; it succeeds exactly when both reads are good. */
  lemma VerboseWriteMeans(bar0: (seq<Access>, nat) -> u32, log: seq<Access>, offset: nat, v: u32)
    ensures var (r, out) := VerboseWrite(bar0, log, offset, v);
      var before := bar0(log, offset);
      out[..|log|] == log && |out| == |log| + (if IsBadf(before) then 1 else 3)
      && out[|log|] == Rd(offset, before)
      && (!IsBadf(before) ==> out[|log| + 1] == Wr(offset, v) && out[|log| + 2].Rd? && out[|log| + 2].offset == offset)
      && (r.Ok? <==> !IsBadf(before) && !IsBadf(out[|out| - 1].value))
      && (r.Err? ==> r.error.GpuError?)
  {
  }

  /** The writes among `log`, in order. */
  function Writes(log: seq<Access>): (r: seq<Access>)
    ensures |r| <= |log|
  {
    if |log| == 0 then []
    else Writes(log[..|log| - 1]) + (if log[|log| - 1].Wr? then [log[|log| - 1]] else [])
  }

  lemma {:induction false} WritesAppend(a: seq<Access>, b: seq<Access>)
    ensures Writes(a + b) == Writes(a) + Writes(b)
    decreases |b|
  {
    if |b| == 0 {
      assert a + b == a;
    } else {
      assert (a + b)[..|a + b| - 1] == a + b[..|b| - 1];
      WritesAppend(a, b[..|b| - 1]);
    }
  }

  /** The writes after `a` in `c` are those up to `b` and those after it. */
  lemma WritesSplit(a: seq<Access>, b: seq<Access>, c: seq<Access>)
    requires a <= b <= c
    ensures Writes(c[|a|..]) == Writes(b[|a|..]) + Writes(c[|b|..])
  {
    assert c[|a|..] == b[|a|..] + c[|b|..];
    WritesAppend(b[|a|..], c[|b|..]);
  }

  /** A read appended to a log that only read since `log` keeps it so. */
  lemma ReadAppended(log: seq<Access>, log1: seq<Access>, a: Access)
    requires log <= log1 && Writes(log1[|log|..]) == [] && a.Rd?
    ensures log <= log1 + [a] && Writes((log1 + [a])[|log|..]) == []
  {
    assert (log1 + [a])[|log|..] == log1[|log|..] + [a];
    WritesAppend(log1[|log|..], [a]);
    assert [a][..0] == [];
  }

  /** Polling loops only read: a log that only reads holds no writes. */
  lemma {:induction false} ReadsHaveNoWrites(bar0: (seq<Access>, nat) -> u32, log: seq<Access>, from: nat, offset: nat)
    requires from <= |log| && ReadsOf(bar0, log, from, offset)
    ensures Writes(log[from..]) == []
    decreases |log| - from
  {
    if from < |log| {
      assert log[from..] == [log[from]] + log[from + 1..];
      ReadsHaveNoWrites(bar0, log, from + 1, offset);
      WritesAppend([log[from]], log[from + 1..]);
      assert [log[from]][..0] == [];
    }
  }

  /** A register memory: every read returns the value last written, 0 if none. */
  function LastWritten(log: seq<Access>, offset: nat): u32
  {
    WrittenUpTo(log, |log|, offset)
  }

  function WrittenUpTo(log: seq<Access>, k: nat, offset: nat): u32
    requires k <= |log|
  {
    if k == 0 then 0
    else if log[k - 1].Wr? && log[k - 1].offset == offset then log[k - 1].value
    else WrittenUpTo(log, k - 1, offset)
  }

  lemma {:induction false} WrittenUpToPrefix(log: seq<Access>, ext: seq<Access>, k: nat, offset: nat)
    requires k <= |log|
    ensures WrittenUpTo(log + ext, k, offset) == WrittenUpTo(log, k, offset)
  {
    if k > 0 {
      assert (log + ext)[k - 1] == log[k - 1];
      WrittenUpToPrefix(log, ext, k - 1, offset);
    }
  }

  // -----------------------------------------------------------------------
  // poll_register and poll_register_any_bit

  datatype PollKind = Register | AnyBit

  /** The arguments of `poll_register(name, offset, value, timeout, mask=..., badf_ok=...,
      not_value=...)`; `AnyBit` is `poll_register_any_bit(name, offset, mask, timeout)`. */
  datatype PollParams = PollParams(kind: PollKind, name: string, offset: nat, value: Option<nat>,
                                   timeout: nat, mask: nat, badfOk: bool, notValue: Option<nat>)

  /** `poll_register_any_bit` waits for `reg & mask != 0`, reading with `read`. */
  function AnyBitParams(name: string, offset: nat, mask: nat, timeout: nat): PollParams
  {
    PollParams(AnyBit, name, offset, None, timeout, mask, false, Some(0))
  }

  /** `read_bad_ok` is used when `badf_ok` is set, or when the expected value is
      itself a `0xbadf????` value (`value and value >> 16 == 0xbadf`). */
  predicate UsesReadBadOk(p: PollParams)
  {
    p.kind == Register && ((p.value.Some? && p.value.value != 0 && IsBadf(p.value.value)) || p.badfOk)
  }

  /** The loop's exit test: `reg & mask == value`, or `reg & mask != not_value`
      when no value is expected (`!= None` always holds). */
  predicate Satisfied(p: PollParams, reg: nat)
  {
    if p.value.Some? then And(reg, p.mask) == p.value.value
    else p.notValue.None? || And(reg, p.mask) != p.notValue.value
  }

  /** The exception raised once the loop times out. */
  function TimeoutError(p: PollParams, reg: nat): Error
  {
    match p.kind
    case AnyBit =>
      GpuError("Timed out polling register " + p.name + " (" + Hex(p.offset) + "), value "
               + Hex(reg) + " & " + Hex(p.mask) + " is still 0")
    case Register =>
      var expected := if p.value.Some? then p.value.value else 0;
      GpuPollTimeout("Timed out polling register " + p.name + " (" + Hex(p.offset) + "), value "
                     + Hex(reg) + " is not the expected " + Hex(expected))
  }

  /** The timeout exception as the source builds it: in not-equal mode the
      message formats `value`, which is None, with `:#x`, and Python raises
      `TypeError` while building the message. */
  function TimeoutErrorAsWritten(p: PollParams, reg: nat): Error
  {
    if p.kind == Register && p.value.None? then TypeError("unsupported format string passed to NoneType.__format__")
    else TimeoutError(p, reg)
  }

  /** One pass of the loop, `k` ticks after the start, having read `reg`:
      the outcome, or None to go round again. */
  function PollStep(p: PollParams, k: nat, reg: u32): (r: Option<Result<()>>)
    ensures r.None? ==> k <= p.timeout
  {
    if !UsesReadBadOk(p) && IsBadf(reg) then Some(Err(CheckedRead(p.offset, reg).error))
    else if Satisfied(p, reg) then Some(Ok(()))
    else if k > p.timeout then Some(Err(TimeoutError(p, reg)))
    else None
  }

  /** The whole loop from pass `k` on, after the accesses `log`: the outcome
      and the accesses made by then. */
  function Poll(p: PollParams, bar0: (seq<Access>, nat) -> u32, log: seq<Access>, k: nat): (Result<()>, seq<Access>)
    decreases p.timeout + 1 - k
  {
    var reg := bar0(log, p.offset);
    var log' := log + [Rd(p.offset, reg)];
    match PollStep(p, k, reg)
    case Some(r) => (r, log')
    case None => Poll(p, bar0, log', k + 1)
  }

  /** One pass of the loop as the source writes it: the timeout message
      of a not-equal-mode poll fails to build. */
  function PollStepAsWritten(p: PollParams, k: nat, reg: u32): Option<Result<()>>
  {
    if !UsesReadBadOk(p) && IsBadf(reg) then Some(Err(CheckedRead(p.offset, reg).error))
    else if Satisfied(p, reg) then Some(Ok(()))
    else if k > p.timeout then Some(Err(TimeoutErrorAsWritten(p, reg)))
    else None
  }

  /** The whole loop as the source writes it. */
  function PollAsWritten(p: PollParams, bar0: (seq<Access>, nat) -> u32, log: seq<Access>, k: nat): (Result<()>, seq<Access>)
    decreases p.timeout + 1 - k
  {
    var reg := bar0(log, p.offset);
    var log' := log + [Rd(p.offset, reg)];
    match PollStepAsWritten(p, k, reg)
    case Some(r) => (r, log')
    case None => PollAsWritten(p, bar0, log', k + 1)
  }

  /** `poll_register` / `poll_register_any_bit` */
  method PollRegister(d: Device, p: PollParams) returns (r: Result<()>)
    modifies d
    ensures (r, d.log) == Poll(p, d.bar0, old(d.log), 0)
  {
    var k := 0;
    while true
      invariant Poll(p, d.bar0, d.log, k) == Poll(p, d.bar0, old(d.log), 0)
      decreases p.timeout + 1 - k
    {
      var reg;
      if UsesReadBadOk(p) {
        reg := d.ReadBadOk(p.offset);
      } else {
        var checked := d.Read(p.offset);
        if checked.Err? {
          return Err(checked.error);
        }
        reg := checked.value;
      }
      if Satisfied(p, reg) {
        return Ok(());
      }
      if k > p.timeout {
        return Err(TimeoutError(p, reg));
      }
      k := k + 1;
    }
  }

  /** The reads `log[from..]` all read `offset`, each returning what the device
      returned at that point. */
  ghost predicate ReadsOf(bar0: (seq<Access>, nat) -> u32, log: seq<Access>, from: nat, offset: nat)
    requires from <= |log|
  {
    forall i :: from <= i < |log| ==> log[i] == Rd(offset, bar0(log[..i], offset))
  }

  /** A value the loop reads and does not stop on. */
  predicate GoesOn(p: PollParams, reg: nat)
  {
    !Satisfied(p, reg) && (UsesReadBadOk(p) || !IsBadf(reg))
  }

  /** The loop only reads the polled register, appending one read per pass;
      every pass but the last went on; it returns as soon as the register
      satisfies the test; a bad value raises `GpuError` only when reading
      with `read`; and a timeout is raised only on the pass that follows
      `timeout` failed ticks, that is after exactly `timeout + 2` reads
      from the start. */
  lemma PollTrace(p: PollParams, bar0: (seq<Access>, nat) -> u32, log: seq<Access>, k: nat)
    requires k <= p.timeout + 1
    ensures var (r, out) := Poll(p, bar0, log, k);
      |log| < |out| <= |log| + p.timeout + 2 - k && out[..|log|] == log
      && ReadsOf(bar0, out, |log|, p.offset)
      && (forall i :: |log| <= i < |out| - 1 ==> GoesOn(p, out[i].value))
      && (r.Ok? <==> Satisfied(p, out[|out| - 1].value) && (UsesReadBadOk(p) || !IsBadf(out[|out| - 1].value)))
      && (r.Err? && r.error == CheckedRead(p.offset, out[|out| - 1].value).error
          <== !UsesReadBadOk(p) && IsBadf(out[|out| - 1].value))
      && (r.Err? && r.error == TimeoutError(p, out[|out| - 1].value)
          <==> GoesOn(p, out[|out| - 1].value))
      && (r.Err? && r.error == TimeoutError(p, out[|out| - 1].value) ==> |out| == |log| + p.timeout + 2 - k)
  {
    var j := PollEnds(p, bar0, log, k);
    PollReads(p, bar0, log, k);
    var (r, out) := Poll(p, bar0, log, k);
    PollStepOutcome(p, j, out[|out| - 1].value, r);
  }

  /** The loop's passes `k`, ..., `j`: one read each, all but the last going on;
      the last pass's outcome is the loop's. */
  lemma {:induction false} PollEnds(p: PollParams, bar0: (seq<Access>, nat) -> u32, log: seq<Access>, k: nat)
    returns (j: nat)
    requires k <= p.timeout + 1
    ensures var (r, out) := Poll(p, bar0, log, k);
      k <= j <= p.timeout + 1 && |out| == |log| + j - k + 1 && out[..|log|] == log
      && (forall i :: |log| <= i < |out| - 1 ==> GoesOn(p, out[i].value))
      && PollStep(p, j, out[|out| - 1].value) == Some(r)
    decreases p.timeout + 1 - k
  {
    var reg := bar0(log, p.offset);
    var log' := log + [Rd(p.offset, reg)];
    assert log'[..|log|] == log;
    match PollStep(p, k, reg)
    case Some(r) =>
      j := k;
    case None =>
      j := PollEnds(p, bar0, log', k + 1);
      var out := Poll(p, bar0, log', k + 1).1;
      assert out[..|log|] == log by {
        assert out[..|log|] == out[..|log'|][..|log|];
      }
      assert out[|log|] == Rd(p.offset, reg);
  }

  /** Every access of the loop reads the polled register. */
  lemma {:induction false} PollReads(p: PollParams, bar0: (seq<Access>, nat) -> u32, log: seq<Access>, k: nat)
    ensures var out := Poll(p, bar0, log, k).1;
      |log| <= |out| && ReadsOf(bar0, out, |log|, p.offset)
    decreases p.timeout + 1 - k
  {
    var reg := bar0(log, p.offset);
    var log' := log + [Rd(p.offset, reg)];
    assert log'[..|log|] == log;
    if PollStep(p, k, reg).None? {
      PollReads(p, bar0, log', k + 1);
      PollOnlyReads(p, bar0, log', k + 1);
      var out := Poll(p, bar0, log', k + 1).1;
      assert out[..|log|] == log by {
        assert out[..|log|] == out[..|log'|][..|log|];
      }
      assert out[|log|] == Rd(p.offset, reg);
    }
  }

  /** What a pass's outcome says about the value it read. */
  lemma PollStepOutcome(p: PollParams, j: nat, reg: u32, r: Result<()>)
    requires j <= p.timeout + 1 && PollStep(p, j, reg) == Some(r)
    ensures r.Ok? <==> Satisfied(p, reg) && (UsesReadBadOk(p) || !IsBadf(reg))
    ensures !UsesReadBadOk(p) && IsBadf(reg) ==> r.Err? && r.error == CheckedRead(p.offset, reg).error
    ensures r.Err? && r.error == TimeoutError(p, reg) <==> GoesOn(p, reg)
    ensures r.Err? && r.error == TimeoutError(p, reg) ==> j == p.timeout + 1
  {
    // the bad-read message and the timeout message differ in their first letter
    assert CheckedRead(p.offset, reg).Err? ==> CheckedRead(p.offset, reg).error.msg[0] == 'r';
    assert TimeoutError(p, reg).msg[0] == 'T';
  }

  /** A polling loop appends reads and nothing else. */
  lemma {:induction false} PollOnlyReads(p: PollParams, bar0: (seq<Access>, nat) -> u32, log: seq<Access>, k: nat)
    ensures var out := Poll(p, bar0, log, k).1;
      log <= out && Writes(out[|log|..]) == []
    decreases p.timeout + 1 - k
  {
    var reg := bar0(log, p.offset);
    var log' := log + [Rd(p.offset, reg)];
    assert Writes(log'[|log|..]) == [] by {
      assert log'[|log|..] == [Rd(p.offset, reg)];
      assert [Rd(p.offset, reg)][..0] == [];
    }
    if PollStep(p, k, reg).None? {
      PollOnlyReads(p, bar0, log', k + 1);
      WritesSplit(log, log', Poll(p, bar0, log', k + 1).1);
    }
  }

  /** A polling loop ends on a read of the polled register, and it succeeds
      only on a good value that satisfies the test. */
  lemma {:induction false} PollEndsOn(p: PollParams, bar0: (seq<Access>, nat) -> u32, log: seq<Access>, k: nat)
    ensures var (r, out) := Poll(p, bar0, log, k);
      log < out && out[|out| - 1].Rd? && out[|out| - 1].offset == p.offset
      && (r.Ok? ==> Satisfied(p, out[|out| - 1].value) && (UsesReadBadOk(p) || !IsBadf(out[|out| - 1].value)))
    decreases p.timeout + 1 - k
  {
    var reg := bar0(log, p.offset);
    var log' := log + [Rd(p.offset, reg)];
    if PollStep(p, k, reg).None? {
      PollEndsOn(p, bar0, log', k + 1);
    }
  }

  /** `poll_register` raises `GpuPollTimeout` exactly when it made
      `timeout + 2` reads and went on after every one of them. */
  lemma {:induction false} PollTimesOut(p: PollParams, bar0: (seq<Access>, nat) -> u32, log: seq<Access>, k: nat)
    requires p.kind == Register && k <= p.timeout + 1
    ensures var (r, out) := Poll(p, bar0, log, k);
      (r.Err? && r.error.GpuPollTimeout?)
      <==> (|out| == |log| + p.timeout + 2 - k && forall i :: |log| <= i < |out| ==> GoesOn(p, out[i].value))
    decreases p.timeout + 1 - k
  {
    var reg := bar0(log, p.offset);
    var log' := log + [Rd(p.offset, reg)];
    var (r, out) := Poll(p, bar0, log, k);
    match PollStep(p, k, reg)
    case Some(s) =>
      assert out == log' && r == s;
      assert out[|log|].value == reg;
      if !UsesReadBadOk(p) && IsBadf(reg) {
        assert r.error.GpuError?;
      }
    case None =>
      PollTimesOut(p, bar0, log', k + 1);
      PollOnlyReads(p, bar0, log', k + 1);
      assert out[|log|] == log'[|log|];
  }

  /** The loop raises only `GpuError`: the bad-read error or its timeout. */
  lemma {:induction false} PollRaisesGpuError(p: PollParams, bar0: (seq<Access>, nat) -> u32, log: seq<Access>, k: nat)
    ensures var r := Poll(p, bar0, log, k).0;
      r.Err? ==> r.error.GpuError? || r.error.GpuPollTimeout?
    decreases p.timeout + 1 - k
  {
    var reg := bar0(log, p.offset);
    if PollStep(p, k, reg).None? {
      PollRaisesGpuError(p, bar0, log + [Rd(p.offset, reg)], k + 1);
    }
  }

  /** A poll with a timeout always ends, and ends on a good value whenever the
      register already holds one. */
  lemma PollOnSatisfied(p: PollParams, bar0: (seq<Access>, nat) -> u32, log: seq<Access>)
    requires Satisfied(p, bar0(log, p.offset)) && !IsBadf(bar0(log, p.offset))
    ensures Poll(p, bar0, log, 0) == (Ok(()), log + [Rd(p.offset, bar0(log, p.offset))])
  {
  }

  /** `poll_register_any_bit` stops exactly on a value sharing a bit with the mask. */
  lemma AnyBitSatisfied(name: string, offset: nat, mask: nat, timeout: nat, reg: nat)
    ensures Satisfied(AnyBitParams(name, offset, mask, timeout), reg) <==> And(reg, mask) != 0
    ensures !UsesReadBadOk(AnyBitParams(name, offset, mask, timeout))
    ensures TimeoutError(AnyBitParams(name, offset, mask, timeout), reg).GpuError?
  {
  }

  /** Expecting a `0xbadf????` value, or passing `badf_ok`, reads with `read_bad_ok`;
      otherwise `read` is used, and an expected value of 0 counts as no value. */
  lemma ReadFunctionChoice(p: PollParams)
    requires p.kind == Register
    ensures UsesReadBadOk(p) <==> p.badfOk || (p.value.Some? && 0xbadf_0000 <= p.value.value <= 0xbadf_ffff)
  {
    if p.value.Some? {
      BadfRange(p.value.value);
    }
  }

  /** The loop's timeout raises `GpuPollTimeout` (`GpuError` for the any-bit
      loop), both caught by `except GpuError`. */
  lemma PollTimeoutIsGpuError(p: PollParams, reg: nat)
    ensures IsGpuError(TimeoutError(p, reg))
    ensures p.kind == Register ==> TimeoutError(p, reg).GpuPollTimeout?
  {
  }

  /** As written, a not-equal-mode poll that times out raises `TypeError`, which
      `except GpuPollTimeout` / `except GpuError` callers do not catch. */
  lemma PollTimeoutAsWrittenIsTypeError(name: string, offset: nat, timeout: nat, mask: nat, notValue: nat, reg: nat)
    ensures var p := PollParams(Register, name, offset, None, timeout, mask, false, Some(notValue));
      TimeoutErrorAsWritten(p, reg).TypeError? && !IsGpuError(TimeoutErrorAsWritten(p, reg))
      && TimeoutError(p, reg).GpuPollTimeout?
  {
  }

  /** What the loop as written does where the corrected loop ends in `(r, out)`. */
  function AsWrittenOutcome(p: PollParams, ro: (Result<()>, seq<Access>)): (Result<()>, seq<Access>)
  {
    if p.kind == Register && p.value.None? && ro.0.Err? && ro.0.error.GpuPollTimeout? then
      (Err(TypeError("unsupported format string passed to NoneType.__format__")), ro.1)
    else ro
  }

  /** On the same device the loop as written makes the same reads as the
      corrected loop, and ends the same way except that where the corrected
      loop raises `GpuPollTimeout` in not-equal mode, the loop as written
      raises `TypeError`. */
  lemma {:induction false} PollAsWrittenDiffers(p: PollParams, bar0: (seq<Access>, nat) -> u32, log: seq<Access>, k: nat)
    ensures PollAsWritten(p, bar0, log, k) == AsWrittenOutcome(p, Poll(p, bar0, log, k))
    decreases p.timeout + 1 - k
  {
    var reg := bar0(log, p.offset);
    var log' := log + [Rd(p.offset, reg)];
    StepAsWritten(p, k, reg);
    if PollStep(p, k, reg).None? {
      assert Poll(p, bar0, log, k) == Poll(p, bar0, log', k + 1);
      assert PollAsWritten(p, bar0, log, k) == PollAsWritten(p, bar0, log', k + 1);
      PollAsWrittenDiffers(p, bar0, log', k + 1);
    } else {
      assert Poll(p, bar0, log, k) == (PollStep(p, k, reg).value, log');
    }
  }

  /** One pass as written ends where the corrected pass ends, with the
      as-written exception. */
  lemma StepAsWritten(p: PollParams, k: nat, reg: u32)
    ensures PollStep(p, k, reg).None? <==> PollStepAsWritten(p, k, reg).None?
    ensures PollStep(p, k, reg).Some? ==>
      PollStepAsWritten(p, k, reg) == Some(AsWrittenOutcome(p, (PollStep(p, k, reg).value, [])).0)
  {
    PollTimeoutIsGpuError(p, reg);
  }

  /** Hence the loop as written raises `TypeError` exactly when the corrected
      loop raises `GpuPollTimeout` in not-equal mode. */
  lemma PollTypeErrorIff(p: PollParams, bar0: (seq<Access>, nat) -> u32, log: seq<Access>, k: nat)
    ensures var r := Poll(p, bar0, log, k).0;
      var w := PollAsWritten(p, bar0, log, k).0;
      (w.Err? && w.error.TypeError?) <==> (p.kind == Register && p.value.None? && r.Err? && r.error.GpuPollTimeout?)
  {
    PollAsWrittenDiffers(p, bar0, log, k);
    PollRaisesGpuError(p, bar0, log, k);
  }

  /** A register stuck at `not_value` makes the not-equal-mode poll as written
      raise `TypeError` where the corrected poll raises `GpuPollTimeout`. */
  lemma StuckNotValuePoll(bar0: (seq<Access>, nat) -> u32)
    requires forall log: seq<Access> :: bar0(log, 0x100) == 1
    ensures var p := PollParams(Register, "status", 0x100, None, 0, 1, false, Some(1));
      && Poll(p, bar0, [], 0).0.Err? && Poll(p, bar0, [], 0).0.error.GpuPollTimeout?
      && PollAsWritten(p, bar0, [], 0).0.Err? && PollAsWritten(p, bar0, [], 0).0.error.TypeError?
  {
    var p := PollParams(Register, "status", 0x100, None, 0, 1, false, Some(1));
    assert And(1, 1) == 1;
    BadfRange(1);
  }
}
