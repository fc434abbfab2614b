/**
 * The EMEM transport of the FSP RPC (`FspEmemRpc`, gpu/fsp_emem_rpc.py).
 *
 * Channel n owns the 1024-byte window at EMEM offset `n * 1024`, EMEM port
 * n, and four queue registers of the FSP falcon.  The host puts a packet in
 * its window and publishes it on the command queue: tail first, pointing at
 * the packet's last word, then head, pointing at its first.  The FSP answers
 * in the same window and publishes the answer on the message queue; the host
 * reads `tail - head + 4` bytes and then sets the message tail back to the
 * head, which empties that queue.
 *
 * Loops count time in passes, as the register polls of `Devices` do: pass k
 * runs k ticks after the start, and a timeout of t ticks is raised on the
 * first failed pass after more than t ticks.
 */
module EmemRpc {
  import opened Bits
  import opened Text
  import opened GpuErrors
  import opened Devices
  import opened Falcons

  /** `max_packet_size_bytes`, which is also the size of a channel's window. */
  const MaxPacketBytes: nat := 1024

  /** The defaults of `poll_for_queue_empty(timeout=1)` and
      `receive_data(timeout=5)`, in ticks. */
  const QueueEmptyTimeout: nat := 1
  const ReceiveTimeout: nat := 5

  /** `nvdm_emem_base` of channel n. */
  function EmemBase(channel: nat): nat
  {
    channel * 1024
  }

  /** The tail `send_data` publishes for an n-word packet at `base`. */
  function PublishedTail(base: nat, n: nat): int
  {
    base + (n - 1) * 4
  }

  /** The byte size `receive_data` derives from the message queue. */
  function MessageSize(head: int, tail: int): int
  {
    tail - head + 4
  }

  /** The channels' windows do not overlap, and each holds a packet of the
      maximum size. */
  lemma ChannelWindowsDisjoint(i: nat, j: nat)
    requires i < j
    ensures EmemBase(i) + MaxPacketBytes <= EmemBase(j)
  {
  }

  /** A peer that publishes an n-word message the way `send_data` does gets
      exactly n words read back by `receive_data`: the two size conventions
      are inverse. */
  lemma PublishedSizeRoundTrip(base: nat, n: nat)
    requires n >= 1
    ensures MessageSize(base, PublishedTail(base, n)) == 4 * n
    ensures WordCount(MessageSize(base, PublishedTail(base, n))) == n
  {
    WordCountIsCeiling(4 * n, n);
  }

  // -----------------------------------------------------------------------
  // Register traces

  /** The outcome and the accesses of reading register `a` then register `b`
      with `read`, as `read_queue_state` and `read_msg_queue_state` do. */
  function PairRead(bar0: (seq<Access>, nat) -> u32, log: seq<Access>, a: nat, b: nat): (Result<(u32, u32)>, seq<Access>)
  {
    var h := bar0(log, a);
    var log1 := log + [Rd(a, h)];
    if IsBadf(h) then (Err(CheckedRead(a, h).error), log1)
    else
      var t := bar0(log1, b);
      var log2 := log1 + [Rd(b, t)];
      (if IsBadf(t) then Err(CheckedRead(b, t).error) else Ok((h, t)), log2)
  }

  /** The pair read appends one or two reads and no write, and on success
      returns what the last two reads returned. */
  lemma PairReadMeans(bar0: (seq<Access>, nat) -> u32, log: seq<Access>, a: nat, b: nat)
    ensures var (r, out) := PairRead(bar0, log, a, b);
      out[..|log|] == log && Writes(out[|log|..]) == []
      && (r.Ok? ==> |out| == |log| + 2 && out[|log|] == Rd(a, r.value.0) && out[|log| + 1] == Rd(b, r.value.1)
                    && !IsBadf(r.value.0) && !IsBadf(r.value.1))
      && (r.Err? ==> r.error.GpuError?)
  {
    var (r, out) := PairRead(bar0, log, a, b);
    var h := bar0(log, a);
    if IsBadf(h) {
      assert out[|log|..] == [Rd(a, h)];
    } else {
      assert out[|log|..] == [Rd(a, h), Rd(b, bar0(log + [Rd(a, h)], b))];
    }
  }

  /** A `write_verbose` writes at most its one value, and exactly it when it
      succeeds, in three accesses. */
  lemma VerboseWrites(bar0: (seq<Access>, nat) -> u32, log: seq<Access>, offset: nat, v: u32)
    ensures var (r, out) := VerboseWrite(bar0, log, offset, v);
      log <= out && (r.Ok? ==> |out| == |log| + 3 && Writes(out[|log|..]) == [Wr(offset, v)])
  {
    VerboseWriteMeans(bar0, log, offset, v);
    var (r, out) := VerboseWrite(bar0, log, offset, v);
    if r.Ok? {
      var t := out[|log|..];
      assert t == [out[|log|], Wr(offset, v), out[|log| + 2]];
      assert t[..2] == [t[0], t[1]] && t[..2][..1] == [t[0]] && [t[0]][..0] == [];
      assert Writes([t[0]]) == [];
      assert Writes(t[..2]) == [Wr(offset, v)];
    }
  }

  /** Two consecutive reads ending at `e`, of `a` then of `b`, that returned the
      same value: a queue seen empty. */
  predicate SeenEmpty(log: seq<Access>, e: int, a: nat, b: nat)
  {
    2 <= e <= |log| && log[e - 2].Rd? && log[e - 2].offset == a && log[e - 1] == Rd(b, log[e - 2].value)
  }

  // -----------------------------------------------------------------------
  // poll_for_msg_queue

  /** The starts of the two timeout messages of a channel. */
  const MsgTimeoutText := "Timed out polling for fsp message queue"
  const CmdTimeoutText := "Timed out polling for fsp cmd queue"

  function MsgTimeoutError(channel: nat, head: nat, tail: nat): Error
  {
    GpuRpcTimeout(MsgTimeoutText + (" on channel " + Dec(channel)
                  + ". head " + Dec(head) + " == tail " + Dec(tail)))
  }

  /** The timeout `poll_for_queue_empty` raises, with the command queue's
      head and tail read after its last pass. */
  function CmdTimeoutError(channel: nat, head: nat, tail: nat): Error
  {
    GpuRpcTimeout(CmdTimeoutText + (" to be empty on channel " + Dec(channel)
                  + ". head " + Dec(head) + " != tail " + Dec(tail)))
  }

  /** A timeout of the message-queue poll, and one of the command-queue poll,
      told apart by their messages. */
  predicate IsMsgTimeout(e: Error)
  {
    e.GpuRpcTimeout? && MsgTimeoutText <= e.msg
  }

  predicate IsCmdTimeout(e: Error)
  {
    e.GpuRpcTimeout? && CmdTimeoutText <= e.msg
  }

  /** The two timeouts are what they say. */
  lemma TimeoutsAre(channel: nat, head: nat, tail: nat)
    ensures IsMsgTimeout(MsgTimeoutError(channel, head, tail)) && !IsCmdTimeout(MsgTimeoutError(channel, head, tail))
    ensures IsCmdTimeout(CmdTimeoutError(channel, head, tail)) && !IsMsgTimeout(CmdTimeoutError(channel, head, tail))
  {
    TimeoutsDistinct(MsgTimeoutError(channel, head, tail));
    TimeoutsDistinct(CmdTimeoutError(channel, head, tail));
  }

  /** No error is both timeouts: the messages differ at their 27th letter. */
  lemma TimeoutsDistinct(e: Error)
    ensures !(IsMsgTimeout(e) && IsCmdTimeout(e))
  {
    assert MsgTimeoutText[26] != CmdTimeoutText[26];
    if IsMsgTimeout(e) {
      assert e.msg[26] == MsgTimeoutText[26];
    }
  }

  /** The loop of `poll_for_msg_queue` from pass `k` on. */
  function MsgPoll(bar0: (seq<Access>, nat) -> u32, log: seq<Access>, channel: nat, timeout: nat, fatal: bool, k: nat)
    : (Result<()>, seq<Access>)
    decreases timeout + 1 - k
  {
    var (st, log1) := PairRead(bar0, log, MsgQueueHeadOff(channel), MsgQueueTailOff(channel));
    if st.Err? then (Err(st.error), log1)
    else if st.value.0 != st.value.1 then (Ok(()), log1)
    else if k > timeout then (if fatal then Err(MsgTimeoutError(channel, st.value.0, st.value.1)) else Ok(()), log1)
    else MsgPoll(bar0, log1, channel, timeout, fatal, k + 1)
  }

  /** The poll only reads: it keeps the accesses before it and writes nothing. */
  lemma {:induction false} MsgPollOnlyReads(bar0: (seq<Access>, nat) -> u32, log: seq<Access>, channel: nat, timeout: nat, fatal: bool, k: nat)
    ensures var (r, out) := MsgPoll(bar0, log, channel, timeout, fatal, k);
      |log| < |out| && out[..|log|] == log && Writes(out[|log|..]) == []
    decreases timeout + 1 - k
  {
    PairReadMeans(bar0, log, MsgQueueHeadOff(channel), MsgQueueTailOff(channel));
    var (st, log1) := PairRead(bar0, log, MsgQueueHeadOff(channel), MsgQueueTailOff(channel));
    if st.Ok? && st.value.0 == st.value.1 && k <= timeout {
      MsgPollOnlyReads(bar0, log1, channel, timeout, fatal, k + 1);
      var (r, out) := MsgPoll(bar0, log1, channel, timeout, fatal, k + 1);
      assert out[..|log|] == log by {
        assert out[..|log|] == out[..|log1|][..|log|];
      }
      assert out[|log|..] == log1[|log|..] + out[|log1|..];
      WritesAppend(log1[|log|..], out[|log1|..]);
    }
  }

  /** A poll that returns normally with `timeout_fatal` set saw a non-empty
      message queue on its last pass. */
  lemma {:induction false} MsgPollFatalOk(bar0: (seq<Access>, nat) -> u32, log: seq<Access>, channel: nat, timeout: nat, k: nat)
    ensures var (r, out) := MsgPoll(bar0, log, channel, timeout, true, k);
      r.Ok? ==> |out| >= 2 && out[|out| - 2] == Rd(MsgQueueHeadOff(channel), out[|out| - 2].value)
                && out[|out| - 1] == Rd(MsgQueueTailOff(channel), out[|out| - 1].value)
                && out[|out| - 2].value != out[|out| - 1].value
    decreases timeout + 1 - k
  {
    PairReadMeans(bar0, log, MsgQueueHeadOff(channel), MsgQueueTailOff(channel));
    var (st, log1) := PairRead(bar0, log, MsgQueueHeadOff(channel), MsgQueueTailOff(channel));
    if st.Ok? && st.value.0 == st.value.1 && k <= timeout {
      MsgPollFatalOk(bar0, log1, channel, timeout, k + 1);
    }
  }

  /** The poll fails only with the `GpuError` of a bad read or with its own
      timeout. */
  lemma {:induction false} MsgPollErrors(bar0: (seq<Access>, nat) -> u32, log: seq<Access>, channel: nat, timeout: nat, fatal: bool, k: nat)
    ensures var (r, out) := MsgPoll(bar0, log, channel, timeout, fatal, k);
      r.Err? ==> r.error.GpuError? || IsMsgTimeout(r.error)
    decreases timeout + 1 - k
  {
    PairReadMeans(bar0, log, MsgQueueHeadOff(channel), MsgQueueTailOff(channel));
    var (st, log1) := PairRead(bar0, log, MsgQueueHeadOff(channel), MsgQueueTailOff(channel));
    if st.Ok? && st.value.0 == st.value.1 {
      if k <= timeout {
        MsgPollErrors(bar0, log1, channel, timeout, fatal, k + 1);
      } else {
        TimeoutsAre(channel, st.value.0, st.value.1);
      }
    }
  }

  /** Without `timeout_fatal` the poll never raises a timeout: it either
      returns or passes on the `GpuError` of a bad read. */
  lemma {:induction false} MsgPollNonFatal(bar0: (seq<Access>, nat) -> u32, log: seq<Access>, channel: nat, timeout: nat, k: nat)
    ensures var (r, out) := MsgPoll(bar0, log, channel, timeout, false, k);
      r.Err? ==> r.error.GpuError?
    decreases timeout + 1 - k
  {
    PairReadMeans(bar0, log, MsgQueueHeadOff(channel), MsgQueueTailOff(channel));
    var (st, log1) := PairRead(bar0, log, MsgQueueHeadOff(channel), MsgQueueTailOff(channel));
    if st.Ok? && st.value.0 == st.value.1 && k <= timeout {
      MsgPollNonFatal(bar0, log1, channel, timeout, k + 1);
    }
  }

  /** The timeout is raised only after every pass, from pass k through the
      first pass past `timeout`, found the queue empty: exactly two reads per
      pass. */
  lemma {:induction false} MsgPollTimeout(bar0: (seq<Access>, nat) -> u32, log: seq<Access>, channel: nat, timeout: nat, k: nat)
    requires k <= timeout + 1
    ensures var (r, out) := MsgPoll(bar0, log, channel, timeout, true, k);
      r.Err? && r.error.GpuRpcTimeout? ==>
        |out| == |log| + 2 * (timeout + 2 - k)
        && forall p :: 0 <= p < timeout + 2 - k ==> SeenEmpty(out, |log| + 2 * p + 2, MsgQueueHeadOff(channel), MsgQueueTailOff(channel))
    decreases timeout + 1 - k
  {
    PairReadMeans(bar0, log, MsgQueueHeadOff(channel), MsgQueueTailOff(channel));
    var (st, log1) := PairRead(bar0, log, MsgQueueHeadOff(channel), MsgQueueTailOff(channel));
    var (r, out) := MsgPoll(bar0, log, channel, timeout, true, k);
    if st.Ok? && st.value.0 == st.value.1 && k <= timeout {
      MsgPollTimeout(bar0, log1, channel, timeout, k + 1);
      MsgPollOnlyReads(bar0, log1, channel, timeout, true, k + 1);
      if r.Err? && r.error.GpuRpcTimeout? {
        forall p | 0 <= p < timeout + 2 - k
          ensures SeenEmpty(out, |log| + 2 * p + 2, MsgQueueHeadOff(channel), MsgQueueTailOff(channel))
        {
          if p > 0 {
            assert SeenEmpty(out, |log1| + 2 * (p - 1) + 2, MsgQueueHeadOff(channel), MsgQueueTailOff(channel));
          } else {
            assert out[..|log1|] == log1;
            assert out[|log|] == log1[|log|] && out[|log| + 1] == log1[|log| + 1];
          }
        }
      }
    }
  }

  // -----------------------------------------------------------------------
  // poll_for_queue_empty

  /** A pass that read the command queue busy at `a`: it read the message
      queue next, and the next pass starts at `b`, at once when the message
      queue was empty and after receiving a message otherwise. */
  predicate BusyPass(log: seq<Access>, a: nat, b: nat, channel: nat)
  {
    a + 4 <= b <= |log|
    && log[a + 2].Rd? && log[a + 2].offset == MsgQueueHeadOff(channel)
    && log[a + 3].Rd? && log[a + 3].offset == MsgQueueTailOff(channel)
    && (log[a + 2].value == log[a + 3].value <==> b == a + 4)
  }

  /** The passes of `poll_for_queue_empty` from `from` on: pass i read the
      command queue as `seen[i]` at `at[i]`, and every pass but the last saw
      it busy. */
  ghost predicate CmdPasses(log: seq<Access>, at: seq<nat>, seen: seq<(u32, u32)>, channel: nat, from: nat)
  {
    |at| == |seen|
    && (forall i :: 0 <= i < |at| ==>
          from <= at[i] && at[i] + 2 <= |log|
          && log[at[i]] == Rd(QueueHeadOff(channel), seen[i].0) && log[at[i] + 1] == Rd(QueueTailOff(channel), seen[i].1))
    && (forall i :: 0 <= i < |at| - 1 ==> seen[i].0 != seen[i].1 && BusyPass(log, at[i], at[i + 1], channel))
  }

  /** A busy pass stays one as accesses are added. */
  lemma BusyPassGrow(log: seq<Access>, log': seq<Access>, a: nat, b: nat, channel: nat)
    requires BusyPass(log, a, b, channel) && log <= log'
    ensures BusyPass(log', a, b, channel)
  {
    assert log'[a + 2] == log[a + 2] && log'[a + 3] == log[a + 3];
  }

  /** The passes stay what they were as accesses are added. */
  lemma CmdPassesGrow(log: seq<Access>, log': seq<Access>, at: seq<nat>, seen: seq<(u32, u32)>, channel: nat, from: nat)
    requires CmdPasses(log, at, seen, channel, from) && log <= log'
    ensures CmdPasses(log', at, seen, channel, from)
  {
    forall i | 0 <= i < |at|
      ensures log'[at[i]] == log[at[i]] && log'[at[i] + 1] == log[at[i] + 1]
    {
    }
    forall i | 0 <= i < |at| - 1
      ensures BusyPass(log', at[i], at[i + 1], channel)
    {
      BusyPassGrow(log, log', at[i], at[i + 1], channel);
    }
  }

  /** A new pass read the command queue as `st` at `a`, after the last pass
      saw it busy and ended at `a`. */
  lemma CmdPassesAdd(log: seq<Access>, at: seq<nat>, seen: seq<(u32, u32)>, channel: nat, from: nat, a: nat, st: (u32, u32))
    requires CmdPasses(log, at, seen, channel, from)
    requires |at| > 0 ==> seen[|seen| - 1].0 != seen[|seen| - 1].1 && BusyPass(log, at[|at| - 1], a, channel)
    requires from <= a && a + 2 <= |log| && log[a] == Rd(QueueHeadOff(channel), st.0) && log[a + 1] == Rd(QueueTailOff(channel), st.1)
    ensures CmdPasses(log, at + [a], seen + [st], channel, from)
  {
    var at', seen' := at + [a], seen + [st];
    forall i | 0 <= i < |at'| - 1
      ensures seen'[i].0 != seen'[i].1 && BusyPass(log, at'[i], at'[i + 1], channel)
    {
      if i < |at| - 1 {
        assert at'[i] == at[i] && at'[i + 1] == at[i + 1] && seen'[i] == seen[i];
      } else {
        assert at'[i] == at[i] && at'[i + 1] == a && seen'[i] == seen[i];
      }
    }
  }

  /** `e` is the command-queue timeout built from the last two accesses,
      reads of the command queue's head and tail. */
  predicate CmdTimeoutRead(log: seq<Access>, channel: nat, e: Error)
  {
    |log| >= 2
    && log[|log| - 2].Rd? && log[|log| - 2].offset == QueueHeadOff(channel)
    && log[|log| - 1].Rd? && log[|log| - 1].offset == QueueTailOff(channel)
    && e == CmdTimeoutError(channel, log[|log| - 2].value, log[|log| - 1].value)
  }

  /** The writes that force both queues of a channel empty at `base`. */
  function ResetWrites(channel: nat, base: u32): seq<Access>
  {
    [Wr(QueueTailOff(channel), base), Wr(QueueHeadOff(channel), base),
     Wr(MsgQueueTailOff(channel), base), Wr(MsgQueueHeadOff(channel), base)]
  }

  // -----------------------------------------------------------------------
  // The channel

  class EmemChannel {
    const dev: Device
    const port: MemPort
    const channel: nat
    const base: nat

    /** The fields `__init__` sets: EMEM port `channel` of the FSP falcon, of
        `maxEmemSize` bytes; `__init__` then calls `reset_rpc_state`, here
        `ResetRpcState`. */
    constructor(dev: Device, channel: nat, maxEmemSize: int)
      requires channel < FspEmemPorts
      ensures Valid() && this.dev == dev && this.channel == channel && fresh(port)
      ensures port.maxSize == maxEmemSize && port.controlReg == EmemControlReg(channel)
    {
      this.dev := dev;
      this.channel := channel;
      this.base := EmemBase(channel);
      port := new MemPort(dev, EmemControlReg(channel), maxEmemSize);
    }

    /** The channel's wiring, fixed at construction. */
    predicate Valid()
    {
      port.dev == dev && channel < FspEmemPorts && base == EmemBase(channel)
    }

    /** `read_queue_state` / `read_msg_queue_state` */
    method ReadState(a: nat, b: nat) returns (r: Result<(u32, u32)>)
      modifies dev
      ensures (r, dev.log) == PairRead(dev.bar0, old(dev.log), a, b)
    {
      var h := dev.Read(a);
      if h.Err? {
        return Err(h.error);
      }
      var t := dev.Read(b);
      if t.Err? {
        return Err(t.error);
      }
      r := Ok((h.value, t.value));
    }

    /** `poll_for_msg_queue(timeout, timeout_fatal)` */
    method PollForMsgQueue(timeout: nat, fatal: bool) returns (r: Result<()>)
      modifies dev
      ensures (r, dev.log) == MsgPoll(dev.bar0, old(dev.log), channel, timeout, fatal, 0)
    {
      var k := 0;
      while true
        invariant MsgPoll(dev.bar0, dev.log, channel, timeout, fatal, k) == MsgPoll(dev.bar0, old(dev.log), channel, timeout, fatal, 0)
        decreases timeout + 1 - k
      {
        var st := ReadState(MsgQueueHeadOff(channel), MsgQueueTailOff(channel));
        if st.Err? {
          return Err(st.error);
        }
        var (mhead, mtail) := st.value;
        if mhead != mtail {
          return Ok(());
        }
        if k > timeout {
          if fatal {
            return Err(MsgTimeoutError(channel, mhead, mtail));
          } else {
            return Ok(());
          }
        }
        k := k + 1;
      }
    }

    /** The first half of `receive_data`: wait for a message, then read the
        message queue's head and tail, at `at`. */
    method AwaitMessage(timeout: nat) returns (r: Result<(u32, u32)>, ghost at: nat)
      modifies dev
      ensures old(dev.log) < dev.log
      ensures r.Ok? ==>
        |old(dev.log)| <= at && at + 2 == |dev.log|
        && dev.log[at] == Rd(MsgQueueHeadOff(channel), r.value.0) && dev.log[at + 1] == Rd(MsgQueueTailOff(channel), r.value.1)
      ensures r.Err? ==> r.error.GpuError? || IsMsgTimeout(r.error)
    {
      at := 0;
      MsgPollOnlyReads(dev.bar0, dev.log, channel, timeout, true, 0);
      MsgPollErrors(dev.bar0, dev.log, channel, timeout, true, 0);
      var polled := PollForMsgQueue(timeout, true);
      if polled.Err? {
        return Err(polled.error), at;
      }
      at := |dev.log|;
      PairReadMeans(dev.bar0, dev.log, MsgQueueHeadOff(channel), MsgQueueTailOff(channel));
      r := ReadState(MsgQueueHeadOff(channel), MsgQueueTailOff(channel));
    }

    /** `receive_data(timeout)`: wait for a message, read `tail - head + 4`
        bytes of it from the channel's window, then set the message tail to
        the head.  `head` and `tail` are the queue values read after the wait,
        at `at`; the words were read at `dataAt`. */
    method ReceiveData(timeout: nat) returns (r: Result<seq<u32>>, ghost head: u32, ghost tail: u32, ghost at: nat, ghost dataAt: nat)
      requires Valid()
      modifies dev, port
      ensures old(dev.log) < dev.log
      ensures r.Err? ==> r.error.GpuError? || IsMsgTimeout(r.error)
      ensures r.Ok? ==>
        |old(dev.log)| <= at && at + 2 <= dataAt && dataAt + |r.value| + 3 <= |dev.log|
        && dev.log[at] == Rd(MsgQueueHeadOff(channel), head) && dev.log[at + 1] == Rd(MsgQueueTailOff(channel), tail)
        && |r.value| == WordCount(MessageSize(head, tail))
        && dev.log[dataAt..dataAt + |r.value|] == DataReads(port.dataReg, r.value)
        && dev.log[|dev.log| - 2] == Wr(MsgQueueTailOff(channel), head)
    {
      head, tail, dataAt := 0, 0, 0;
      var st;
      st, at := AwaitMessage(timeout);
      if st.Err? {
        return Err(st.error), head, tail, at, dataAt;
      }
      head, tail := st.value.0, st.value.1;
      ghost var log2 := dev.log;
      r, dataAt := ReadMessage(st.value.0, st.value.1);
      assert dev.log[at] == log2[at] && dev.log[at + 1] == log2[at + 1];
    }

    /** The second half of `receive_data`, after the message queue was read
        as `head` and `tail`: read the message's words (at `dataAt`), then set
        the message tail to the head. */
    method ReadMessage(head: u32, tail: u32) returns (r: Result<seq<u32>>, ghost dataAt: nat)
      requires Valid()
      modifies dev, port
      ensures old(dev.log) < dev.log
      ensures r.Err? ==> r.error.GpuError?
      ensures r.Ok? ==>
        |old(dev.log)| <= dataAt && dataAt + |r.value| + 3 <= |dev.log|
        && |r.value| == WordCount(MessageSize(head, tail))
        && dev.log[dataAt..dataAt + |r.value|] == DataReads(port.dataReg, r.value)
        && dev.log[|dev.log| - 2] == Wr(MsgQueueTailOff(channel), head)
    {
      var data;
      data, dataAt := ReadPort(port, base, MessageSize(head, tail));
      ghost var log3 := dev.log;
      VerboseWriteMeans(dev.bar0, dev.log, MsgQueueTailOff(channel), head);
      var wrote := dev.WriteVerbose(MsgQueueTailOff(channel), head);
      if wrote.Err? {
        return Err(wrote.error), dataAt;
      }
      r := Ok(data);
      assert dev.log[..|log3|] == log3;
    }

    /** `read_queue_state()` / `read_msg_queue_state()` as their callers use
        them: two reads appended, and their values on success. */
    method ReadQueue(a: nat, b: nat) returns (r: Result<(u32, u32)>)
      modifies dev
      ensures old(dev.log) <= dev.log
      ensures r.Ok? ==> dev.log == old(dev.log) + [Rd(a, r.value.0), Rd(b, r.value.1)]
      ensures r.Err? ==> r.error.GpuError?
    {
      PairReadMeans(dev.bar0, dev.log, a, b);
      r := ReadState(a, b);
    }

    /** The early response `poll_for_queue_empty` receives and throws away. */
    method DiscardMessage() returns (r: Result<()>)
      requires Valid()
      modifies dev, port
      ensures old(dev.log) < dev.log
      ensures r.Err? ==> r.error.GpuError? || IsMsgTimeout(r.error)
    {
      var data, _, _, _, _ := ReceiveData(ReceiveTimeout);
      r := if data.Err? then Err(data.error) else Ok(());
    }

    /** The check for an early response in `poll_for_queue_empty`: read the
        message queue, and receive and throw away a message when it is not
        empty. */
    method DrainEarlyMessage() returns (r: Result<()>)
      requires Valid()
      modifies dev, port
      ensures old(dev.log) <= dev.log
      ensures r.Err? ==> r.error.GpuError? || IsMsgTimeout(r.error)
      ensures r.Ok? ==>
        var n := |old(dev.log)|;
        n + 2 <= |dev.log|
        && dev.log[n].Rd? && dev.log[n].offset == MsgQueueHeadOff(channel)
        && dev.log[n + 1].Rd? && dev.log[n + 1].offset == MsgQueueTailOff(channel)
        && (dev.log[n].value == dev.log[n + 1].value <==> |dev.log| == n + 2)
    {
      var msg := ReadQueue(MsgQueueHeadOff(channel), MsgQueueTailOff(channel));
      if msg.Err? {
        return Err(msg.error);
      }
      ghost var log1 := dev.log;
      r := Ok(());
      if msg.value.0 != msg.value.1 {
        r := DiscardMessage();
        assert dev.log[|log1| - 2] == log1[|log1| - 2] && dev.log[|log1| - 1] == log1[|log1| - 1];
      }
    }

    /** `poll_for_queue_empty(timeout)`: wait until the command queue is
        empty, receiving and discarding any message that shows up meanwhile.
        Pass i read the command queue as `seen[i]` at `at[i]`.  The poll
        returns exactly when a pass saw the command queue empty, and that is
        its last access; every earlier pass saw it busy and then read the
        message queue, receiving a message exactly when that queue was not
        empty.  Its own timeout comes only after `timeout + 2` busy passes,
        with the command queue read once more; any other error is a bad read
        or the timeout of receiving a message. */
    method PollForQueueEmpty(timeout: nat) returns (r: Result<()>, ghost at: seq<nat>, ghost seen: seq<(u32, u32)>)
      requires Valid()
      modifies dev, port
      ensures old(dev.log) <= dev.log
      ensures CmdPasses(dev.log, at, seen, channel, |old(dev.log)|) && |seen| <= timeout + 2
      ensures r.Ok? <==> |seen| > 0 && seen[|seen| - 1].0 == seen[|seen| - 1].1
      ensures r.Ok? ==> at[|at| - 1] + 2 == |dev.log|
      ensures r.Err? ==> r.error.GpuError? || IsMsgTimeout(r.error) || IsCmdTimeout(r.error)
      ensures r.Err? && IsCmdTimeout(r.error) ==>
        |seen| == timeout + 2 && seen[|seen| - 1].0 != seen[|seen| - 1].1
        && BusyPass(dev.log, at[|at| - 1], |dev.log| - 2, channel) && CmdTimeoutRead(dev.log, channel, r.error)
    {
      var k := 0;
      at, seen := [], [];
      while true
        invariant old(dev.log) <= dev.log && k == |seen| <= timeout + 1
        invariant CmdPasses(dev.log, at, seen, channel, |old(dev.log)|)
        invariant k > 0 ==> seen[k - 1].0 != seen[k - 1].1 && BusyPass(dev.log, at[k - 1], |dev.log|, channel)
        decreases timeout + 1 - k
      {
        ghost var start := |dev.log|;
        ghost var log0 := dev.log;
        var done, read;
        ghost var st;
        r, done, read, st := QueuePass(k > timeout);
        CmdPassesGrow(log0, dev.log, at, seen, channel, |old(dev.log)|);
        if !read {
          return r, at, seen;
        }
        if k > 0 {
          BusyPassGrow(log0, dev.log, at[k - 1], start, channel);
        }
        CmdPassesAdd(dev.log, at, seen, channel, |old(dev.log)|, start, st);
        at, seen := at + [start], seen + [st];
        if done {
          if r.Err? {
            TimeoutsDistinct(r.error);
          }
          return r, at, seen;
        }
        k := k + 1;
      }
    }

    /** One pass of `poll_for_queue_empty`, `last` when it is past the
        timeout.  It reads the command queue (`read` when that worked) as
        `st`; an empty queue ends the poll; otherwise the pass checks for an
        early message, and then either goes on or, when `last`, reads the
        command queue again and raises the timeout. */
    method QueuePass(last: bool) returns (r: Result<()>, done: bool, read: bool, ghost st: (u32, u32))
      requires Valid()
      modifies dev, port
      ensures old(dev.log) <= dev.log
      ensures !done ==> read && r.Ok?
      ensures !read ==> done && r.Err? && r.error.GpuError?
      ensures var n := |old(dev.log)|;
        read ==>
          n + 2 <= |dev.log| && dev.log[n] == Rd(QueueHeadOff(channel), st.0) && dev.log[n + 1] == Rd(QueueTailOff(channel), st.1)
          && (st.0 == st.1 ==> done && r.Ok? && |dev.log| == n + 2)
          && (st.0 != st.1 ==> r.Err? || !done)
          && (st.0 != st.1 && !done ==> !last && BusyPass(dev.log, n, |dev.log|, channel))
          && (st.0 != st.1 && r.Err? ==>
                r.error.GpuError? || IsMsgTimeout(r.error)
                || (last && BusyPass(dev.log, n, |dev.log| - 2, channel) && CmdTimeoutRead(dev.log, channel, r.error)))
    {
      st := (0, 0);
      read := false;
      var cmd := ReadQueue(QueueHeadOff(channel), QueueTailOff(channel));
      if cmd.Err? {
        return Err(cmd.error), true, read, st;
      }
      read, st := true, cmd.value;
      if cmd.value.0 == cmd.value.1 {
        return Ok(()), true, read, st;
      }
      ghost var log1 := dev.log;
      var drained := DrainEarlyMessage();
      if drained.Err? {
        return drained, true, read, st;
      }
      assert dev.log[|log1| - 2] == log1[|log1| - 2] && dev.log[|log1| - 1] == log1[|log1| - 1];
      assert BusyPass(dev.log, |log1| - 2, |dev.log|, channel);
      if !last {
        return Ok(()), false, read, st;
      }
      ghost var log3 := dev.log;
      var again := ReadQueue(QueueHeadOff(channel), QueueTailOff(channel));
      BusyPassGrow(log3, dev.log, |log1| - 2, |log3|, channel);
      assert dev.log[|log1| - 2] == log1[|log1| - 2] && dev.log[|log1| - 1] == log1[|log1| - 1];
      if again.Err? {
        return Err(again.error), true, read, st;
      }
      TimeoutsAre(channel, again.value.0, again.value.1);
      r, done := Err(CmdTimeoutError(channel, again.value.0, again.value.1)), true;
    }

    /** Two `write_verbose` calls in a row: `a := va`, then `b := vb`. */
    method WriteTwo(a: nat, va: u32, b: nat, vb: u32) returns (r: Result<()>)
      modifies dev
      ensures old(dev.log) <= dev.log
      ensures r.Ok? ==>
        |dev.log| == |old(dev.log)| + 6 && Writes(dev.log[|old(dev.log)|..]) == [Wr(a, va), Wr(b, vb)]
    {
      VerboseWrites(dev.bar0, dev.log, a, va);
      r := dev.WriteVerbose(a, va);
      if r.Err? {
        return;
      }
      ghost var log1 := dev.log;
      VerboseWrites(dev.bar0, dev.log, b, vb);
      r := dev.WriteVerbose(b, vb);
      if r.Ok? {
        assert dev.log[|old(dev.log)|..] == log1[|old(dev.log)|..] + dev.log[|log1|..];
        WritesAppend(log1[|old(dev.log)|..], dev.log[|log1|..]);
      }
    }

    /** `write_queue_head_tail(head, tail)`: the tail is published before the
        head. */
    method WriteQueueHeadTail(head: u32, tail: u32) returns (r: Result<()>)
      modifies dev
      ensures old(dev.log) <= dev.log
      ensures r.Ok? ==>
        |dev.log| == |old(dev.log)| + 6
        && Writes(dev.log[|old(dev.log)|..]) == [Wr(QueueTailOff(channel), tail), Wr(QueueHeadOff(channel), head)]
    {
      r := WriteTwo(QueueTailOff(channel), tail, QueueHeadOff(channel), head);
    }

    /** The packet written into the channel's window, from `at` on. */
    method WriteWindow(data: seq<u32>) returns (ghost at: nat)
      requires Valid()
      modifies dev, port
      ensures old(dev.log) <= dev.log
      ensures |old(dev.log)| <= at <= |old(dev.log)| + 1 && at + |data| <= |dev.log|
      ensures dev.log[at..at + |data|] == DataWrites(port.dataReg, data)
    {
      at := WritePort(port, data, base);
    }

    /** `send_data(data)`: wait for an empty command queue (seen at `e`), write
        the packet into the channel's window through its EMEM port (from `at`
        on), then publish it: tail at the last word, then head at the first. */
    method SendData(data: seq<u32>) returns (r: Result<()>, ghost e: nat, ghost at: nat)
      requires Valid() && 1 <= |data| <= MaxPacketBytes / 4
      modifies dev, port
      ensures old(dev.log) <= dev.log
      ensures r.Ok? ==>
        |old(dev.log)| + 2 <= e <= at <= e + 1 && at + |data| + 6 <= |dev.log|
        && SeenEmpty(dev.log, e, QueueHeadOff(channel), QueueTailOff(channel))
        && dev.log[at..at + |data|] == DataWrites(port.dataReg, data)
        && Writes(dev.log[|dev.log| - 6..])
           == [Wr(QueueTailOff(channel), PublishedTail(base, |data|) as u32), Wr(QueueHeadOff(channel), base as u32)]
    {
      e, at := 0, 0;
      var polled, _, _ := PollForQueueEmpty(QueueEmptyTimeout);
      if polled.Err? {
        return Err(polled.error), e, at;
      }
      e := |dev.log|;
      ghost var log1 := dev.log;
      at := WriteWindow(data);
      ghost var log2 := dev.log;
      r := WriteQueueHeadTail(base, base + (|data| - 1) * 4);
      if r.Ok? {
        assert dev.log[..|log2|] == log2;
        assert log1 <= dev.log;
        assert dev.log[at..at + |data|] == log2[at..at + |data|];
        assert dev.log[|dev.log| - 6..] == dev.log[|log2|..];
      }
    }

    /** `reset_rpc_state`: when both queues are seen empty (`bothEmpty`)
        nothing is written; otherwise, after a non-fatal wait for a message,
        both queues are forced empty at the channel's base, command tail and
        head first, then message tail and head. */
    method ResetRpcState() returns (r: Result<()>, ghost bothEmpty: bool)
      requires Valid()
      modifies dev
      ensures old(dev.log) <= dev.log
      ensures bothEmpty ==>
        r.Ok? && |dev.log| == |old(dev.log)| + 4
        && SeenEmpty(dev.log, |old(dev.log)| + 2, QueueHeadOff(channel), QueueTailOff(channel))
        && SeenEmpty(dev.log, |old(dev.log)| + 4, MsgQueueHeadOff(channel), MsgQueueTailOff(channel))
      ensures r.Ok? && !bothEmpty ==>
        |old(dev.log)| + 12 <= |dev.log|
        && (!SeenEmpty(dev.log, |old(dev.log)| + 2, QueueHeadOff(channel), QueueTailOff(channel))
            || !SeenEmpty(dev.log, |old(dev.log)| + 4, MsgQueueHeadOff(channel), MsgQueueTailOff(channel)))
      ensures r.Ok? && !bothEmpty ==>
        Writes(dev.log[|dev.log| - 12..]) == ResetWrites(channel, base)
    {
      bothEmpty := false;
      var cmd := ReadQueue(QueueHeadOff(channel), QueueTailOff(channel));
      if cmd.Err? {
        return Err(cmd.error), bothEmpty;
      }
      ghost var log1 := dev.log;
      ghost var log2 := dev.log;
      if cmd.value.0 == cmd.value.1 {
        var msg := ReadQueue(MsgQueueHeadOff(channel), MsgQueueTailOff(channel));
        if msg.Err? {
          return Err(msg.error), bothEmpty;
        }
        if msg.value.0 == msg.value.1 {
          bothEmpty := true;
          return Ok(()), bothEmpty;
        }
        log2 := dev.log;
      }
      assert !SeenEmpty(log2, |old(dev.log)| + 2, QueueHeadOff(channel), QueueTailOff(channel))
             || !SeenEmpty(log2, |old(dev.log)| + 4, MsgQueueHeadOff(channel), MsgQueueTailOff(channel));
      r := ForceEmpty();
      if r.Ok? {
        assert dev.log[..|log2|] == log2;
      }
    }

    /** The second half of `reset_rpc_state`: a non-fatal wait for a message,
        then both queues set to the channel's base. */
    method ForceEmpty() returns (r: Result<()>)
      requires Valid()
      modifies dev
      ensures old(dev.log) <= dev.log
      ensures r.Ok? ==> |old(dev.log)| + 12 <= |dev.log| && Writes(dev.log[|dev.log| - 12..]) == ResetWrites(channel, base)
    {
      r := SettleMessages();
      if r.Err? {
        return;
      }
      ghost var log3 := dev.log;
      r := WriteQueueHeadTail(base, base);
      if r.Err? {
        return;
      }
      ghost var log4 := dev.log;
      r := WriteTwo(MsgQueueTailOff(channel), base, MsgQueueHeadOff(channel), base);
      if r.Ok? {
        assert dev.log[|dev.log| - 12..] == log4[|log3|..] + dev.log[|log4|..];
        WritesAppend(log4[|log3|..], dev.log[|log4|..]);
      }
    }

    /** `poll_for_msg_queue(timeout_fatal=False)`, which only reads. */
    method SettleMessages() returns (r: Result<()>)
      modifies dev
      ensures old(dev.log) <= dev.log
    {
      MsgPollOnlyReads(dev.bar0, dev.log, channel, ReceiveTimeout, false, 0);
      r := PollForMsgQueue(ReceiveTimeout, false);
    }
  }
}
