/**
 * `GpuMnoc` (gpu/mnoc.py): the mailbox pair of one MNOC port.  The host
 * sends through the endpoint's receive mailbox (a metadata word carrying
 * the byte size, then the data words, paced by a credit bit every 64
 * bytes) and receives through the endpoint's send mailbox (the byte size
 * from its info register, then the data words).  Bit 24 of an info
 * register is "ready", bit 25 "error" and bit 26 "credit".
 */
module Mnocs {
  import opened Bits
  import opened Text
  import opened GpuErrors
  import opened Devices
  import opened Falcons

  const ReadyBit: nat := 0x100_0000
  const ErrorBit: nat := 0x200_0000
  const CreditBit: nat := 0x400_0000
  /** The byte size field of an info register, bits 19:0. */
  const SizeMask: nat := 0xf_ffff
  /** Bit 20 of the metadata word written before a message. */
  const SendFlag: nat := 0x10_0000
  /** A credit is awaited before every 64 bytes of data. */
  const CreditBytes: nat := 64

  datatype MboxReg = RxFifoData | InfoSend | RdataSend | InfoReceive | WdataReceive

  /** The name, base and port of a `GpuMnoc`; `title` is its `str()`,
      `"<device> <name> port <port>"`. */
  datatype Mailbox = Mailbox(title: string, base: nat, port: nat)
  {
    /** The `offset_*` properties. */
    function Offset(reg: MboxReg): nat
    {
      match reg
      case RxFifoData => base + port * 8
      case InfoSend => base + 0x104 + port * 12
      case RdataSend => base + 0x104 + port * 12 + 4
      case InfoReceive => base + 0x184 + port * 12
      case WdataReceive => base + 0x184 + port * 12 + 4
    }

    /** `poll_for_message_ready(timeout)` */
    function MessageReadyParams(timeout: nat): PollParams
    {
      PollParams(Register, title + " message ready", Offset(InfoSend), Some(ReadyBit), timeout, ReadyBit, false, None)
    }

    /** `poll_for_receive_ready()`, with its 5-tick timeout. */
    function ReceiveReadyParams(): PollParams
    {
      PollParams(Register, title + " receive ready", Offset(InfoReceive), Some(ReadyBit), 5, ReadyBit, false, None)
    }

    /** `poll_for_receive_credits()`, with its 1-tick timeout. */
    function CreditParams(): PollParams
    {
      PollParams(Register, title + " credits", Offset(InfoReceive), Some(CreditBit), 1, CreditBit, false, None)
    }

    /** `check_receive_mbox_errors` once the info register read `v`. */
    function ReceiveErrorCheck(v: u32): Result<()>
    {
      ErrorBitCheck(Offset(InfoReceive), v, GpuError(title + " receive error " + Hex(v)))
    }

    /** `check_send_mbox_errors` once the info register read `v`. */
    function SendErrorCheck(v: u32): Result<()>
    {
      ErrorBitCheck(Offset(InfoSend), v, GpuError(title + " send mbox error " + Hex(Offset(InfoSend)) + " = " + Hex(v)))
    }
  }

  /** The five registers of one port are distinct, and so are those of
      different ports as long as both are below 11. */
  lemma MailboxRegistersDistinct(base: nat, p: nat, q: nat, r: MboxReg, s: MboxReg)
    requires p < 11 && q < 11
    ensures Mailbox("", base, p).Offset(r) == Mailbox("", base, q).Offset(s) <==> p == q && r == s
  {
  }

  /** Port 11's send info register is port 0's receive data register: the
      layout only holds for ports 0 to 10. */
  lemma EleventhPortOverlaps(base: nat)
    ensures Mailbox("", base, 11).Offset(InfoSend) == Mailbox("", base, 0).Offset(WdataReceive)
  {
  }

  /** A checked read of an info register followed by the test of its error bit. */
  function ErrorBitCheck(offset: nat, v: u32, e: Error): Result<()>
  {
    if IsBadf(v) then Err(CheckedRead(offset, v).error)
    else if And(v, ErrorBit) != 0 then Err(e)
    else Ok(())
  }

  /** The check passes exactly on a good value with bit 25 clear. */
  lemma ErrorBitCheckMeans(offset: nat, v: u32, e: Error)
    ensures ErrorBitCheck(offset, v, e).Ok? <==> !IsBadf(v) && Bit(v, 25) == 0
    ensures ErrorBitCheck(offset, v, e).Err? && !IsBadf(v) ==> ErrorBitCheck(offset, v, e).error == e
  {
    assert ErrorBit == Pow2(25) by {
      Pow2Values();
      Pow2Add(24, 1);
    }
    AndPow2(v, 25);
    BitRange(v, 25);
  }

  /** The metadata word `size | 1 << 20` announcing a message of `size` bytes. */
  function Metadata(size: nat): nat
  {
    Or(size, SendFlag)
  }

  /** For a size that fits the 20-bit field, the metadata word is a 32-bit
      value with bit 20 set, and masking it with 0xfffff, as the receiving
      side does, gives back the size. */
  lemma MetadataRoundTrip(size: nat)
    requires size < SendFlag
    ensures Metadata(size) == size + SendFlag < 0x1_0000_0000
    ensures And(Metadata(size), SizeMask) == size
    ensures Bit(Metadata(size), 20) == 1
  {
    Pow2Values();
    assert SendFlag == Pow2(20);
    OrHighBit(size, 20);
    assert SizeMask == LowMask(20);
    AndLowMask(size + SendFlag, 20);
    BitAtDiv(Metadata(size), 20);
    DivPlusMultiple(size, Pow2(20), 1);
  }

  // -----------------------------------------------------------------------
  // The register traffic of send_data and receive_data

  /** `check_receive_mbox_errors()` after the accesses `log`. */
  function CheckReceive(mb: Mailbox, bar0: (seq<Access>, nat) -> u32, log: seq<Access>): (Result<()>, seq<Access>)
  {
    var v := bar0(log, mb.Offset(InfoReceive));
    (mb.ReceiveErrorCheck(v), log + [Rd(mb.Offset(InfoReceive), v)])
  }

  /** `check_send_mbox_errors()` after the accesses `log`. */
  function CheckSend(mb: Mailbox, bar0: (seq<Access>, nat) -> u32, log: seq<Access>): (Result<()>, seq<Access>)
  {
    var v := bar0(log, mb.Offset(InfoSend));
    (mb.SendErrorCheck(v), log + [Rd(mb.Offset(InfoSend), v)])
  }

  /** A step that waits on the device: the outcome and the accesses made by then. */
  type Wait = seq<Access> -> (Result<()>, seq<Access>)

  /** `poll_for_receive_credits()` after the accesses given. */
  function CreditWait(mb: Mailbox, bar0: (seq<Access>, nat) -> u32): Wait
  {
    log => Poll(mb.CreditParams(), bar0, log, 0)
  }

  /** The data loop of `send_data` from the word `data[0]` on, `sent` bytes
      into the message, writing to `w`: `credit` runs whenever `sent` is a
      multiple of 64. */
  function SendWords(credit: Wait, w: nat, log: seq<Access>, data: seq<u32>, sent: nat): (Result<()>, seq<Access>)
    decreases |data|
  {
    if |data| == 0 then (Ok(()), log)
    else if sent % CreditBytes == 0 then
      var (c, log1) := credit(log);
      if c.Err? then (c, log1)
      else SendWords(credit, w, log1 + [Wr(w, data[0])], data[1..], sent + 4)
    else SendWords(credit, w, log + [Wr(w, data[0])], data[1..], sent + 4)
  }

  /** The same loop described by chunks: one credit, then up to 16 words
      written back to back. */
  function SendChunks(credit: Wait, w: nat, log: seq<Access>, data: seq<u32>): (Result<()>, seq<Access>)
    decreases |data|
  {
    if |data| == 0 then (Ok(()), log)
    else
      var n := if |data| < 16 then |data| else 16;
      var (c, log1) := credit(log);
      if c.Err? then (c, log1)
      else SendChunks(credit, w, log1 + DataWrites(w, data[..n]), data[n..])
  }

  /** `send_data(data)` after the accesses `log`. */
  function Send(mb: Mailbox, bar0: (seq<Access>, nat) -> u32, log: seq<Access>, data: seq<u32>): (Result<()>, seq<Access>)
  {
    var (e, log1) := CheckReceive(mb, bar0, log);
    if e.Err? then (e, log1)
    else
      var (p, log2) := Poll(mb.ReceiveReadyParams(), bar0, log1, 0);
      if p.Err? then (p, log2)
      else
        var meta := Metadata(4 * |data|);
        if meta >= 0x1_0000_0000 then (Err(MetadataTooWide), log2)
        else
          var (w, log3) := SendWords(CreditWait(mb, bar0), mb.Offset(WdataReceive), log2 + [Wr(mb.Offset(InfoReceive), meta)], data, 0);
          if w.Err? then (w, log3)
          else CheckReceive(mb, bar0, log3)
  }

  /** What the 32-bit register map raises for a value wider than 32 bits. */
  const MetadataTooWide: Error := ValueError("memoryview: invalid value for format 'I'")

  /** The data-register reads of `receive_data`, `n` words still to go after
      the words `got`; every read is a checked `read`. */
  function ReadData(mb: Mailbox, bar0: (seq<Access>, nat) -> u32, log: seq<Access>, n: nat, got: seq<u32>): (Result<seq<u32>>, seq<Access>)
    decreases n
  {
    if n == 0 then (Ok(got), log)
    else
      var v := bar0(log, mb.Offset(RdataSend));
      var log1 := log + [Rd(mb.Offset(RdataSend), v)];
      if IsBadf(v) then (Err(CheckedRead(mb.Offset(RdataSend), v).error), log1)
      else ReadData(mb, bar0, log1, n - 1, got + [v])
  }

  /** `receive_data(timeout)` after the accesses `log`. */
  function Receive(mb: Mailbox, bar0: (seq<Access>, nat) -> u32, log: seq<Access>, timeout: nat): (Result<seq<u32>>, seq<Access>)
  {
    var (p, log1) := Poll(mb.MessageReadyParams(timeout), bar0, log, 0);
    if p.Err? then
      if p.error.GpuPollTimeout? then
        var (c, log2) := CheckSend(mb, bar0, log1);
        (if c.Err? then Err(c.error) else Err(GpuRpcTimeout("")), log2)
      else (Err(p.error), log1)
    else
      var v := bar0(log1, mb.Offset(InfoSend));
      var log2 := log1 + [Rd(mb.Offset(InfoSend), v)];
      if IsBadf(v) then (Err(CheckedRead(mb.Offset(InfoSend), v).error), log2)
      else
        var (d, log3) := ReadData(mb, bar0, log2, WordCount(And(v, SizeMask)), []);
        if d.Err? then (d, log3)
        else
          var (c, log4) := CheckSend(mb, bar0, log3);
          (if c.Err? then Err(c.error) else d, log4)
  }

  // -----------------------------------------------------------------------
  // What the traffic means

  /** Inside a 64-byte chunk the loop writes the chunk's remaining words
      without awaiting a credit. */
  lemma {:induction false} SendWordsInChunk(credit: Wait, w: nat, log: seq<Access>, data: seq<u32>, sent: nat, j: nat)
    requires sent % CreditBytes == 4 * j && 0 < j < 16
    ensures var n := if |data| < 16 - j then |data| else 16 - j;
      SendWords(credit, w, log, data, sent)
      == SendWords(credit, w, log + DataWrites(w, data[..n]), data[n..], sent + 4 * n)
    decreases |data|
  {
    var n := if |data| < 16 - j then |data| else 16 - j;
    if |data| == 0 {
      assert n == 0 && data[..0] == [] && data[0..] == data;
      NoWrites(log, w);
    } else if n == 1 {
      ChunkLastWord(credit, w, log, data, sent);
    } else {
      SendWordsInChunk(credit, w, log + [Wr(w, data[0])], data[1..], sent + 4, j + 1);
      ChunkNextWord(credit, w, log, data, sent, n);
    }
  }

  /** The last word of a chunk is written without a credit. */
  lemma ChunkLastWord(credit: Wait, w: nat, log: seq<Access>, data: seq<u32>, sent: nat)
    requires |data| >= 1 && sent % CreditBytes != 0
    ensures SendWords(credit, w, log, data, sent) == SendWords(credit, w, log + DataWrites(w, data[..1]), data[1..], sent + 4)
  {
    SendWordsStep(credit, w, log, data, sent);
    WritesCons(log, w, data, 1);
    TailSlices(data, 1);
    NoWrites(log + [Wr(w, data[0])], w);
  }

  /** A word inside a chunk is written without a credit, and then the rest
      of the chunk. */
  lemma ChunkNextWord(credit: Wait, w: nat, log: seq<Access>, data: seq<u32>, sent: nat, n: nat)
    requires 2 <= n <= |data| && sent % CreditBytes != 0
    requires var log1 := log + [Wr(w, data[0])];
      SendWords(credit, w, log1, data[1..], sent + 4)
      == SendWords(credit, w, log1 + DataWrites(w, data[1..][..n - 1]), data[1..][n - 1..], sent + 4 + 4 * (n - 1))
    ensures SendWords(credit, w, log, data, sent)
      == SendWords(credit, w, log + DataWrites(w, data[..n]), data[n..], sent + 4 * n)
  {
    SendWordsStep(credit, w, log, data, sent);
    WritesCons(log, w, data, n);
    TailSlices(data, n);
    assert sent + 4 + 4 * (n - 1) == sent + 4 * n;
  }

  /** The words after the first, cut at `n`. */
  lemma TailSlices(data: seq<u32>, n: nat)
    requires 1 <= n <= |data|
    ensures data[1..][..n - 1] == data[1..n] && data[1..][n - 1..] == data[n..]
    ensures n == 1 ==> data[1..] == data[n..] && data[1..n] == []
  {
  }

  lemma NoWrites(log: seq<Access>, w: nat)
    ensures log + DataWrites(w, []) == log
  {
  }

  /** Writing `data[0]` and then `data[1..n]` writes `data[..n]`. */
  lemma WritesCons(log: seq<Access>, w: nat, data: seq<u32>, n: nat)
    requires 1 <= n <= |data|
    ensures (log + [Wr(w, data[0])]) + DataWrites(w, data[1..n]) == log + DataWrites(w, data[..n])
  {
  }

  /** The data loop awaits a credit before words 0, 16, 32, ... and before
      no other word: it is the chunked loop. */
  lemma {:induction false} SendWordsAreChunks(credit: Wait, w: nat, log: seq<Access>, data: seq<u32>, sent: nat)
    requires sent % CreditBytes == 0
    ensures SendWords(credit, w, log, data, sent) == SendChunks(credit, w, log, data)
    decreases |data|
  {
    if |data| > 0 {
      var n := if |data| < 16 then |data| else 16;
      var (c, log1) := credit(log);
      if c.Ok? {
        var log2 := log1 + [Wr(w, data[0])];
        assert SendWords(credit, w, log, data, sent) == SendWords(credit, w, log2, data[1..], sent + 4);
        WritesCons(log1, w, data, n);
        var after := log1 + DataWrites(w, data[..n]);
        TailSlices(data, n);
        if n == 1 {
          NoWrites(log2, w);
        } else {
          SendWordsInChunk(credit, w, log2, data[1..], sent + 4, 1);
        }
        assert SendWords(credit, w, log, data, sent) == SendWords(credit, w, after, data[n..], sent + 4 * n);
        if n == 16 {
          SendWordsAreChunks(credit, w, after, data[n..], sent + 4 * n);
        } else {
          assert data[n..] == [];
        }
      }
    }
  }

  /** A waiting step that only appends reads to the log. */
  ghost predicate ReadOnly(credit: Wait)
  {
    forall log :: ReadOnlyAt(credit, log)
  }

  ghost predicate ReadOnlyAt(credit: Wait, log: seq<Access>)
  {
    log <= credit(log).1 && Writes(credit(log).1[|log|..]) == []
  }

  /** `poll_for_receive_credits` only reads. */
  lemma CreditWaitReadOnly(mb: Mailbox, bar0: (seq<Access>, nat) -> u32)
    ensures ReadOnly(CreditWait(mb, bar0))
  {
    forall log
      ensures ReadOnlyAt(CreditWait(mb, bar0), log)
    {
      PollOnlyReads(mb.CreditParams(), bar0, log, 0);
    }
  }

  /** With read-only credit waits, a chunked send writes exactly the data
      words, in order, and never shortens the log. */
  lemma {:induction false} SendChunksWrites(credit: Wait, w: nat, log: seq<Access>, data: seq<u32>)
    requires ReadOnly(credit)
    ensures var (r, out) := SendChunks(credit, w, log, data);
      log <= out && (r.Ok? ==> Writes(out[|log|..]) == DataWrites(w, data))
    decreases |data|
  {
    if |data| > 0 {
      var n := if |data| < 16 then |data| else 16;
      var (c, log1) := credit(log);
      assert ReadOnlyAt(credit, log);
      if c.Ok? {
        var chunk := DataWrites(w, data[..n]);
        var log2 := log1 + chunk;
        SendChunksWrites(credit, w, log2, data[n..]);
        var (r, out) := SendChunks(credit, w, log2, data[n..]);
        assert SendChunks(credit, w, log, data) == (r, out);
        assert log <= log2;
        if r.Ok? {
          WritesSplit(log, log2, out);
          WritesSplit(log, log1, log2);
          assert log2[|log1|..] == chunk;
          OnlyWrites(chunk);
          assert Writes(log2[|log|..]) == chunk;
          DataWritesSplit(w, data, n);
        }
      }
    }
  }

  lemma DataWritesSplit(w: nat, data: seq<u32>, n: nat)
    requires n <= |data|
    ensures DataWrites(w, data[..n]) + DataWrites(w, data[n..]) == DataWrites(w, data)
  {
  }

  /** A log made only of writes is its own list of writes. */
  lemma {:induction false} OnlyWrites(log: seq<Access>)
    requires forall i :: 0 <= i < |log| ==> log[i].Wr?
    ensures Writes(log) == log
  {
    if |log| > 0 {
      OnlyWrites(log[..|log| - 1]);
    }
  }

  /** The ready bit, bit 24, as a power of two. */
  lemma ReadyBitIsBit24(v: nat)
    ensures ReadyBit == Pow2(24)
    ensures And(v, ReadyBit) == ReadyBit ==> Bit(v, 24) == 1
  {
    Pow2Values();
    AndPow2(v, 24);
  }

  /** A read of the info register that is good and has bit 25 clear. */
  predicate CleanInfo(a: Access, offset: nat)
  {
    a.Rd? && a.offset == offset && !IsBadf(a.value) && Bit(a.value, 25) == 0
  }

  /** `send_data` writes nothing but the metadata word `4 * len(data) | 1 << 20`
      followed by the data words, in order. */
  lemma SendWrites(mb: Mailbox, bar0: (seq<Access>, nat) -> u32, log: seq<Access>, data: seq<u32>)
    ensures var (r, out) := Send(mb, bar0, log, data);
      log < out
      && (r.Ok? ==>
            Writes(out[|log|..]) == [Wr(mb.Offset(InfoReceive), Metadata(4 * |data|))] + DataWrites(mb.Offset(WdataReceive), data))
  {
    SendGrows(mb, bar0, log, data);
    if Send(mb, bar0, log, data).0.Ok? {
      SendOkWrites(mb, bar0, log, data);
    }
  }

  /** `send_data` always appends to the log. */
  lemma SendGrows(mb: Mailbox, bar0: (seq<Access>, nat) -> u32, log: seq<Access>, data: seq<u32>)
    ensures log < Send(mb, bar0, log, data).1
  {
    var (e, log1) := CheckReceive(mb, bar0, log);
    if e.Ok? {
      var (p, log2) := Poll(mb.ReceiveReadyParams(), bar0, log1, 0);
      PollOnlyReads(mb.ReceiveReadyParams(), bar0, log1, 0);
      if p.Ok? && Metadata(4 * |data|) < 0x1_0000_0000 {
        var log3 := log2 + [Wr(mb.Offset(InfoReceive), Metadata(4 * |data|))];
        SendWordsAreChunks(CreditWait(mb, bar0), mb.Offset(WdataReceive), log3, data, 0);
        CreditWaitReadOnly(mb, bar0);
        SendChunksWrites(CreditWait(mb, bar0), mb.Offset(WdataReceive), log3, data);
      }
    }
  }

  /** The writes of a successful `send_data`. */
  lemma SendOkWrites(mb: Mailbox, bar0: (seq<Access>, nat) -> u32, log: seq<Access>, data: seq<u32>)
    requires Send(mb, bar0, log, data).0.Ok?
    ensures var out := Send(mb, bar0, log, data).1;
      log <= out && Writes(out[|log|..])
      == [Wr(mb.Offset(InfoReceive), Metadata(4 * |data|))] + DataWrites(mb.Offset(WdataReceive), data)
  {
    SendGrows(mb, bar0, log, data);
    var info := mb.Offset(InfoReceive);
    var log1 := log + [Rd(info, bar0(log, info))];
    var meta := Metadata(4 * |data|);
    var log2, log4 := SendOkUnfold(mb, bar0, log, data);
    PollOnlyReads(mb.ReceiveReadyParams(), bar0, log1, 0);
    var log3 := log2 + [Wr(info, meta)];
    SendWordsAreChunks(CreditWait(mb, bar0), mb.Offset(WdataReceive), log3, data, 0);
    CreditWaitReadOnly(mb, bar0);
    SendChunksWrites(CreditWait(mb, bar0), mb.Offset(WdataReceive), log3, data);
    SendTail(log, log1, log2, log3, log4, Send(mb, bar0, log, data).1, info, meta);
  }

  /** A successful `send_data`, one step unfolded. */
  lemma SendOkUnfold(mb: Mailbox, bar0: (seq<Access>, nat) -> u32, log: seq<Access>, data: seq<u32>)
    returns (log2: seq<Access>, log4: seq<Access>)
    requires Send(mb, bar0, log, data).0.Ok?
    ensures var info := mb.Offset(InfoReceive);
      var log1 := log + [Rd(info, bar0(log, info))];
      var meta := Metadata(4 * |data|);
      var pr := Poll(mb.ReceiveReadyParams(), bar0, log1, 0);
      meta < 0x1_0000_0000 && pr.0.Ok? && pr.1 == log2
      && var sw := SendWords(CreditWait(mb, bar0), mb.Offset(WdataReceive), log2 + [Wr(info, meta)], data, 0);
      sw.0.Ok? && sw.1 == log4
      && Send(mb, bar0, log, data).1 == log4 + [Rd(info, bar0(log4, info))]
  {
    var info := mb.Offset(InfoReceive);
    var log1 := log + [Rd(info, bar0(log, info))];
    log2 := Poll(mb.ReceiveReadyParams(), bar0, log1, 0).1;
    log4 := SendWords(CreditWait(mb, bar0), mb.Offset(WdataReceive), log2 + [Wr(info, Metadata(4 * |data|))], data, 0).1;
  }

  /** A successful `send_data` began and ended with a read of a clean receive
      mailbox, and wrote the metadata right after a read that showed the
      ready bit. */
  lemma SendChecks(mb: Mailbox, bar0: (seq<Access>, nat) -> u32, log: seq<Access>, data: seq<u32>)
    ensures var (r, out) := Send(mb, bar0, log, data);
      var info := mb.Offset(InfoReceive);
      var log1 := log + [Rd(info, bar0(log, info))];
      var log2 := Poll(mb.ReceiveReadyParams(), bar0, log1, 0).1;
      r.Ok? ==>
        |log| < |log2| < |out| && CleanInfo(out[|log|], info) && CleanInfo(out[|out| - 1], info)
        && log2[|log2| - 1].Rd? && log2[|log2| - 1].offset == info && Bit(log2[|log2| - 1].value, 24) == 1
        && out[|log2|] == Wr(info, Metadata(4 * |data|))
  {
    var info := mb.Offset(InfoReceive);
    var (r, out) := Send(mb, bar0, log, data);
    var v := bar0(log, info);
    var log1 := log + [Rd(info, v)];
    ErrorBitCheckMeans(info, v, GpuError(mb.title + " receive error " + Hex(v)));
    if r.Ok? {
      var (p, log2) := Poll(mb.ReceiveReadyParams(), bar0, log1, 0);
      PollEndsOn(mb.ReceiveReadyParams(), bar0, log1, 0);
      PollOnlyReads(mb.ReceiveReadyParams(), bar0, log1, 0);
      ReadyBitIsBit24(log2[|log2| - 1].value);
      var meta := Metadata(4 * |data|);
      var log3 := log2 + [Wr(info, meta)];
      var (wr, log4) := SendWords(CreditWait(mb, bar0), mb.Offset(WdataReceive), log3, data, 0);
      SendWordsAreChunks(CreditWait(mb, bar0), mb.Offset(WdataReceive), log3, data, 0);
      CreditWaitReadOnly(mb, bar0);
      SendChunksWrites(CreditWait(mb, bar0), mb.Offset(WdataReceive), log3, data);
      var w := bar0(log4, info);
      ErrorBitCheckMeans(info, w, GpuError(mb.title + " receive error " + Hex(w)));
      assert out == log4 + [Rd(info, w)];
      assert out[|log|] == log1[|log|] && out[|log2|] == log3[|log2|];
    }
  }

  /** An error bit seen by the first check raises `GpuError` after that one
      read, before anything is written. */
  lemma SendRefusesErrorBit(mb: Mailbox, bar0: (seq<Access>, nat) -> u32, log: seq<Access>, data: seq<u32>)
    requires var v := bar0(log, mb.Offset(InfoReceive)); !IsBadf(v) && Bit(v, 25) == 1
    ensures var v := bar0(log, mb.Offset(InfoReceive));
      Send(mb, bar0, log, data) == (Err(GpuError(mb.title + " receive error " + Hex(v))), log + [Rd(mb.Offset(InfoReceive), v)])
  {
    var v := bar0(log, mb.Offset(InfoReceive));
    ErrorBitCheckMeans(mb.Offset(InfoReceive), v, GpuError(mb.title + " receive error " + Hex(v)));
  }

  /** The writes of a successful send, from the pieces of its log. */
  lemma SendTail(log: seq<Access>, log1: seq<Access>, log2: seq<Access>, log3: seq<Access>, log4: seq<Access>,
                 out: seq<Access>, info: nat, meta: u32)
    requires |log1| == |log| + 1 && log <= log1 && log1[|log|].Rd?
    requires log1 <= log2 && Writes(log2[|log1|..]) == []
    requires log3 == log2 + [Wr(info, meta)] && log3 <= log4 && |out| == |log4| + 1 && log4 <= out && out[|log4|].Rd?
    ensures Writes(out[|log|..]) == [Wr(info, meta)] + Writes(log4[|log3|..])
  {
    assert Writes(log1[|log|..]) == [] by {
      assert log1[|log|..] == [log1[|log|]];
      assert [log1[|log|]][..0] == [];
    }
    assert Writes(log3[|log2|..]) == [Wr(info, meta)] by {
      assert log3[|log2|..] == [Wr(info, meta)];
      assert [Wr(info, meta)][..0] == [];
    }
    assert Writes(out[|log4|..]) == [] by {
      assert out[|log4|..] == [out[|log4|]];
      assert [out[|log4|]][..0] == [];
    }
    WritesSplit(log, log1, out);
    WritesSplit(log1, log2, out);
    WritesSplit(log2, log3, out);
    WritesSplit(log3, log4, out);
  }

  /** The data loop of `receive_data` only reads. */
  lemma {:induction false} ReadDataOnlyReads(mb: Mailbox, bar0: (seq<Access>, nat) -> u32, log: seq<Access>, n: nat, got: seq<u32>)
    ensures var out := ReadData(mb, bar0, log, n, got).1;
      log <= out && Writes(out[|log|..]) == []
    decreases n
  {
    if n > 0 {
      var rd := mb.Offset(RdataSend);
      var v := bar0(log, rd);
      var log1 := log + [Rd(rd, v)];
      assert Writes(log1[|log|..]) == [] by {
        assert log1[|log|..] == [Rd(rd, v)];
        assert [Rd(rd, v)][..0] == [];
      }
      if !IsBadf(v) {
        ReadDataOnlyReads(mb, bar0, log1, n - 1, got + [v]);
        WritesSplit(log, log1, ReadData(mb, bar0, log1, n - 1, got + [v]).1);
      }
    }
  }

  /** When the data loop succeeds it has read `n` more words from the data
      register, in order, after the words it had. */
  lemma {:induction false} ReadDataWords(mb: Mailbox, bar0: (seq<Access>, nat) -> u32, log: seq<Access>, n: nat, got: seq<u32>)
    ensures var (r, out) := ReadData(mb, bar0, log, n, got);
      r.Ok? ==>
        |r.value| == |got| + n && r.value[..|got|] == got
        && log <= out && out[|log|..] == DataReads(mb.Offset(RdataSend), r.value[|got|..])
    decreases n
  {
    var rd := mb.Offset(RdataSend);
    var (r, out) := ReadData(mb, bar0, log, n, got);
    if n == 0 {
      assert out[|log|..] == [] && r.value[|got|..] == [];
    } else {
      var v := bar0(log, rd);
      var log1 := log + [Rd(rd, v)];
      if !IsBadf(v) && r.Ok? {
        ReadDataWords(mb, bar0, log1, n - 1, got + [v]);
        assert r.value[..|got|] == (got + [v])[..|got|];
        assert r.value[|got|..] == [v] + r.value[|got| + 1..];
        DataReadsCons(rd, v, r.value[|got| + 1..]);
        assert out[|log|..] == [Rd(rd, v)] + out[|log1|..];
      }
    }
  }

  lemma DataReadsCons(rd: nat, v: u32, rest: seq<u32>)
    ensures DataReads(rd, [v] + rest) == [Rd(rd, v)] + DataReads(rd, rest)
  {
  }

  /** `receive_data` only reads. */
  lemma ReceiveOnlyReads(mb: Mailbox, bar0: (seq<Access>, nat) -> u32, log: seq<Access>, timeout: nat)
    ensures var out := Receive(mb, bar0, log, timeout).1;
      log < out && Writes(out[|log|..]) == []
  {
    var info := mb.Offset(InfoSend);
    var (p, log1) := Poll(mb.MessageReadyParams(timeout), bar0, log, 0);
    var out := Receive(mb, bar0, log, timeout).1;
    PollEndsOn(mb.MessageReadyParams(timeout), bar0, log, 0);
    PollOnlyReads(mb.MessageReadyParams(timeout), bar0, log, 0);
    if p.Ok? || p.error.GpuPollTimeout? {
      var v := bar0(log1, info);
      var log2 := log1 + [Rd(info, v)];
      assert Writes(log2[|log1|..]) == [] by {
        assert log2[|log1|..] == [Rd(info, v)];
        assert [Rd(info, v)][..0] == [];
      }
      WritesSplit(log, log1, log2);
      if p.Ok? && !IsBadf(v) {
        var (d, log3) := ReadData(mb, bar0, log2, WordCount(And(v, SizeMask)), []);
        ReadDataOnlyReads(mb, bar0, log2, WordCount(And(v, SizeMask)), []);
        WritesSplit(log, log2, log3);
        if d.Ok? {
          var w := bar0(log3, info);
          var log4 := log3 + [Rd(info, w)];
          assert Writes(log4[|log3|..]) == [] by {
            assert log4[|log3|..] == [Rd(info, w)];
            assert [Rd(info, w)][..0] == [];
          }
          WritesSplit(log, log3, log4);
        }
      }
    }
  }

  /** When `receive_data` succeeds, the wait ended on a read showing the
      ready bit; the next read gave the size, and exactly ceil(size / 4)
      words were then read from the data register, where size is the info
      register's low 20 bits; a final read found the send mailbox clean. */
  lemma ReceiveWords(mb: Mailbox, bar0: (seq<Access>, nat) -> u32, log: seq<Access>, timeout: nat)
    ensures var log1 := Poll(mb.MessageReadyParams(timeout), bar0, log, 0).1;
      var (r, out) := Receive(mb, bar0, log, timeout);
      var v := bar0(log1, mb.Offset(InfoSend));
      r.Ok? ==>
        |log| < |log1| && log1[|log1| - 1].offset == mb.Offset(InfoSend) && Bit(log1[|log1| - 1].value, 24) == 1
        && |out| == |log1| + |r.value| + 2 && out[|log1|] == Rd(mb.Offset(InfoSend), v)
        && |r.value| == WordCount(And(v, SizeMask))
        && out[|log1| + 1..|out| - 1] == DataReads(mb.Offset(RdataSend), r.value)
        && CleanInfo(out[|out| - 1], mb.Offset(InfoSend))
  {
    ReceiveWaitEnd(mb, bar0, log, timeout);
    ReceiveBody(mb, bar0, log, timeout);
  }

  /** A successful `receive_data` ended its wait on a read showing the ready bit. */
  lemma ReceiveWaitEnd(mb: Mailbox, bar0: (seq<Access>, nat) -> u32, log: seq<Access>, timeout: nat)
    ensures var log1 := Poll(mb.MessageReadyParams(timeout), bar0, log, 0).1;
      Receive(mb, bar0, log, timeout).0.Ok? ==>
        |log| < |log1| && log1[|log1| - 1].offset == mb.Offset(InfoSend) && Bit(log1[|log1| - 1].value, 24) == 1
  {
    var log1 := Poll(mb.MessageReadyParams(timeout), bar0, log, 0).1;
    if Receive(mb, bar0, log, timeout).0.Ok? {
      PollEndsOn(mb.MessageReadyParams(timeout), bar0, log, 0);
      ReadyBitIsBit24(log1[|log1| - 1].value);
    }
  }

  /** The accesses of a successful `receive_data` after its wait: the size
      read, the data reads, the final check. */
  lemma ReceiveBody(mb: Mailbox, bar0: (seq<Access>, nat) -> u32, log: seq<Access>, timeout: nat)
    ensures var log1 := Poll(mb.MessageReadyParams(timeout), bar0, log, 0).1;
      var (r, out) := Receive(mb, bar0, log, timeout);
      var v := bar0(log1, mb.Offset(InfoSend));
      r.Ok? ==>
        |out| == |log1| + |r.value| + 2 && out[|log1|] == Rd(mb.Offset(InfoSend), v)
        && |r.value| == WordCount(And(v, SizeMask))
        && out[|log1| + 1..|out| - 1] == DataReads(mb.Offset(RdataSend), r.value)
        && CleanInfo(out[|out| - 1], mb.Offset(InfoSend))
  {
    var info := mb.Offset(InfoSend);
    var log1 := Poll(mb.MessageReadyParams(timeout), bar0, log, 0).1;
    var (r, out) := Receive(mb, bar0, log, timeout);
    if r.Ok? {
      var v := bar0(log1, info);
      var log2 := log1 + [Rd(info, v)];
      var n := WordCount(And(v, SizeMask));
      var log3 := ReceiveOkUnfold(mb, bar0, log, timeout);
      ReadDataWords(mb, bar0, log2, n, []);
      var w := bar0(log3, info);
      ErrorBitCheckMeans(info, w, GpuError(mb.title + " send mbox error " + Hex(info) + " = " + Hex(w)));
      ReceiveSlices(r.value, log1, log2, log3, out, info, v, w);
    }
  }

  /** A successful `receive_data`, one step unfolded. */
  lemma ReceiveOkUnfold(mb: Mailbox, bar0: (seq<Access>, nat) -> u32, log: seq<Access>, timeout: nat) returns (log3: seq<Access>)
    requires Receive(mb, bar0, log, timeout).0.Ok?
    ensures var log1 := Poll(mb.MessageReadyParams(timeout), bar0, log, 0).1;
      var info := mb.Offset(InfoSend);
      var v := bar0(log1, info);
      var (r, out) := Receive(mb, bar0, log, timeout);
      var d := ReadData(mb, bar0, log1 + [Rd(info, v)], WordCount(And(v, SizeMask)), []);
      d.0.Ok? && d.1 == log3 && r == d.0
      && out == log3 + [Rd(info, bar0(log3, info))] && mb.SendErrorCheck(bar0(log3, info)).Ok?
  {
    var log1 := Poll(mb.MessageReadyParams(timeout), bar0, log, 0).1;
    var info := mb.Offset(InfoSend);
    var v := bar0(log1, info);
    log3 := ReadData(mb, bar0, log1 + [Rd(info, v)], WordCount(And(v, SizeMask)), []).1;
  }

  /** The slices of a successful receive's log. */
  lemma ReceiveSlices(value: seq<u32>, log1: seq<Access>, log2: seq<Access>, log3: seq<Access>, out: seq<Access>,
                      info: nat, v: u32, w: u32)
    requires log2 == log1 + [Rd(info, v)] && out == log3 + [Rd(info, w)]
    requires log2 <= log3 && |log3| == |log2| + |value|
    ensures |out| == |log1| + |value| + 2 && out[|log1|] == Rd(info, v)
    ensures out[|log1| + 1..|out| - 1] == log3[|log2|..]
  {
    assert out[|log1|] == log2[|log1|];
  }

  /** `receive_data` raises `GpuRpcTimeout` exactly when the wait read the
      send info register `timeout + 2` times, each time a good value
      without the ready bit, and the error check that follows found the
      mailbox clean; with the error bit set there it raises `GpuError`
      instead. */
  lemma ReceiveTimeout(mb: Mailbox, bar0: (seq<Access>, nat) -> u32, log: seq<Access>, timeout: nat)
    ensures var log1 := Poll(mb.MessageReadyParams(timeout), bar0, log, 0).1;
      var (r, out) := Receive(mb, bar0, log, timeout);
      var v := bar0(log1, mb.Offset(InfoSend));
      var waited := |log1| == |log| + timeout + 2
        && forall i :: |log| <= i < |log1| ==> !IsBadf(log1[i].value) && And(log1[i].value, ReadyBit) != ReadyBit;
      (r.Err? && r.error.GpuRpcTimeout? <==> waited && !IsBadf(v) && Bit(v, 25) == 0)
      && (waited && !IsBadf(v) && Bit(v, 25) == 1 ==>
            r == Err(GpuError(mb.title + " send mbox error " + Hex(mb.Offset(InfoSend)) + " = " + Hex(v))))
  {
    var info := mb.Offset(InfoSend);
    var pp := mb.MessageReadyParams(timeout);
    var (p, log1) := Poll(pp, bar0, log, 0);
    PollTimesOut(pp, bar0, log, 0);
    forall i | |log| <= i < |log1|
      ensures GoesOn(pp, log1[i].value) <==> !IsBadf(log1[i].value) && And(log1[i].value, ReadyBit) != ReadyBit
    {
      NotReadyGoesOn(mb, timeout, log1[i].value);
    }
    var v := bar0(log1, info);
    ErrorBitCheckMeans(info, v, GpuError(mb.title + " send mbox error " + Hex(info) + " = " + Hex(v)));
    PollRaisesGpuError(pp, bar0, log, 0);
    if p.Ok? {
      var v2 := bar0(log1, info);
      var log2 := log1 + [Rd(info, v2)];
      if !IsBadf(v2) {
        var (d, log3) := ReadData(mb, bar0, log2, WordCount(And(v2, SizeMask)), []);
        ReadDataRaisesGpuError(mb, bar0, log2, WordCount(And(v2, SizeMask)), []);
        if d.Ok? {
          var log4 := CheckSend(mb, bar0, log3).1;
          ErrorBitCheckMeans(info, bar0(log3, info), GpuError(mb.title + " send mbox error " + Hex(info) + " = " + Hex(bar0(log3, info))));
        }
      }
    }
  }

  /** The data reads raise only the bad-read `GpuError`. */
  lemma {:induction false} ReadDataRaisesGpuError(mb: Mailbox, bar0: (seq<Access>, nat) -> u32, log: seq<Access>, n: nat, got: seq<u32>)
    ensures var d := ReadData(mb, bar0, log, n, got).0;
      d.Err? ==> d.error.GpuError?
    decreases n
  {
    if n > 0 {
      var v := bar0(log, mb.Offset(RdataSend));
      ReadDataRaisesGpuError(mb, bar0, log + [Rd(mb.Offset(RdataSend), v)], n - 1, got + [v]);
    }
  }

  /** The wait for a message goes on exactly on a good value without the ready bit. */
  lemma NotReadyGoesOn(mb: Mailbox, timeout: nat, x: nat)
    ensures GoesOn(mb.MessageReadyParams(timeout), x) <==> !IsBadf(x) && And(x, ReadyBit) != ReadyBit
  {
    BadfRange(ReadyBit);
  }

  /** One pass of the data loop of `send_data`. */
  lemma SendWordsStep(credit: Wait, w: nat, log: seq<Access>, data: seq<u32>, sent: nat)
    requires |data| > 0
    ensures var (c, log1) := credit(log);
      SendWords(credit, w, log, data, sent)
      == if sent % CreditBytes != 0 then SendWords(credit, w, log + [Wr(w, data[0])], data[1..], sent + 4)
         else if c.Err? then (c, log1)
         else SendWords(credit, w, log1 + [Wr(w, data[0])], data[1..], sent + 4)
  {
  }

  // -----------------------------------------------------------------------
  // The port

  class GpuMnoc {
    const dev: Device
    const mb: Mailbox

    /** `GpuMnoc(device, name, base, port)`; `title` stands for its `str()`. */
    constructor(dev: Device, title: string, base: nat, port: nat)
      ensures this.dev == dev && mb == Mailbox(title, base, port)
    {
      this.dev := dev;
      mb := Mailbox(title, base, port);
    }

    /** `is_message_ready()`: a checked read of the send info register, true
        when its ready bit, bit 24, is set. */
    method IsMessageReady() returns (r: Result<bool>)
      modifies dev
      ensures dev.log == old(dev.log) + [Rd(mb.Offset(InfoSend), old(dev.Next(mb.Offset(InfoSend))))]
      ensures r.Ok? <==> !IsBadf(old(dev.Next(mb.Offset(InfoSend))))
      ensures r.Ok? ==> (r.value <==> Bit(old(dev.Next(mb.Offset(InfoSend))), 24) == 1)
      ensures r.Err? ==> r.error.GpuError?
    {
      var v := dev.Read(mb.Offset(InfoSend));
      if v.Err? {
        return Err(v.error);
      }
      ReadyBitIsBit24(v.value);
      AndPow2(v.value, 24);
      r := Ok(And(v.value, ReadyBit) != 0);
    }

    /** `poll_for_message_ready(timeout)` */
    method PollForMessageReady(timeout: nat) returns (r: Result<()>)
      modifies dev
      ensures (r, dev.log) == Poll(mb.MessageReadyParams(timeout), dev.bar0, old(dev.log), 0)
    {
      r := PollRegister(dev, mb.MessageReadyParams(timeout));
    }

    /** `poll_for_receive_ready()` */
    method PollForReceiveReady() returns (r: Result<()>)
      modifies dev
      ensures (r, dev.log) == Poll(mb.ReceiveReadyParams(), dev.bar0, old(dev.log), 0)
    {
      r := PollRegister(dev, mb.ReceiveReadyParams());
    }

    /** `poll_for_receive_credits()` */
    method PollForReceiveCredits() returns (r: Result<()>)
      modifies dev
      ensures (r, dev.log) == CreditWait(mb, dev.bar0)(old(dev.log))
    {
      r := PollRegister(dev, mb.CreditParams());
    }

    /** `check_receive_mbox_errors()` */
    method CheckReceiveMboxErrors() returns (r: Result<()>)
      modifies dev
      ensures (r, dev.log) == CheckReceive(mb, dev.bar0, old(dev.log))
    {
      var v := dev.Read(mb.Offset(InfoReceive));
      if v.Err? {
        return Err(v.error);
      }
      if And(v.value, ErrorBit) != 0 {
        return Err(GpuError(mb.title + " receive error " + Hex(v.value)));
      }
      r := Ok(());
    }

    /** `check_send_mbox_errors()` */
    method CheckSendMboxErrors() returns (r: Result<()>)
      modifies dev
      ensures (r, dev.log) == CheckSend(mb, dev.bar0, old(dev.log))
    {
      var v := dev.Read(mb.Offset(InfoSend));
      if v.Err? {
        return Err(v.error);
      }
      if And(v.value, ErrorBit) != 0 {
        return Err(GpuError(mb.title + " send mbox error " + Hex(mb.Offset(InfoSend)) + " = " + Hex(v.value)));
      }
      r := Ok(());
    }

    /** `send_data(data)` */
    method SendData(data: seq<u32>) returns (r: Result<()>)
      modifies dev
      ensures (r, dev.log) == Send(mb, dev.bar0, old(dev.log), data)
    {
      var e := CheckReceiveMboxErrors();
      if e.Err? {
        return e;
      }
      var p := PollForReceiveReady();
      if p.Err? {
        return p;
      }
      var meta := Metadata(4 * |data|);
      if meta >= 0x1_0000_0000 {
        return Err(MetadataTooWide);
      }
      dev.Write(mb.Offset(InfoReceive), meta);
      var w := SendLoop(data);
      if w.Err? {
        return w;
      }
      r := CheckReceiveMboxErrors();
    }

    /** The data loop of `send_data`. */
    method SendLoop(data: seq<u32>) returns (r: Result<()>)
      modifies dev
      ensures (r, dev.log) == SendWords(CreditWait(mb, dev.bar0), mb.Offset(WdataReceive), old(dev.log), data, 0)
    {
      var credit := CreditWait(mb, dev.bar0);
      var sent := 0;
      for i := 0 to |data|
        invariant sent == 4 * i
        invariant SendWords(credit, mb.Offset(WdataReceive), dev.log, data[i..], sent)
                  == SendWords(credit, mb.Offset(WdataReceive), old(dev.log), data, 0)
      {
        SendWordsStep(credit, mb.Offset(WdataReceive), dev.log, data[i..], sent);
        if sent % CreditBytes == 0 {
          var c := PollForReceiveCredits();
          if c.Err? {
            return c;
          }
        }
        dev.Write(mb.Offset(WdataReceive), data[i]);
        assert data[i..][1..] == data[i + 1..];
        sent := sent + 4;
      }
      r := Ok(());
    }

    /** `receive_data(timeout)` */
    method ReceiveData(timeout: nat) returns (r: Result<seq<u32>>)
      modifies dev
      ensures (r, dev.log) == Receive(mb, dev.bar0, old(dev.log), timeout)
    {
      var p := PollForMessageReady(timeout);
      if p.Err? {
        if p.error.GpuPollTimeout? {
          var c := CheckSendMboxErrors();
          if c.Err? {
            return Err(c.error);
          }
          return Err(GpuRpcTimeout(""));
        }
        return Err(p.error);
      }
      var info := dev.Read(mb.Offset(InfoSend));
      if info.Err? {
        return Err(info.error);
      }
      var d := ReadLoop(And(info.value, SizeMask));
      if d.Err? {
        return d;
      }
      var c := CheckSendMboxErrors();
      if c.Err? {
        return Err(c.error);
      }
      r := d;
    }

    /** The data loop of `receive_data`: 4 bytes per read until `size` bytes. */
    method ReadLoop(size: nat) returns (r: Result<seq<u32>>)
      modifies dev
      ensures (r, dev.log) == ReadData(mb, dev.bar0, old(dev.log), WordCount(size), [])
    {
      var data := [];
      var received := 0;
      WordCountIsCeiling(size, 0);
      while received < size
        invariant received == 4 * |data| && |data| <= WordCount(size)
        invariant received < size <==> |data| < WordCount(size)
        invariant ReadData(mb, dev.bar0, dev.log, WordCount(size) - |data|, data)
                  == ReadData(mb, dev.bar0, old(dev.log), WordCount(size), [])
        decreases size - received
      {
        var v := dev.Read(mb.Offset(RdataSend));
        if v.Err? {
          return Err(v.error);
        }
        data := data + [v.value];
        received := received + 4;
      }
      r := Ok(data);
    }
  }
}
