/**
 * The falcon memory ports and the FSP falcon's queue registers
 * (`GpuMemPort`, `GpuFalcon.read_port` / `write_port` and `FspFalcon` in
 * nvidia_gpu_tools.py).
 *
 * A memory port is a pair of registers: writing the control register (IMEMC)
 * sets the byte offset inside the falcon memory and the auto-increment
 * flags, and every access of the data register (IMEMD, four bytes above)
 * moves one 32-bit word.  The port object caches what it last wrote to the
 * control register so that it can skip rewriting an unchanged
 * configuration.
 */
module Falcons {
  import opened Bits
  import opened GpuErrors
  import opened Devices

  /** `NV_PPWR_FALCON_IMEMC_AINCW_TRUE`, `..._AINCR_TRUE`, `..._SECURE_ENABLED` */
  const AincwTrue: nat := 0x100_0000
  const AincrTrue: nat := 0x200_0000
  const SecureEnabled: nat := 0x1000_0000

  /** `NV_PPWR_FALCON_IMEMD(0) - NV_PPWR_FALCON_IMEMC(0)`: the data register
      sits right above the control register. */
  const DataRegDelta: nat := 4

  /** The control value `configure` writes: the offset with each flag ORed in. */
  function ControlValue(offset: nat, incRead: bool, incWrite: bool, secure: bool): nat
  {
    var v1 := if incRead then Or(offset, AincrTrue) else offset;
    var v2 := if incWrite then Or(v1, AincwTrue) else v1;
    if secure then Or(v2, SecureEnabled) else v2
  }

  /** ORing a single bit above a value adds it. */
  lemma OrHighBit(x: nat, n: nat)
    requires x < Pow2(n)
    ensures Or(x, Pow2(n)) == x + Pow2(n)
  {
    AndShlDisjoint(x, 1, n);
    assert Shl(1, n) == Pow2(n);
  }

  /** For an offset of at most 24 bits the flags land above it: the control
      value is the offset plus `2**24 * f`, where f has bit 0 for
      write-increment, bit 1 for read-increment and bit 4 for secure. */
  lemma ControlValueSum(offset: nat, incRead: bool, incWrite: bool, secure: bool)
    requires offset < 0x100_0000
    ensures ControlValue(offset, incRead, incWrite, secure)
            == offset + 0x100_0000 * ControlFlags(incRead, incWrite, secure)
  {
    Pow2Values();
    var v1 := if incRead then Or(offset, AincrTrue) else offset;
    if incRead {
      assert offset < Pow2(25) by { Pow2Monotone(24, 25); }
      OrHighBit(offset, 25);
      assert Pow2(25) == 0x200_0000;
    }
    assert v1 == offset + (if incRead then 0x200_0000 else 0);
    var v2 := if incWrite then Or(v1, AincwTrue) else v1;
    if incWrite {
      if incRead {
        // bit 24 is free: v1 is the offset plus bit 25
        assert Or(v1, AincwTrue) == v1 + AincwTrue by {
          OrPlusAnd(v1, AincwTrue);
          AndBitFree(offset, 24, 25);
        }
      } else {
        OrHighBit(offset, 24);
      }
    }
    assert v2 == v1 + (if incWrite then 0x100_0000 else 0);
    if secure {
      assert v2 < Pow2(28) by {
        assert v2 < 0x400_0000;
      }
      OrHighBit(v2, 28);
    }
  }

  /** The flag bits of the control value, counted from bit 24. */
  function ControlFlags(incRead: bool, incWrite: bool, secure: bool): nat
  {
    (if incWrite then 1 else 0) + (if incRead then 2 else 0) + (if secure then 16 else 0)
  }

  /** The control value is a 32-bit word from which the offset and the three
      flags can be read back. */
  lemma ControlValueLayout(offset: nat, incRead: bool, incWrite: bool, secure: bool)
    requires offset < 0x100_0000
    ensures var v := ControlValue(offset, incRead, incWrite, secure);
      v < 0x1_0000_0000
      && v % 0x100_0000 == offset
      && (v / 0x100_0000 % 2 == 1 <==> incWrite)
      && (v / 0x100_0000 / 2 % 2 == 1 <==> incRead)
      && (v / 0x100_0000 / 16 % 2 == 1 <==> secure)
      && v / 0x100_0000 % 16 < 4
  {
    ControlValueSum(offset, incRead, incWrite, secure);
    var f := ControlFlags(incRead, incWrite, secure);
    DivUnique(ControlValue(offset, incRead, incWrite, secure), 0x100_0000, f, offset);
  }

  /** The control word written to the register. */
  function ControlWord(offset: nat, incRead: bool, incWrite: bool, secure: bool): u32
    requires offset < 0x100_0000
  {
    ControlValueLayout(offset, incRead, incWrite, secure);
    ControlValue(offset, incRead, incWrite, secure)
  }

  /** In `x + 2**m` with `x < 2**n <= 2**m`, bit n is clear: ANDing with `2**n` gives 0. */
  lemma AndBitFree(x: nat, n: nat, m: nat)
    requires x < Pow2(n) && n < m
    ensures And(x + Pow2(m), Pow2(n)) == 0
  {
    forall i: nat
      ensures Bit(And(x + Pow2(m), Pow2(n)), i) == Bit(0, i)
    {
      BitAnd(x + Pow2(m), Pow2(n), i);
      BitPow2(n, i);
      BitOfZero(i);
      if i == n {
        BitOfSum(x, n, m);
      }
    }
    BitsEqual(And(x + Pow2(m), Pow2(n)), 0);
  }

  /** Bit n of `x + 2**m`, for `x < 2**n` and `n < m`, is 0. */
  lemma BitOfSum(x: nat, n: nat, m: nat)
    requires x < Pow2(n) && n < m
    ensures Bit(x + Pow2(m), n) == 0
  {
    Pow2Add(n, m - n);
    var k := Pow2(m - n);
    assert Pow2(m) == Pow2(n) * k;
    assert k % 2 == 0 by {
      assert Pow2(m - n) == 2 * Pow2(m - n - 1);
    }
    ShrIsDiv(x + Pow2(m), n);
    BitAtDiv(x + Pow2(m), n);
    DivPlusMultiple(x, Pow2(n), k);
  }

  /** Bit n is the parity of the value shifted down by n. */
  lemma BitAtDiv(x: nat, n: nat)
    ensures Bit(x, n) == (x / Pow2(n)) % 2
    decreases n
  {
    if n > 0 {
      BitAtDiv(x / 2, n - 1);
      DivDiv(x, 2, Pow2(n - 1));
    }
  }

  /** `(x + d*k) / d == k` for `x < d`. */
  lemma DivPlusMultiple(x: nat, d: nat, k: nat)
    requires 0 < d && x < d
    ensures (x + d * k) / d == k
  {
    DivUnique(x + d * k, d, k, x);
  }

  // -----------------------------------------------------------------------
  // The FSP falcon

  /** `FspFalcon`: cpuctl 0x8f0100, so `base_page = cpuctl & ~0xfff`. */
  const FspCpuctl: nat := 0x8f0100
  const FspBasePage: nat := 0x8f0000
  /** `base_page_emem` and the number of EMEM ports of the FSP falcon. */
  const FspBasePageEmem: nat := 0x8f2000
  const FspEmemPorts: nat := 8

  /** The FSP base page is cpuctl with its low 12 bits cleared. */
  lemma FspBasePageOfCpuctl()
    ensures FspBasePage == AndNot(FspCpuctl, 0xfff) && FspBasePage % 0x1000 == 0
  {
    AndNotPlusAnd(FspCpuctl, 0xfff);
    Pow2Values();
    assert 0xfff == LowMask(12);
    AndLowMask(FspCpuctl, 12);
  }

  /** The command queue (host to FSP) and message queue (FSP to host) head and
      tail registers of channel i. */
  function QueueHeadOff(i: nat): nat { FspBasePage + 0x2c00 + i * 8 }
  function QueueTailOff(i: nat): nat { FspBasePage + 0x2c04 + i * 8 }
  function MsgQueueHeadOff(i: nat): nat { FspBasePage + 0x2c80 + i * 8 }
  function MsgQueueTailOff(i: nat): nat { FspBasePage + 0x2c84 + i * 8 }

  /** The control register of EMEM port p (`base_page_emem + 0xac0 + p * 8`). */
  function EmemControlReg(p: nat): nat { FspBasePageEmem + 0xac0 + p * 8 }

  datatype QueueReg = CmdHead | CmdTail | MsgHead | MsgTail

  function QueueOff(q: QueueReg, i: nat): nat
  {
    match q
    case CmdHead => QueueHeadOff(i)
    case CmdTail => QueueTailOff(i)
    case MsgHead => MsgQueueHeadOff(i)
    case MsgTail => MsgQueueTailOff(i)
  }

  /** For the sixteen channels that fit below the message queue block, the four
      queue registers of every channel are distinct from each other and from
      those of every other channel, and none is an EMEM port register. */
  lemma QueueOffsetsDistinct(q1: QueueReg, i: nat, q2: QueueReg, j: nat, p: nat)
    requires i < 16 && j < 16 && p < FspEmemPorts
    ensures QueueOff(q1, i) == QueueOff(q2, j) <==> q1 == q2 && i == j
    ensures QueueOff(q1, i) != EmemControlReg(p) && QueueOff(q1, i) != EmemControlReg(p) + DataRegDelta
  {
  }

  /** The sixteenth channel's command head is the first channel's message head:
      the layout leaves room for sixteen channels only. */
  lemma SeventeenthChannelOverlaps()
    ensures QueueHeadOff(16) == MsgQueueHeadOff(0)
  {
  }

  // -----------------------------------------------------------------------
  // GpuMemPort

  /** The accesses of writing `data` to the data register, in order. */
  function DataWrites(dataReg: nat, data: seq<u32>): (r: seq<Access>)
    ensures |r| == |data|
    ensures forall i :: 0 <= i < |data| ==> r[i] == Wr(dataReg, data[i])
  {
    if |data| == 0 then [] else DataWrites(dataReg, data[..|data| - 1]) + [Wr(dataReg, data[|data| - 1])]
  }

  /** The accesses of reading `data` from the data register, in order. */
  function DataReads(dataReg: nat, data: seq<u32>): (r: seq<Access>)
    ensures |r| == |data|
    ensures forall i :: 0 <= i < |data| ==> r[i] == Rd(dataReg, data[i])
  {
    if |data| == 0 then [] else DataReads(dataReg, data[..|data| - 1]) + [Rd(dataReg, data[|data| - 1])]
  }

  /** The number of words `read(size)` reads: `len(range(0, size, 4))`. */
  function WordCount(size: int): nat
  {
    if size <= 0 then 0 else (size + 3) / 4
  }

  /** `read(size)` reads ceil(size / 4) words, and a size of 4n bytes is n words. */
  lemma WordCountIsCeiling(size: int, n: nat)
    ensures size > 0 ==> 4 * (WordCount(size) - 1) < size <= 4 * WordCount(size)
    ensures size <= 0 ==> WordCount(size) == 0
    ensures WordCount(4 * n) == n
  {
  }

  /** The control write of `handle_offset_wraparound` once the offset has moved
      to `mid`: the offset is reset when it has reached the memory size, and
      `configure(0, ...)` writes when that changes the offset or a write is
      pending. */
  function WrapWrites(controlReg: nat, mid: int, maxSize: int, pending: bool, ir: bool, iw: bool, sec: bool): seq<Access>
  {
    if mid == maxSize && (maxSize != 0 || pending) then [Wr(controlReg, ControlWord(0, ir, iw, sec))] else []
  }

  class MemPort {
    const dev: Device
    const controlReg: nat
    const dataReg: nat
    const maxSize: int
    /** The configuration as last requested, and whether it still has to reach
        the control register. */
    var offset: int
    var incRead: bool
    var incWrite: bool
    var secure: bool
    var needWrite: bool

    constructor(dev: Device, controlReg: nat, maxSize: int)
      ensures this.dev == dev && this.controlReg == controlReg && dataReg == controlReg + DataRegDelta
      ensures this.maxSize == maxSize
      ensures offset == 0 && !incRead && !incWrite && !secure && needWrite
    {
      this.dev := dev;
      this.controlReg := controlReg;
      this.dataReg := controlReg + DataRegDelta;
      this.maxSize := maxSize;
      offset := 0;
      incRead := false;
      incWrite := false;
      secure := false;
      needWrite := true;
    }

    /** Whether `configure(off, ir, iw, sec)` writes the control register. */
    predicate ConfigureWrites(off: int, ir: bool, iw: bool, sec: bool)
      reads this
    {
      needWrite || off != offset || ir != incRead || iw != incWrite || sec != secure
    }

    /** `configure`: the control register is written, once, exactly when the
        configuration changed or a write is still pending; afterwards nothing
        is pending. */
    method Configure(off: nat, ir: bool, iw: bool, sec: bool)
      requires off < 0x100_0000
      modifies this, dev
      ensures offset == off && incRead == ir && incWrite == iw && secure == sec && !needWrite
      ensures dev.log == old(dev.log) + (if old(ConfigureWrites(off, ir, iw, sec))
                                         then [Wr(controlReg, ControlWord(off, ir, iw, sec))] else [])
    {
      // each changed setting is recorded and forces a write; recording an
      // unchanged one is the same as skipping it
      var write := needWrite || off != offset || ir != incRead || iw != incWrite || sec != secure;
      offset, incRead, incWrite, secure := off, ir, iw, sec;
      if !write {
        return;
      }
      dev.Write(controlReg, ControlWord(off, ir, iw, sec));
      needWrite := false;
    }

    /** `handle_offset_wraparound`: the offset goes back to 0 exactly when it
        has reached the memory size. */
    method HandleOffsetWraparound()
      modifies this, dev
      ensures offset == (if old(offset) == maxSize then 0 else old(offset))
      ensures incRead == old(incRead) && incWrite == old(incWrite) && secure == old(secure)
      ensures needWrite == (old(needWrite) && old(offset) != maxSize)
      ensures dev.log == old(dev.log) + WrapWrites(controlReg, old(offset), maxSize, old(needWrite), incRead, incWrite, secure)
    {
      if offset == maxSize {
        Configure(0, incRead, incWrite, secure);
      }
    }

    /** The reading loop of `read(size)`: ceil(size / 4) reads of the data
        register with `read_bad_ok`, each returning what the device holds at
        that point. */
    method ReadWords(size: int) returns (data: seq<u32>)
      modifies dev
      ensures |data| == WordCount(size)
      ensures dev.log == old(dev.log) + DataReads(dataReg, data)
      ensures ReadsOf(dev.bar0, dev.log, |old(dev.log)|, dataReg)
    {
      data := [];
      var pos := 0;
      while pos < size
        invariant pos >= 0 && |data| == WordCount(pos)
        invariant (pos == 0 || pos < size + 4) && pos % 4 == 0
        invariant dev.log == old(dev.log) + DataReads(dataReg, data)
        invariant ReadsOf(dev.bar0, dev.log, |old(dev.log)|, dataReg)
        decreases size - pos
      {
        ghost var before := dev.log;
        var v := dev.ReadBadOk(dataReg);
        forall i | |old(dev.log)| <= i < |dev.log|
          ensures dev.log[i] == Rd(dataReg, dev.bar0(dev.log[..i], dataReg))
        {
          if i < |before| {
            assert dev.log[..i] == before[..i];
          } else {
            assert dev.log[..i] == before;
          }
        }
        assert data + [v] == (data + [v])[..|data|] + [v];
        data := data + [v];
        pos := pos + 4;
      }
      assert WordCount(size) == WordCount(pos);
    }

    /** `read(size)`: the words read, then the offset moves by `size` bytes
        when reads auto-increment, and wraps. */
    method Read(size: int) returns (data: seq<u32>)
      modifies this, dev
      ensures |data| == WordCount(size)
      ensures ReadsOf(dev.bar0, old(dev.log) + DataReads(dataReg, data), |old(dev.log)|, dataReg)
      ensures var mid := old(offset) + (if old(incRead) then size else 0);
        offset == (if mid == maxSize then 0 else mid)
        && incRead == old(incRead) && incWrite == old(incWrite) && secure == old(secure)
        && dev.log == old(dev.log) + DataReads(dataReg, data)
           + WrapWrites(controlReg, mid, maxSize, old(needWrite), incRead, incWrite, secure)
    {
      data := ReadWords(size);
      if incRead {
        offset := offset + size;
      }
      HandleOffsetWraparound();
    }

    /** `write(data)`: one write of the data register per word, in order; the
        offset moves by four bytes per word when writes auto-increment, and
        wraps once at the end. */
    method Write(data: seq<u32>)
      modifies this, dev
      ensures var mid := old(offset) + (if old(incWrite) then 4 * |data| else 0);
        offset == (if mid == maxSize then 0 else mid)
        && incRead == old(incRead) && incWrite == old(incWrite) && secure == old(secure)
        && dev.log == old(dev.log) + DataWrites(dataReg, data)
           + WrapWrites(controlReg, mid, maxSize, old(needWrite), incRead, incWrite, secure)
    {
      var i := 0;
      while i < |data|
        invariant 0 <= i <= |data|
        invariant dev.log == old(dev.log) + DataWrites(dataReg, data[..i])
        invariant offset == old(offset) + (if incWrite then 4 * i else 0)
        invariant incRead == old(incRead) && incWrite == old(incWrite) && secure == old(secure)
        invariant needWrite == old(needWrite)
      {
        dev.Write(dataReg, data[i]);
        if incWrite {
          offset := offset + 4;
        }
        assert data[..i + 1][..i] == data[..i];
        i := i + 1;
      }
      assert data[..i] == data;
      HandleOffsetWraparound();
    }
  }

  /** `read_port(port, phys_base, size)`: configure with auto-increment on and
      secure off, then read; the words are read from position `at` of the log
      on, after at most one control write. */
  method ReadPort(port: MemPort, physBase: nat, size: int) returns (data: seq<u32>, ghost at: nat)
    requires physBase < 0x100_0000
    modifies port, port.dev
    ensures |data| == WordCount(size)
    ensures port.incRead && port.incWrite && !port.secure
    ensures old(port.dev.log) <= port.dev.log
    ensures |old(port.dev.log)| <= at <= |old(port.dev.log)| + 1 && at + |data| <= |port.dev.log|
    ensures port.dev.log[at..at + |data|] == DataReads(port.dataReg, data)
    ensures ReadsOf(port.dev.bar0, port.dev.log[..at + |data|], at, port.dataReg)
    ensures var mid := physBase + size;
      port.offset == (if mid == port.maxSize then 0 else mid)
      && port.dev.log == old(port.dev.log)
         + (if old(port.ConfigureWrites(physBase, true, true, false))
            then [Wr(port.controlReg, ControlWord(physBase, true, true, false))] else [])
         + DataReads(port.dataReg, data)
         + WrapWrites(port.controlReg, mid, port.maxSize, false, true, true, false)
  {
    port.Configure(physBase, true, true, false);
    ghost var configured := port.dev.log;
    at := |configured|;
    data := port.Read(size);
    assert port.dev.log[..at + |data|] == configured + DataReads(port.dataReg, data);
  }

  /** `write_port(port, data, phys_base)`: configure with auto-increment on and
      secure off, then write the words; the offset ends 4 bytes per word past
      `phys_base` unless that is the end of the memory. */
  method WritePort(port: MemPort, data: seq<u32>, physBase: nat) returns (ghost at: nat)
    requires physBase < 0x100_0000
    modifies port, port.dev
    ensures port.incRead && port.incWrite && !port.secure
    ensures old(port.dev.log) <= port.dev.log
    ensures |old(port.dev.log)| <= at <= |old(port.dev.log)| + 1 && at + |data| <= |port.dev.log|
    ensures port.dev.log[at..at + |data|] == DataWrites(port.dataReg, data)
    ensures var mid := physBase + 4 * |data|;
      port.offset == (if mid == port.maxSize then 0 else mid)
      && port.dev.log == old(port.dev.log)
         + (if old(port.ConfigureWrites(physBase, true, true, false))
            then [Wr(port.controlReg, ControlWord(physBase, true, true, false))] else [])
         + DataWrites(port.dataReg, data)
         + WrapWrites(port.controlReg, mid, port.maxSize, false, true, true, false)
  {
    port.Configure(physBase, true, true, false);
    at := |port.dev.log|;
    port.Write(data);
  }
}
