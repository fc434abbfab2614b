/**
 * The PCI configuration space of a device, opened as the sysfs `config`
 * file through `FileRaw` (pci/device.py `_open_config`): reads and writes
 * of 1, 2 or 4 bytes at an offset, little-endian.
 *
 * The device is an oracle: what a read returns is a function of every
 * access made before it.  A write converts its value with
 * `data_from_int`, which refuses a negative value or one too wide for the
 * access (`OverflowError`), and then nothing reaches the device.
 */
module ConfigSpaces {
  import opened Bits
  import opened GpuErrors
  import opened IntsToBytes

  /** One access: `size` bytes read at `offset` and the value read, or written there. */
  datatype CfgAccess = CfgRead(offset: nat, size: nat, value: nat) | CfgWrite(offset: nat, size: nat, value: nat)

  /** `data_from_int(x, size)` of a Python int that may be negative:
      `int.to_bytes` refuses a negative value before anything else. */
  function EncodeInt(x: int, size: int): Result<seq<u8>>
  {
    if !IsIntSize(size) then Err(AssertionError("Unhandled size"))
    else if x < 0 then Err(OverflowError("can't convert negative int to unsigned"))
    else DataFromInt(x, size)
  }

  /** The outcome of `write(offset, x, size)`. */
  function WriteOutcome(x: int, size: int): Result<()>
  {
    match EncodeInt(x, size)
    case Ok(_) => Ok(())
    case Err(e) => Err(e)
  }

  /** A value is written exactly when it is non-negative and fits the access width. */
  lemma EncodeIntOk(x: int, size: int)
    requires IsIntSize(size)
    ensures EncodeInt(x, size).Ok? <==> 0 <= x < Pow2(8 * size)
    ensures x < 0 ==> EncodeInt(x, size).Err? && EncodeInt(x, size).error.OverflowError?
  {
    BoundIsPow2(size);
  }

  class ConfigSpace {
    /** `os.path.getsize` of the config file: 256, or 4096 with extended config space. */
    const size: nat
    /** The value the device returns for a read of `n` bytes at `offset` after the accesses given. */
    const fw: (seq<CfgAccess>, nat, nat) -> nat
    /** Every access made, oldest first. */
    var log: seq<CfgAccess>

    constructor (size: nat, fw: (seq<CfgAccess>, nat, nat) -> nat)
      ensures this.size == size && this.fw == fw && log == []
    {
      this.size := size;
      this.fw := fw;
      log := [];
    }

    /** What the next read of `n` bytes at `offset` returns: the `int_from_data`
        of the `n` bytes read, so a value below `2**(8 n)`. */
    function Next(offset: nat, n: nat): nat
      reads this
      requires IsIntSize(n)
    {
      fw(log, offset, n) % Bound(n)
    }

    /** `read(offset, n)` */
    method Read(offset: nat, n: nat) returns (v: nat)
      requires IsIntSize(n)
      modifies this
      ensures v == old(Next(offset, n)) && v < Pow2(8 * n)
      ensures log == old(log) + [CfgRead(offset, n, v)]
    {
      BoundIsPow2(n);
      v := fw(log, offset, n) % Bound(n);
      log := log + [CfgRead(offset, n, v)];
    }

    /** `read32(offset)` */
    method Read32(offset: nat) returns (v: nat)
      modifies this
      ensures v == old(Next(offset, 4)) && v < 0x1_0000_0000
      ensures log == old(log) + [CfgRead(offset, 4, v)]
    {
      Pow2Of32();
      v := Read(offset, 4);
    }

    /** `write(offset, x, n)`: the access is made only when `x` converts to `n` bytes. */
    method Write(offset: nat, x: int, n: nat) returns (r: Result<()>)
      requires IsIntSize(n)
      modifies this
      ensures r == WriteOutcome(x, n)
      ensures r.Err? ==> log == old(log)
      ensures r.Ok? ==> log == old(log) + [CfgWrite(offset, n, x as nat)]
    {
      var data := EncodeInt(x, n);
      if data.Err? {
        return Err(data.error);
      }
      log := log + [CfgWrite(offset, n, x as nat)];
      r := Ok(());
    }

    /** `write32(offset, x)` of a 32-bit value, which always converts. */
    method Write32(offset: nat, x: u32)
      modifies this
      ensures log == old(log) + [CfgWrite(offset, 4, x)]
    {
      EncodeIntOk(x, 4);
      Pow2Of32();
      var r := Write(offset, x, 4);
    }
  }
}
