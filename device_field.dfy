/**
 * utils/device_field.py: `DeviceField`, a register of a device's config
 * space seen through a `Bitfield` class.  Every access reads the register
 * afresh into `value`; writing a field is a read-modify-write of the whole
 * register, `size` bytes wide.
 */
module DeviceFields {
  import opened Bits
  import opened Text
  import opened GpuErrors
  import opened IntsToBytes
  import opened Bitfields
  import opened ConfigSpaces

  class DeviceField {
    const dev: ConfigSpace
    const offset: nat
    const cls: BitfieldClass
    /** The access width in bytes: the bitfield class's `size`. */
    const size: nat
    const name: string
    /** The bitfield last read from the device. */
    var value: Bitfield

    /** `DeviceField(bitfield_class, dev, offset, name=None)`: reads the register once. */
    constructor (cls: BitfieldClass, dev: ConfigSpace, offset: nat, name: Option<string>)
      requires IsIntSize(cls.size)
      modifies dev
      ensures this.dev == dev && this.offset == offset && this.cls == cls && size == cls.size
      ensures this.name == if name.Some? then name.value else cls.name
      ensures dev.log == old(dev.log) + [CfgRead(offset, cls.size, old(dev.Next(offset, cls.size)))]
      ensures value.raw == old(dev.Next(offset, cls.size)) && value.cls == cls && value.name == this.name
    {
      this.dev := dev;
      this.offset := offset;
      this.cls := cls;
      this.size := cls.size;
      var n := if name.Some? then name.value else cls.name;
      this.name := n;
      var raw := dev.Read(offset, cls.size);
      value := new Bitfield(cls, raw, Some(n));
    }

    /** The register as the next read returns it. */
    function Current(): nat
      reads this, dev
      requires IsIntSize(size)
    {
      dev.Next(offset, size)
    }

    /** `_read()`: a new bitfield, named after the field, holding the register. */
    method ReadValue()
      requires IsIntSize(size)
      modifies this, dev
      ensures fresh(value) && value.cls == cls && value.name == name && value.raw == old(Current())
      ensures dev.log == old(dev.log) + [CfgRead(offset, size, old(Current()))]
    {
      var raw := dev.Read(offset, size);
      value := new Bitfield(cls, raw, Some(name));
    }

    /** `self[field]`: re-reads the register, then reads the field. */
    method Get(field: string) returns (r: Result<nat>)
      requires IsIntSize(size)
      modifies this, dev
      ensures r == GetItem(cls.fields, old(Current()), field)
      ensures dev.log == old(dev.log) + [CfgRead(offset, size, old(Current()))]
    {
      ReadValue();
      r := GetItem(value.cls.fields, value.raw, field);
    }

    /** `self[field] = val`: re-reads the register, writes the field into the
        word read, and writes the word back.  The write is made only when the
        field could be set; the word written reads `val` in that field and
        keeps every bit of the word read outside the field's mask. */
    method Set(field: string, val: int) returns (r: Result<()>)
      requires IsIntSize(size)
      modifies this, dev
      ensures var w := SetItem(cls.fields, old(Current()), field, val);
        && (w.Err? ==> r == Err(w.error))
        && (w.Ok? ==> r == WriteOutcome(w.value, size))
      ensures r.Err? ==> dev.log == old(dev.log) + [CfgRead(offset, size, old(Current()))]
      ensures r.Ok? ==> dev.log == old(dev.log) + [CfgRead(offset, size, old(Current())),
        CfgWrite(offset, size, SetItem(cls.fields, old(Current()), field, val).value as nat)]
    {
      ReadValue();
      var s := value.Set(field, val);
      if s.Err? {
        return Err(s.error);
      }
      r := dev.Write(offset, value.raw, size);
    }

    /** `write_only(field, val)` as written: the field is set in `Bitfield(-1)`,
        whose every other bit is one, and that raw value is written.  The raw
        value is negative, so the write raises and the re-read that would
        follow it is never reached. */
    method WriteOnlyAsWritten(field: string, val: int) returns (r: Result<()>)
      requires IsIntSize(size)
      modifies dev
      ensures r.Err? && dev.log == old(dev.log)
      ensures SetItem(cls.fields, -1, field, val).Ok? ==> r.error.OverflowError?
    {
      var bf := new Bitfield(cls, -1, None);
      var s := bf.Set(field, val);
      if s.Err? {
        return Err(s.error);
      }
      WriteOnlyAsWrittenRaises(cls.fields, field, val, size);
      assert WriteOutcome(bf.raw, size).Err?;
      r := dev.Write(offset, bf.raw, size);
    }

    /** `write_only(field, val)` with the other bits set within the access
        width, then a re-read; `WriteOnlyWord` states what the word holds. */
    method WriteOnly(field: string, val: int) returns (r: Result<()>)
      requires IsIntSize(size)
      modifies this, dev
      ensures var w := SetItem(cls.fields, LowMask(8 * size), field, val);
        && (w.Err? ==> r == Err(w.error))
        && (w.Ok? ==> r == WriteOutcome(w.value, size))
      ensures r.Err? ==> dev.log == old(dev.log)
      ensures r.Ok? ==> |dev.log| > 0 && value.raw == dev.fw(dev.log[..|dev.log| - 1], offset, size) % Bound(size)
      ensures r.Ok? ==> dev.log == old(dev.log) + [CfgWrite(offset, size, SetItem(cls.fields, LowMask(8 * size), field, val).value as nat),
        CfgRead(offset, size, value.raw as nat)]
    {
      var bf := new Bitfield(cls, LowMask(8 * size), None);
      var s := bf.Set(field, val);
      if s.Err? {
        return Err(s.error);
      }
      r := dev.Write(offset, bf.raw, size);
      if r.Err? {
        return r;
      }
      ghost var log1 := dev.log;
      ReadValue();
      assert dev.log[..|dev.log| - 1] == log1;
    }

    /** `write_raw(x)`: `value.raw` takes `x`, the word is written, and the
        register re-read; when the write raises, `value.raw` keeps `x`. */
    method WriteRaw(x: int) returns (r: Result<()>)
      requires IsIntSize(size)
      modifies this, dev, value
      ensures r == WriteOutcome(x, size)
      ensures r.Err? ==> dev.log == old(dev.log) && value == old(value) && value.raw == x
      ensures r.Ok? ==> |dev.log| > 0 && value.raw == dev.fw(dev.log[..|dev.log| - 1], offset, size) % Bound(size)
      ensures r.Ok? ==> dev.log == old(dev.log) + [CfgWrite(offset, size, x as nat), CfgRead(offset, size, value.raw as nat)]
    {
      value.raw := x;
      r := dev.Write(offset, value.raw, size);
      if r.Err? {
        return r;
      }
      ghost var log1 := dev.log;
      ReadValue();
      assert dev.log[..|dev.log| - 1] == log1;
    }
  }

  /** Setting a field of `Bitfield(-1)` gives a negative raw value, which
      `data_from_int` refuses: `write_only` as written never reaches the device. */
  lemma WriteOnlyAsWrittenRaises(fields: seq<FieldDef>, field: string, val: int, size: nat)
    requires IsIntSize(size) && SetItem(fields, -1, field, val).Ok?
    ensures SetItem(fields, -1, field, val).value < 0
    ensures EncodeInt(SetItem(fields, -1, field, val).value, size) == Err(OverflowError("can't convert negative int to unsigned"))
  {
  }

  /** With the other bits taken from the access width, the word `write_only`
      writes reads `val` in the field and has every other bit of the width
      set; `WithinWidth` shows it fits the access. */
  lemma WriteOnlyWord(fields: seq<FieldDef>, field: string, val: int, all: nat, n: nat, i: nat)
    requires all == LowMask(n) && SetItem(fields, all, field, val).Ok?
    ensures val >= 0 && GetItem(fields, SetItem(fields, all, field, val).value, field).Ok?
    ensures GetItem(fields, SetItem(fields, all, field, val).value, field).value == val
    ensures i < n && Bit(MaskOf(Lookup(fields, field).value).value, i) == 0 ==>
      Bit(SetItem(fields, all, field, val).value as nat, i) == 1
  {
    SetThenGet(fields, all, field, val);
    if i < n && Bit(MaskOf(Lookup(fields, field).value).value, i) == 0 {
      SetKeepsOtherBits(fields, all, field, val, i);
      BitLowMask(n, i);
    }
  }

  /** The word stays within the access width when the mask does. */
  lemma WithinWidth(fields: seq<FieldDef>, field: string, val: int, size: nat)
    requires IsIntSize(size) && SetItem(fields, LowMask(8 * size), field, val).Ok?
    requires MaskOf(Lookup(fields, field).value).value < Pow2(8 * size)
    ensures 0 <= SetItem(fields, LowMask(8 * size), field, val).value < Pow2(8 * size)
    ensures EncodeInt(SetItem(fields, LowMask(8 * size), field, val).value, size).Ok?
  {
    var mask := MaskOf(Lookup(fields, field).value).value;
    var shift := LowestSetBit(mask);
    var all := LowMask(8 * size);
    SetItemIs(fields, all, field, val, mask, shift);
    var v: nat := val * Pow2(shift);
    assert IntAndNot(v, mask) == 0;
    AndNotBelow(all, mask, 8 * size);
    FitsInMask(v, mask, 8 * size);
    OrBelow(AndNot(all, mask), v, 8 * size);
    EncodeIntOk(SetItem(fields, all, field, val).value, size);
  }

  /** A value with no bit outside a mask below `2**n` is below `2**n`. */
  lemma FitsInMask(v: nat, m: nat, n: nat)
    requires AndNot(v, m) == 0 && m < Pow2(n)
    ensures v < Pow2(n)
  {
    AndNotPlusAnd(v, m);
    AndBelow(v, m, n);
  }
}
