/**
 * gpu/regs/core.py: register metadata (registers, register arrays, fields
 * and named field values), register values with field access, and the
 * register interface that reads and writes them through BAR0.
 *
 * Metadata objects are classes: a field and the register it belongs to
 * refer to each other, and `_set_field` compares fields by identity.  A
 * register array is a register whose `arrayDims` holds its stride and size.
 */
module Regs {
  import opened Bits
  import opened Text
  import opened GpuErrors
  import opened Bitfields
  import opened Devices

  // ---------------------------------------------------------------------
  // Field arithmetic

  /** `FieldMetadata.mask`: `((1 << (msb - lsb + 1)) - 1) << lsb`; a field
      whose `msb` is more than one below its `lsb` shifts by a negative count. */
  function MaskFor(msb: nat, lsb: nat): Result<nat>
  {
    if msb + 1 < lsb then Err(ValueError("negative shift count"))
    else Ok(Shl(LowMask(msb + 1 - lsb), lsb))
  }

  /** The mask has exactly the bits `lsb ..= msb` set. */
  lemma MaskBits(msb: nat, lsb: nat, i: nat)
    requires lsb <= msb + 1
    ensures MaskFor(msb, lsb) == Ok(FieldMask(lsb, msb + 1 - lsb))
    ensures Bit(MaskFor(msb, lsb).value, i) == 1 <==> lsb <= i <= msb
  {
    BitShl(LowMask(msb + 1 - lsb), lsb, i);
    if lsb <= i {
      BitLowMask(msb + 1 - lsb, i - lsb);
    }
  }

  /** `get_field`: `(value & mask) >> lsb` */
  function FieldOf(value: nat, mask: nat, lsb: nat): nat
  {
    Shr(And(value, mask), lsb)
  }

  /** `(value & ~mask) | ((v << lsb) & mask)`, the word `_set_field` and
      `write_field` compute; `v` may be negative. */
  function WithField(value: nat, mask: nat, lsb: nat, v: int): nat
  {
    Or(AndNot(value, mask), IntAnd(v * Pow2(lsb), mask))
  }

  /** A field reads the bits `lsb ..= msb` of the register value. */
  lemma FieldOfIsField(value: nat, msb: nat, lsb: nat)
    requires lsb <= msb + 1
    ensures FieldOf(value, MaskFor(msb, lsb).value, lsb) == Field(value, lsb, msb + 1 - lsb)
  {
    MaskThenShift(value, lsb, msb + 1 - lsb);
  }

  /** Reading back a field just set to `v >= 0` gives `v & (mask >> lsb)`:
      the value truncated to the field's width. */
  lemma GetAfterSet(value: nat, msb: nat, lsb: nat, v: nat)
    requires lsb <= msb + 1
    ensures var mask := MaskFor(msb, lsb).value;
      FieldOf(WithField(value, mask, lsb, v), mask, lsb) == And(v, Shr(mask, lsb))
    ensures var mask := MaskFor(msb, lsb).value;
      FieldOf(WithField(value, mask, lsb, v), mask, lsb) == v % Pow2(msb + 1 - lsb)
  {
    var w := msb + 1 - lsb;
    var mask := FieldMask(lsb, w);
    assert WithField(value, mask, lsb, v) == SetField(value, lsb, w, v);
    MaskThenShift(SetField(value, lsb, w, v), lsb, w);
    FieldOfSetField(value, lsb, w, v);
    ShlShr(LowMask(w), lsb);
    AndLowMask(v, w);
  }

  /** Setting a field, with any value, leaves every bit outside it unchanged. */
  lemma SetKeepsOtherBits(value: nat, msb: nat, lsb: nat, v: int, i: nat)
    requires lsb <= msb + 1 && !(lsb <= i <= msb)
    ensures Bit(WithField(value, MaskFor(msb, lsb).value, lsb, v), i) == Bit(value, i)
  {
    var mask := MaskFor(msb, lsb).value;
    MaskBits(msb, lsb, i);
    BitRange(mask, i);
    BitRange(value, i);
    var x := v * Pow2(lsb);
    BitOr(AndNot(value, mask), IntAnd(x, mask), i);
    BitAndNot(value, mask, i);
    if x >= 0 {
      BitAnd(x, mask, i);
    } else {
      BitAndNot(mask, -x - 1, i);
    }
  }

  /** Setting a field that lies in the low 32 bits keeps a 32-bit word within 32 bits. */
  lemma WithFieldBelow(value: u32, msb: nat, lsb: nat, v: int)
    requires lsb <= msb + 1 && msb < 32
    ensures WithField(value, MaskFor(msb, lsb).value, lsb, v) < 0x1_0000_0000
  {
    var mask := MaskFor(msb, lsb).value;
    Pow2Of32();
    FieldMaskBelow(lsb, msb + 1 - lsb, 32);
    AndNotBelow(value, mask, 32);
    var x := v * Pow2(lsb);
    if x >= 0 {
      AndBelow(x, mask, 32);
    } else {
      AndNotBelow(mask, -x - 1, 32);
    }
    OrBelow(AndNot(value, mask), IntAnd(x, mask), 32);
  }

  // ---------------------------------------------------------------------
  // Metadata

  /** `RegisterMetadata`, or `ArrayMetadata` when `arrayDims` holds `(stride, size)`. */
  class RegisterMeta {
    const name: string
    const address: nat
    const privLevelMask: RegisterMeta?
    const arrayDims: Option<(nat, nat)>
    /** `fields`, by full field name. */
    var fields: map<string, FieldMeta>

    constructor (name: string, address: nat, privLevelMask: RegisterMeta?, arrayDims: Option<(nat, nat)>)
      ensures this.name == name && this.address == address && this.privLevelMask == privLevelMask
      ensures this.arrayDims == arrayDims && fields == map[]
    {
      this.name := name;
      this.address := address;
      this.privLevelMask := privLevelMask;
      this.arrayDims := arrayDims;
      fields := map[];
    }
  }

  /** `FieldMetadata`: bits `lsb ..= msb` of `register`, which it joins. */
  class FieldMeta {
    const name: string
    const msb: nat
    const lsb: nat
    const register: RegisterMeta?
    const mask: nat
    /** `values`, the named values of the field. */
    var values: map<string, ValueMeta>

    constructor (name: string, msb: nat, lsb: nat, register: RegisterMeta?)
      requires MaskFor(msb, lsb).Ok?
      modifies register
      ensures this.name == name && this.msb == msb && this.lsb == lsb && this.register == register
      ensures mask == MaskFor(msb, lsb).value && values == map[]
      ensures register != null ==> register.fields == old(register.fields)[name := this]
    {
      this.name := name;
      this.msb := msb;
      this.lsb := lsb;
      this.register := register;
      mask := MaskFor(msb, lsb).value;
      values := map[];
      new;
      if register != null {
        register.fields := register.fields[name := this];
      }
    }
  }

  /** `ValueMetadata`: a named value of `field`, which it joins. */
  class ValueMeta {
    const name: string
    const value: int
    const field: FieldMeta?

    constructor (name: string, value: int, field: FieldMeta?)
      modifies field
      ensures this.name == name && this.value == value && this.field == field
      ensures field != null ==> field.values == old(field.values)[name := this]
    {
      this.name := name;
      this.value := value;
      this.field := field;
      new;
      if field != null {
        field.values := field.values[name := this];
      }
    }
  }

  /** `ArrayMetadata.get_address(index)`: a negative index, or one at or past
      a non-zero size, raises; a size of zero leaves the array unbounded. */
  function ArrayAddress(base: nat, stride: nat, size: nat, index: int): Result<nat>
  {
    if index < 0 || (size > 0 && index >= size) then
      Result<nat>.Err(IndexError("Array index " + IntDec(index) + " out of bounds (0-" + IntDec(size - 1) + ")"))
    else
      var i: nat := index;
      MulNonNegative(i, stride);
      Ok(base + i * stride)
  }

  /** The valid indices are those within the bounds, and each is at its
      stride from the base. */
  lemma ArrayAddressOk(base: nat, stride: nat, size: nat, index: int)
    ensures ArrayAddress(base, stride, size, index).Ok? <==> 0 <= index && (size == 0 || index < size)
    ensures ArrayAddress(base, stride, size, index).Ok? ==>
      ArrayAddress(base, stride, size, index).value - base == index * stride
  {
  }

  /** With a non-zero stride, distinct elements are at distinct addresses, in index order. */
  lemma ArrayAddressOrdered(base: nat, stride: nat, size: nat, i: int, j: int)
    requires stride > 0 && i < j
    requires ArrayAddress(base, stride, size, i).Ok? && ArrayAddress(base, stride, size, j).Ok?
    ensures ArrayAddress(base, stride, size, i).value < ArrayAddress(base, stride, size, j).value
  {
    assert j * stride == i * stride + (j - i) * stride;
    MulAtLeast(stride, j - i);
  }

  /** `array(index)`: a register named `NAME(index)` at the element's address,
      with the array's fields. */
  method ArrayElement(arr: RegisterMeta, index: int) returns (r: Result<RegisterMeta>)
    requires arr.arrayDims.Some?
    ensures var a := ArrayAddress(arr.address, arr.arrayDims.value.0, arr.arrayDims.value.1, index);
      && (a.Err? ==> r == Err(a.error))
      && (a.Ok? ==> r.Ok? && fresh(r.value) && r.value.address == a.value)
    ensures r.Ok? ==> r.value.name == arr.name + "(" + IntDec(index) + ")"
    ensures r.Ok? ==> r.value.fields == arr.fields && r.value.privLevelMask == arr.privLevelMask
    ensures r.Ok? ==> r.value.arrayDims.None?
  {
    var a := ArrayAddress(arr.address, arr.arrayDims.value.0, arr.arrayDims.value.1, index);
    if a.Err? {
      return Err(a.error);
    }
    var reg := new RegisterMeta(arr.name + "(" + IntDec(index) + ")", a.value, arr.privLevelMask, None);
    reg.fields := arr.fields;
    r := Ok(reg);
  }

  // ---------------------------------------------------------------------
  // Register values

  /** The value given to `_set_field`: an int (or anything `int()` takes), or a named value. */
  datatype FieldArg = IntArg(n: int) | NamedArg(v: ValueMeta)

  /** `RegisterValue(metadata, value)` */
  class RegisterValue {
    const metadata: RegisterMeta
    var value: nat

    constructor (metadata: RegisterMeta, value: nat)
      ensures this.metadata == metadata && this.value == value
    {
      this.metadata := metadata;
      this.value := value;
    }

    /** `get_field(field)` */
    function GetField(field: FieldMeta): nat
      reads this
    {
      FieldOf(value, field.mask, field.lsb)
    }

    /** `_set_field(field, value)`: a named value of another field is refused;
        otherwise the field's bits are replaced by those of the value. */
    method SetField(field: FieldMeta, arg: FieldArg) returns (r: Result<()>)
      modifies this
      ensures arg.NamedArg? && arg.v.field != null && arg.v.field != field ==>
        r == Err(ValueError("Field mismatch: trying to set " + field.name + " with value for " + arg.v.field.name))
          && value == old(value)
      ensures r.Ok? <==> !(arg.NamedArg? && arg.v.field != null && arg.v.field != field)
      ensures r.Ok? ==> value == WithField(old(value), field.mask, field.lsb, if arg.IntArg? then arg.n else arg.v.value)
    {
      var n: int;
      match arg {
        case NamedArg(v) =>
          if v.field != null && field != v.field {
            return Err(ValueError("Field mismatch: trying to set " + field.name + " with value for " + v.field.name));
          }
          n := v.value;
        case IntArg(i) =>
          n := i;
      }
      value := WithField(value, field.mask, field.lsb, n);
      r := Ok(());
    }
  }

  // ---------------------------------------------------------------------
  // Register interface

  /** `RegisterInterface(gpu)` */
  class RegisterInterface {
    const gpu: Device

    constructor (gpu: Device)
      ensures this.gpu == gpu
    {
      this.gpu := gpu;
    }

    /** `read(register)`: the raw value, bad or not, with the register's metadata. */
    method ReadRegister(reg: RegisterMeta) returns (r: RegisterValue)
      modifies gpu
      ensures fresh(r) && r.metadata == reg && r.value == old(gpu.Next(reg.address))
      ensures gpu.log == old(gpu.log) + [Rd(reg.address, old(gpu.Next(reg.address)))]
    {
      var v := gpu.ReadBadOk(reg.address);
      r := new RegisterValue(reg, v);
    }

    /** `read(field)`: reads the field's register and extracts the field.  A
        field without a register reads `None`, which raises. */
    method ReadField(field: FieldMeta) returns (r: Result<nat>)
      modifies gpu
      ensures field.register == null ==> r == Err(TypeError("Can't read from <class 'NoneType'>")) && gpu.log == old(gpu.log)
      ensures field.register != null ==>
        var raw := old(gpu.Next(field.register.address));
        && r == Ok(FieldOf(raw, field.mask, field.lsb))
        && gpu.log == old(gpu.log) + [Rd(field.register.address, raw)]
    {
      if field.register == null {
        return Err(TypeError("Can't read from <class 'NoneType'>"));
      }
      var reg := ReadRegister(field.register);
      r := Ok(reg.GetField(field));
    }

    /** `write(register, value)` */
    method Write(reg: RegisterMeta, value: u32)
      modifies gpu
      ensures gpu.log == old(gpu.log) + [Wr(reg.address, value)]
    {
      gpu.Write(reg.address, value);
    }

    /** `write_field(field, value)`: a checked read of the register, then the
        word with the field replaced is written.  A bad read raises before
        anything is written. */
    method WriteField(field: FieldMeta, value: int) returns (r: Result<()>)
      requires field.msb < 32 && MaskFor(field.msb, field.lsb).Ok? && field.mask == MaskFor(field.msb, field.lsb).value
      modifies gpu
      ensures field.register != null ==>
        WithField(old(gpu.Next(field.register.address)), field.mask, field.lsb, value) < 0x1_0000_0000
      ensures field.register == null ==>
        r == Err(AttributeError("'NoneType' object has no attribute 'address'")) && gpu.log == old(gpu.log)
      ensures field.register != null ==>
        var a := field.register.address;
        var raw := old(gpu.Next(a));
        && (r.Ok? <==> CheckedRead(a, raw).Ok?)
        && (r.Err? ==> r == Err(CheckedRead(a, raw).error) && gpu.log == old(gpu.log) + [Rd(a, raw)])
        && (r.Ok? ==> gpu.log == old(gpu.log) + [Rd(a, raw), Wr(a, WithField(raw, field.mask, field.lsb, value))])
    {
      if field.register == null {
        return Err(AttributeError("'NoneType' object has no attribute 'address'"));
      }
      var a := field.register.address;
      WithFieldBelow(gpu.Next(a), field.msb, field.lsb, value);
      var rd := gpu.Read(a);
      if rd.Err? {
        return Err(rd.error);
      }
      gpu.Write(a, WithField(rd.value, field.mask, field.lsb, value));
      r := Ok(());
    }

    /** `is_set(value)`: whether the named value's field currently holds it. */
    method IsSet(v: ValueMeta) returns (r: Result<bool>)
      modifies gpu
      ensures v.field == null || v.field.register == null ==>
        r == Err(TypeError("Can't read from <class 'NoneType'>")) && gpu.log == old(gpu.log)
      ensures v.field != null && v.field.register != null ==>
        var raw := old(gpu.Next(v.field.register.address));
        && r == Ok(FieldOf(raw, v.field.mask, v.field.lsb) == v.value)
        && gpu.log == old(gpu.log) + [Rd(v.field.register.address, raw)]
    {
      if v.field == null {
        return Err(TypeError("Can't read from <class 'NoneType'>"));
      }
      var f := ReadField(v.field);
      if f.Err? {
        return Err(f.error);
      }
      r := Ok(f.value == v.value);
    }
  }

  // ---------------------------------------------------------------------
  // Chip aliases

  /** The chip whose register definitions a chip uses: every `gb2*` chip
      uses gb202's, gb110 gb100's and gb112 gb102's. */
  function ChipAlias(chip: string): string
  {
    if |chip| >= 3 && chip[..3] == "gb2" then "gb202"
    else if chip == "gb110" then "gb100"
    else if chip == "gb112" then "gb102"
    else chip
  }

  /** Aliasing is idempotent, and changes only the chips named. */
  lemma ChipAliasStable(chip: string)
    ensures ChipAlias(ChipAlias(chip)) == ChipAlias(chip)
    ensures ChipAlias(chip) != chip ==>
      (|chip| >= 3 && chip[..3] == "gb2") || chip == "gb110" || chip == "gb112"
  {
    if |chip| >= 3 && chip[..3] == "gb2" {
      assert "gb202"[..3] == "gb2";
    } else if chip == "gb110" {
      assert "gb100"[..3] != "gb2";
    } else if chip == "gb112" {
      assert "gb102"[..3] != "gb2";
    }
  }
}
