/**
 * `RawBitfield` and `GpuBitfield` (nvidia_gpu_tools.py): a 32-bit register
 * value indexed by Python slices, `reg[lo:hi]` being the bits `lo` up to
 * but not including `hi`.  `GpuBitfield` re-reads its register before every
 * read of a slice and writes it back after every write, unless deferred.
 */
module RawBitfields {
  import opened Bits
  import opened Text
  import opened GpuErrors
  import opened PySlices
  import opened Bitfields
  import opened Devices

  /** The key of `reg[key]`: a slice, or any other Python value, named by its type. */
  datatype Key = SliceKey(s: Slice) | OtherKey(typeName: string)

  /** `__get_mask(key)`: the mask of the bits the slice selects, within 32
      bits, and its lowest bit. */
  function KeyMask(key: Key): Result<(nat, nat)>
  {
    match key
    case OtherKey(t) => Err(TypeError("Wrong type for key " + t))
    case SliceKey(s) =>
      var (start, stop, stride) :- Indices(s, 32);
      if stride != 1 then Err(IndexError("Stride has to be 1, got " + IntDec(stride)))
      else if stop < start then Err(ValueError("negative shift count"))
      else Ok((Shl(LowMask(stop - start), start), start))
  }

  /** `value[key]` */
  function GetBits(value: int, key: Key): Result<nat>
  {
    var (mask, start) :- KeyMask(key);
    Ok(Shr(IntAnd(value, mask), start))
  }

  /** `value[key] = bits`: the new value. */
  function SetBits(value: int, key: Key, bits: int): Result<int>
  {
    var (mask, start) :- KeyMask(key);
    var m := Shr(mask, start);
    if IntAndNot(bits, m) != 0 then
      Err(ValueError("Too many bits set for mask " + Hex(m) + " bits " + HexPercent(bits)))
    else
      Ok(IntOr(IntAndNot(value, mask), Shl(bits as nat, start)))
  }

  /** A step-one slice whose `indices(32)` are `lo <= hi` selects the
      `hi - lo` bits from `lo`, all within 32 bits. */
  lemma SliceMask(s: Slice, lo: int, hi: int)
    requires Indices(s, 32) == Ok((lo, hi, 1)) && lo <= hi
    ensures 0 <= lo <= hi <= 32
    ensures KeyMask(SliceKey(s)) == Ok((FieldMask(lo, hi - lo), lo))
  {
  }

  /** `reg[lo:hi]` with `0 <= lo <= hi <= 32` has exactly those indices. */
  lemma PlainSlice(lo: nat, hi: nat)
    requires lo <= hi <= 32
    ensures Indices(Slice(Some(lo), Some(hi), None), 32) == Ok((lo as int, hi as int, 1))
  {
  }

  /** Reading a slice of a non-negative value gives that bit field. */
  lemma GetIsField(value: nat, s: Slice, lo: int, hi: int)
    requires Indices(s, 32) == Ok((lo, hi, 1)) && lo <= hi
    ensures 0 <= lo <= hi <= 32
    ensures GetBits(value, SliceKey(s)) == Ok(Field(value, lo, hi - lo))
  {
    SliceMask(s, lo, hi);
    MaskThenShift(value, lo, hi - lo);
  }

  /** `mask >> start` is the low mask of the slice's width. */
  lemma ShiftedMask(lo: nat, w: nat)
    ensures Shr(FieldMask(lo, w), lo) == LowMask(w)
  {
    ShlShr(LowMask(w), lo);
  }

  /** A slice can be written exactly with the values that fit its width, and
      then the value is the old one with that field replaced. */
  lemma SetIsSetField(value: nat, s: Slice, lo: int, hi: int, bits: int)
    requires Indices(s, 32) == Ok((lo, hi, 1)) && lo <= hi
    ensures 0 <= lo <= hi <= 32
    ensures SetBits(value, SliceKey(s), bits).Ok? <==> 0 <= bits < Pow2(hi - lo)
    ensures SetBits(value, SliceKey(s), bits).Ok? ==>
      SetBits(value, SliceKey(s), bits) == Ok(SetField(value, lo, hi - lo, bits))
  {
    SliceMask(s, lo, hi);
    var w := hi - lo;
    ShiftedMask(lo, w);
    if bits >= 0 {
      FitsMask(bits, 0, w);
      assert Shl(bits, 0) == bits;
      if bits < Pow2(w) {
        AndOfFitting(bits, lo, w);
      }
    }
  }

  /** Reading back the slice just written, of any value, gives the bits written. */
  lemma SetThenGetBits(value: int, key: Key, bits: int)
    requires SetBits(value, key, bits).Ok?
    ensures bits >= 0 && GetBits(SetBits(value, key, bits).value, key) == Ok(bits as nat)
  {
    var (mask, start) := KeyMask(key).value;
    var s := key.s;
    var (lo, hi, _) := Indices(s, 32).value;
    SliceMask(s, lo, hi);
    var w := hi - lo;
    ShiftedMask(lo, w);
    FitsMask(bits, 0, w);
    assert Shl(bits, 0) == bits;
    FitsMask(bits, lo, w);
    ReplaceMasked(value, mask, Shl(bits, lo));
    ShlShr(bits, lo);
  }

  /** Writing a slice of a non-negative value leaves every bit outside it as it was. */
  lemma SetKeepsOtherBits(value: nat, s: Slice, lo: int, hi: int, bits: int, i: nat)
    requires Indices(s, 32) == Ok((lo, hi, 1)) && lo <= hi
    requires SetBits(value, SliceKey(s), bits).Ok?
    requires i < lo || hi <= i
    ensures Bit(SetBits(value, SliceKey(s), bits).value as nat, i) == Bit(value, i)
  {
    SetIsSetField(value, s, lo, hi, bits);
    BitSetField(value, lo, hi - lo, bits, i);
  }

  /** A slice write keeps a 32-bit value within 32 bits. */
  lemma SetBitsBelow(value: u32, key: Key, bits: int)
    requires SetBits(value, key, bits).Ok?
    ensures 0 <= SetBits(value, key, bits).value < 0x1_0000_0000
  {
    var s := key.s;
    var (lo, hi, _) := Indices(s, 32).value;
    SetIsSetField(value, s, lo, hi, bits);
    Pow2Of32();
    SetFieldBelow(value, lo, hi - lo, bits, 32);
  }

  /** Each way a slice access is refused. */
  lemma KeyMaskFailures(key: Key)
    ensures key.OtherKey? ==> KeyMask(key) == Err(TypeError("Wrong type for key " + key.typeName))
    ensures key.SliceKey? && key.s.step == Some(0) ==>
      KeyMask(key) == Err(ValueError("slice step cannot be zero"))
    ensures key.SliceKey? && key.s.step.Some? && key.s.step.value !in {0, 1} ==>
      KeyMask(key) == Err(IndexError("Stride has to be 1, got " + IntDec(key.s.step.value)))
    ensures key.SliceKey? && Indices(key.s, 32).Ok? && Indices(key.s, 32).value.2 == 1 ==>
      (KeyMask(key).Err? <==> Indices(key.s, 32).value.1 < Indices(key.s, 32).value.0)
  {
  }

  /** A value with bits outside the slice's width is refused, the value kept. */
  lemma TooManyBits(value: int, s: Slice, lo: int, hi: int, bits: int)
    requires Indices(s, 32) == Ok((lo, hi, 1)) && lo <= hi
    requires bits < 0 || bits >= Pow2(hi - lo)
    ensures SetBits(value, SliceKey(s), bits) ==
      Err(ValueError("Too many bits set for mask " + Hex(LowMask(hi - lo)) + " bits " + HexPercent(bits)))
  {
    SliceMask(s, lo, hi);
    var w := hi - lo;
    ShiftedMask(lo, w);
    if bits >= 0 {
      FitsMask(bits, 0, w);
      assert Shl(bits, 0) == bits;
    }
  }

  /** `RawBitfield(value)` */
  class RawBitfield {
    var value: int

    constructor (value: int)
      ensures this.value == value
    {
      this.value := value;
    }

    function Get(key: Key): Result<nat>
      reads this
    {
      GetBits(value, key)
    }

    /** `self[key] = bits`: on error nothing changes. */
    method Set(key: Key, bits: int) returns (r: Result<()>)
      modifies this
      ensures r.Ok? <==> SetBits(old(value), key, bits).Ok?
      ensures r.Ok? ==> value == SetBits(old(value), key, bits).value
      ensures r.Err? ==> value == old(value) && r.error == SetBits(old(value), key, bits).error
    {
      var n := SetBits(value, key, bits);
      if n.Err? {
        return Err(n.error);
      }
      value := n.value;
      r := Ok(());
    }
  }

  /** `GpuBitfield(gpu, offset, init_value, deferred)`: a register value tied to a BAR0 offset. */
  class GpuBitfield {
    const gpu: Device
    const offset: nat
    const deferred: bool
    var value: u32

    constructor (gpu: Device, offset: nat, value: u32, deferred: bool)
      ensures this.gpu == gpu && this.offset == offset && this.value == value && this.deferred == deferred
    {
      this.gpu := gpu;
      this.offset := offset;
      this.value := value;
      this.deferred := deferred;
    }

    /** `self[key]`: re-reads the register, then takes the slice.  A bad read raises
        and leaves `value` as it was. */
    method Get(key: Key) returns (r: Result<nat>)
      modifies this, gpu
      ensures gpu.log == old(gpu.log) + [Rd(offset, old(gpu.Next(offset)))]
      ensures CheckedRead(offset, old(gpu.Next(offset))).Err? ==>
        value == old(value) && r == Err(CheckedRead(offset, old(gpu.Next(offset))).error)
      ensures CheckedRead(offset, old(gpu.Next(offset))).Ok? ==>
        value == old(gpu.Next(offset)) && r == GetBits(value, key)
    {
      var v := gpu.Read(offset);
      if v.Err? {
        return Err(v.error);
      }
      value := v.value;
      r := GetBits(value, key);
    }

    /** `self[key] = bits`: sets the slice, then writes the register unless deferred. */
    method Set(key: Key, bits: int) returns (r: Result<()>)
      modifies this, gpu
      ensures r.Ok? <==> SetBits(old(value), key, bits).Ok?
      ensures r.Err? ==> value == old(value) && gpu.log == old(gpu.log)
      ensures r.Ok? ==> value == SetBits(old(value), key, bits).value
      ensures r.Ok? ==> gpu.log == old(gpu.log) + (if deferred then [] else [Wr(offset, value)])
    {
      var n := SetBits(value, key, bits);
      if n.Err? {
        return Err(n.error);
      }
      SetBitsBelow(value, key, bits);
      value := n.value as u32;
      if !deferred {
        gpu.Write(offset, value);
      }
      r := Ok(());
    }

    /** `commit()`: writes the value held. */
    method Commit()
      modifies gpu
      ensures gpu.log == old(gpu.log) + [Wr(offset, value)]
    {
      gpu.Write(offset, value);
    }
  }

  /** `GpuBitfield.__init__`: reads the register unless an initial value is given;
      a bad read raises. */
  method OpenGpuBitfield(gpu: Device, offset: nat, initValue: Option<u32>, deferred: bool)
    returns (r: Result<GpuBitfield>)
    modifies gpu
    ensures initValue.Some? ==> gpu.log == old(gpu.log) && r.Ok? && r.value.value == initValue.value
    ensures initValue.None? ==> gpu.log == old(gpu.log) + [Rd(offset, old(gpu.Next(offset)))]
    ensures initValue.None? ==> (r.Ok? <==> CheckedRead(offset, old(gpu.Next(offset))).Ok?)
    ensures initValue.None? && r.Ok? ==> r.value.value == old(gpu.Next(offset))
    ensures r.Ok? ==> fresh(r.value) && r.value.gpu == gpu && r.value.offset == offset && r.value.deferred == deferred
  {
    var v: u32;
    if initValue.Some? {
      v := initValue.value;
    } else {
      var rd := gpu.Read(offset);
      if rd.Err? {
        return Err(rd.error);
      }
      v := rd.value;
    }
    var b := new GpuBitfield(gpu, offset, v, deferred);
    r := Ok(b);
  }
}
