/**
 * utils/bitfield.py: `Bitfield`, a raw integer read through a class-level
 * table of named fields.  A field is a mask, or a `(high, low)` bit range
 * that becomes the mask of bits `low ..= high`; reading a field masks and
 * shifts down by the index of the mask's lowest set bit, writing it
 * replaces exactly the masked bits.
 *
 * `raw` is a Python int and may be negative (`DeviceField.write_only`
 * builds `Bitfield(-1)`).  Python's bit operations on a negative int act on
 * its infinite two's complement: a negative `a` is `~p` with `p = -a - 1`
 * non-negative, and De Morgan's laws turn `&`, `& ~` and `|` with it into
 * operations on non-negative values, which is how they are written below.
 */
module Bitfields {
  import opened Bits
  import opened Text
  import opened GpuErrors

  // ---------------------------------------------------------------------
  // Python's `&`, `& ~` and `|` with a possibly negative left operand

  /** `a & m` for a mask `m >= 0`: never negative. */
  function IntAnd(a: int, m: nat): nat
  {
    if a >= 0 then And(a, m) else AndNot(m, -a - 1)
  }

  /** `a & ~m` for `m >= 0`: negative exactly when `a` is. */
  function IntAndNot(a: int, m: nat): (r: int)
    ensures r < 0 <==> a < 0
  {
    if a >= 0 then AndNot(a, m) else -(Or(-a - 1, m) as int) - 1
  }

  /** `a | b` for `b >= 0`: negative exactly when `a` is. */
  function IntOr(a: int, b: nat): (r: int)
    ensures r < 0 <==> a < 0
  {
    if a >= 0 then Or(a, b) else -(AndNot(-a - 1, b) as int) - 1
  }

  /** `"0x%x" % v`: Python prints a negative value as `0x-…`. */
  function HexPercent(v: int): string
  {
    if v >= 0 then Hex(v) else "0x-" + Hex(-v)[2..]
  }

  // ---------------------------------------------------------------------
  // Field tables

  /** An entry of a bitfield class's `fields` table: an int mask, or a `(high, low)` tuple. */
  datatype FieldBits = MaskBits(mask: nat) | RangeBits(high: nat, low: nat)

  datatype FieldDef = FieldDef(name: string, bits: FieldBits)

  /** A `Bitfield` subclass: its name, its `fields` table in definition
      order, and the access width in bytes (`size`) used by `DeviceField`. */
  datatype BitfieldClass = BitfieldClass(name: string, fields: seq<FieldDef>, size: nat)

  /** The table entry of `field`, as a dict lookup. */
  function Lookup(fields: seq<FieldDef>, field: string): Option<FieldBits>
  {
    if |fields| == 0 then None
    else if fields[0].name == field then Some(fields[0].bits)
    else Lookup(fields[1..], field)
  }

  /** The lookup finds a name exactly when the table has it, and then returns
      the first entry of that name. */
  lemma {:induction false} LookupFinds(fields: seq<FieldDef>, field: string)
    ensures Lookup(fields, field).Some? <==> exists i :: 0 <= i < |fields| && fields[i].name == field
    ensures Lookup(fields, field).Some? ==>
      exists i :: (0 <= i < |fields| && fields[i] == FieldDef(field, Lookup(fields, field).value)
        && forall j :: 0 <= j < i ==> fields[j].name != field)
  {
    if |fields| > 0 && fields[0].name != field {
      LookupFinds(fields[1..], field);
      if exists i :: 0 <= i < |fields| && fields[i].name == field {
        var i :| 0 <= i < |fields| && fields[i].name == field;
        assert fields[1..][i - 1] == fields[i];
      }
      if Lookup(fields, field).Some? {
        var i :| 0 <= i < |fields[1..]| && fields[1..][i] == FieldDef(field, Lookup(fields, field).value)
          && forall j :: 0 <= j < i ==> fields[1..][j].name != field;
        assert fields[i + 1] == fields[1..][i];
        assert forall j :: 0 < j < i + 1 ==> fields[j] == fields[1..][j - 1];
      }
    }
  }

  /** `__field_get_mask`: an int entry is the mask itself; a tuple `(high, low)`
      is `((1 << (high - low + 1)) - 1) << low`, and a negative shift count
      raises `ValueError`. */
  function MaskOf(bits: FieldBits): Result<nat>
  {
    match bits
    case MaskBits(m) => Ok(m)
    case RangeBits(h, l) =>
      if h + 1 < l then Err(ValueError("negative shift count"))
      else Ok(Shl(LowMask(h + 1 - l), l))
  }

  /** `ffs(mask) - 1`: the index of the lowest set bit. */
  function LowestSetBit(m: nat): (s: nat)
    requires m > 0
    ensures Bit(m, s) == 1
    ensures forall i :: 0 <= i < s ==> Bit(m, i) == 0
  {
    if m % 2 == 1 then 0
    else
      var s := LowestSetBit(m / 2);
      forall i | 0 < i <= s
        ensures Bit(m, i) == 0
      {
        assert Bit(m, i) == Bit(m / 2, i - 1);
      }
      1 + s
  }

  /** `__field_get_shift`: `assert mask != 0`, then the lowest set bit. */
  function ShiftOf(mask: nat): Result<nat>
  {
    if mask == 0 then Err(AssertionError("")) else Ok(LowestSetBit(mask))
  }

  /** `self[field]`: `(raw & mask) >> shift`; an unknown name raises `KeyError`. */
  function GetItem(fields: seq<FieldDef>, raw: int, field: string): Result<nat>
  {
    match Lookup(fields, field)
    case None => Err(KeyError(field))
    case Some(bits) =>
      var mask :- MaskOf(bits);
      var shift :- ShiftOf(mask);
      Ok(Shr(IntAnd(raw, mask), shift))
  }

  /** `self[field] = val`: the new `raw`.  `val << shift` must have no bit
      outside the mask (an `AssertionError` otherwise); then the masked bits
      of `raw` are replaced by it. */
  function SetItem(fields: seq<FieldDef>, raw: int, field: string, val: int): Result<int>
  {
    match Lookup(fields, field)
    case None => Err(KeyError(field))
    case Some(bits) =>
      var mask :- MaskOf(bits);
      var shift :- ShiftOf(mask);
      var v := val * Pow2(shift);
      if IntAndNot(v, mask) != 0 then
        Err(AssertionError("value " + HexPercent(v) + " mask " + HexPercent(mask)))
      else
        Ok(IntOr(IntAndNot(raw, mask), v))
  }

  // ---------------------------------------------------------------------
  // Properties of a single field

  /** Shifting left by `s` and back gives the value. */
  lemma ShlShr(v: nat, s: nat)
    ensures Shr(Shl(v, s), s) == v
  {
    ShrIsDiv(Shl(v, s), s);
    DivUnique(Shl(v, s), Pow2(s), v, 0);
  }

  /** The mask of a `(high, low)` range is that of the `high - low + 1` bits from `low`,
      and its lowest set bit is `low`. */
  lemma RangeMask(h: nat, l: nat)
    requires l <= h
    ensures MaskOf(RangeBits(h, l)) == Ok(FieldMask(l, h + 1 - l))
    ensures FieldMask(l, h + 1 - l) > 0 && LowestSetBit(FieldMask(l, h + 1 - l)) == l
  {
    var m := FieldMask(l, h + 1 - l);
    BitShl(LowMask(h + 1 - l), l, l);
    BitLowMask(h + 1 - l, 0);
    BitOfZero(l);
    var s := LowestSetBit(m);
    if s < l {
      BitShl(LowMask(h + 1 - l), l, s);
    }
  }

  /** A range field reads the bits `low ..= high` of a non-negative `raw`. */
  lemma GetRange(fields: seq<FieldDef>, raw: nat, field: string, h: nat, l: nat)
    requires Lookup(fields, field) == Some(RangeBits(h, l)) && l <= h
    ensures GetItem(fields, raw, field) == Ok(Field(raw, l, h + 1 - l))
  {
    RangeMask(h, l);
    MaskThenShift(raw, l, h + 1 - l);
  }

  /** A range field can be written exactly with the values that fit in its
      width, and then only its bits of `raw` change: the new `raw` is the
      old one with the field replaced. */
  lemma SetRange(fields: seq<FieldDef>, raw: nat, field: string, h: nat, l: nat, val: int)
    requires Lookup(fields, field) == Some(RangeBits(h, l)) && l <= h
    ensures SetItem(fields, raw, field, val).Ok? <==> 0 <= val < Pow2(h + 1 - l)
    ensures SetItem(fields, raw, field, val).Ok? ==>
      SetItem(fields, raw, field, val) == Ok(SetField(raw, l, h + 1 - l, val))
  {
    RangeMask(h, l);
    var w := h + 1 - l;
    var m := FieldMask(l, w);
    if val >= 0 {
      var v := Shl(val, l);
      FitsMask(val, l, w);
      if val < Pow2(w) {
        AndOfFitting(val, l, w);
      }
    }
  }

  /** `val << low` has no bit outside the range mask exactly when `val` fits in the width. */
  lemma FitsMask(val: nat, l: nat, w: nat)
    ensures AndNot(Shl(val, l), FieldMask(l, w)) == 0 <==> val < Pow2(w)
  {
    var v := Shl(val, l);
    var m := FieldMask(l, w);
    if val < Pow2(w) {
      forall i: nat
        ensures Bit(AndNot(v, m), i) == Bit(0, i)
      {
        BitAndNot(v, m, i);
        BitShl(val, l, i);
        BitShl(LowMask(w), l, i);
        BitOfZero(i);
        if l <= i {
          BitLowMask(w, i - l);
          if i - l >= w {
            BitAbove(val, w, i - l);
          }
        }
      }
      BitsEqual(AndNot(v, m), 0);
    } else {
      var j := HighBitAtOrAbove(val, w);
      BitAndNot(v, m, j + l);
      BitShl(val, l, j + l);
      BitShl(LowMask(w), l, j + l);
      BitLowMask(w, j);
      if AndNot(v, m) == 0 {
        BitOfZero(j + l);
      }
    }
  }

  /** A value of at least `2**w` has a set bit at or above `w`. */
  lemma HighBitAtOrAbove(val: nat, w: nat) returns (j: nat)
    requires val >= Pow2(w)
    ensures j >= w && Bit(val, j) == 1
  {
    if forall i: nat :: w <= i ==> Bit(val, i) == 0 {
      BelowPow2(val, w);
      assert false;
    }
    var i: nat :| w <= i && Bit(val, i) != 0;
    BitRange(val, i);
    j := i;
  }

  /** For a value that fits, masking `val << low` changes nothing. */
  lemma AndOfFitting(val: nat, l: nat, w: nat)
    requires val < Pow2(w)
    ensures And(Shl(val, l), FieldMask(l, w)) == Shl(val, l)
  {
    var v := Shl(val, l);
    var m := FieldMask(l, w);
    forall i: nat
      ensures Bit(And(v, m), i) == Bit(v, i)
    {
      BitAnd(v, m, i);
      BitShl(val, l, i);
      BitShl(LowMask(w), l, i);
      if l <= i {
        BitLowMask(w, i - l);
        if i - l >= w {
          BitAbove(val, w, i - l);
        }
      }
      BitRange(v, i);
    }
    BitsEqual(And(v, m), v);
  }

  /** Reading a field right after writing it gives the value written, for
      any mask, including one with gaps. */
  lemma SetThenGet(fields: seq<FieldDef>, raw: int, field: string, val: int)
    requires SetItem(fields, raw, field, val).Ok?
    ensures val >= 0
    ensures GetItem(fields, SetItem(fields, raw, field, val).value, field).Ok?
    ensures GetItem(fields, SetItem(fields, raw, field, val).value, field).value == val
  {
    var bits := Lookup(fields, field).value;
    var mask := MaskOf(bits).value;
    var shift := LowestSetBit(mask);
    if val < 0 {
      NegativeTimesPositive(val, Pow2(shift));
    }
    var n: nat := val;
    var v: nat := Shl(n, shift);
    SetItemIs(fields, raw, field, val, mask, shift);
    assert v == val * Pow2(shift);
    var raw' := IntOr(IntAndNot(raw, mask), v);
    assert SetItem(fields, raw, field, val).value == raw';
    ReplaceMasked(raw, mask, v);
    assert IntAnd(raw', mask) == v;
    ShlShr(n, shift);
    assert Shr(v, shift) == n;
    GetItemIs(fields, raw', field, mask, shift);
  }

  /** `self[field]` once the mask and the shift are known. */
  lemma GetItemIs(fields: seq<FieldDef>, raw: int, field: string, mask: nat, shift: nat)
    requires Lookup(fields, field).Some? && MaskOf(Lookup(fields, field).value) == Ok(mask)
    requires mask > 0 && shift == LowestSetBit(mask)
    ensures GetItem(fields, raw, field) == Ok(Shr(IntAnd(raw, mask), shift))
  {
  }

  /** `self[field] = val` once the mask and the shift are known. */
  lemma SetItemIs(fields: seq<FieldDef>, raw: int, field: string, val: int, mask: nat, shift: nat)
    requires Lookup(fields, field).Some? && MaskOf(Lookup(fields, field).value) == Ok(mask)
    requires mask > 0 && shift == LowestSetBit(mask)
    requires SetItem(fields, raw, field, val).Ok?
    ensures val >= 0 && IntAndNot(val * Pow2(shift), mask) == 0
    ensures SetItem(fields, raw, field, val) == Ok(IntOr(IntAndNot(raw, mask), val * Pow2(shift)))
  {
    if val < 0 {
      NegativeTimesPositive(val, Pow2(shift));
    }
  }

  lemma NegativeTimesPositive(a: int, b: int)
    requires a < 0 && b > 0
    ensures a * b < 0
  {
  }

  /** Masking `(a & ~m) | v`, with `v` inside `m`, gives back `v`. */
  lemma ReplaceMasked(a: int, m: nat, v: nat)
    requires AndNot(v, m) == 0
    ensures IntAnd(IntOr(IntAndNot(a, m), v), m) == v
  {
    forall i: nat
      ensures Bit(IntAnd(IntOr(IntAndNot(a, m), v), m), i) == Bit(v, i)
    {
      BitAndNot(v, m, i);
      BitOfZero(i);
      BitRange(v, i);
      if a >= 0 {
        var o := Or(AndNot(a, m), v);
        BitAnd(o, m, i);
        BitOr(AndNot(a, m), v, i);
        BitAndNot(a, m, i);
        BitRange(a, i);
        BitRange(m, i);
      } else {
        var p := -a - 1;
        var q := AndNot(Or(p, m), v);
        BitAndNot(m, q, i);
        BitAndNot(Or(p, m), v, i);
        BitOr(p, m, i);
        BitRange(p, i);
        BitRange(m, i);
      }
    }
    BitsEqual(IntAnd(IntOr(IntAndNot(a, m), v), m), v);
  }

  /** A write leaves every bit of a non-negative `raw` outside the mask as it was. */
  lemma SetKeepsOtherBits(fields: seq<FieldDef>, raw: nat, field: string, val: int, i: nat)
    requires SetItem(fields, raw, field, val).Ok?
    requires Bit(MaskOf(Lookup(fields, field).value).value, i) == 0
    ensures Bit(SetItem(fields, raw, field, val).value as nat, i) == Bit(raw, i)
  {
    var mask := MaskOf(Lookup(fields, field).value).value;
    var shift := LowestSetBit(mask);
    var v: nat := val * Pow2(shift);
    BitOr(AndNot(raw, mask), v, i);
    BitAndNot(raw, mask, i);
    BitAndNot(v, mask, i);
    BitOfZero(i);
    BitRange(raw, i);
    BitRange(v, i);
  }

  /** A write that fails is refused for one of four reasons: an unknown name,
      a negative range, an empty mask, or a value with bits outside the mask
      (every negative value among them). */
  lemma SetFailures(fields: seq<FieldDef>, raw: int, field: string, val: int)
    requires SetItem(fields, raw, field, val).Err?
    ensures Lookup(fields, field).None? ==> SetItem(fields, raw, field, val) == Err(KeyError(field))
    ensures Lookup(fields, field).Some? && MaskOf(Lookup(fields, field).value) == Ok(0) ==>
      SetItem(fields, raw, field, val) == Err(AssertionError(""))
    ensures val < 0 && Lookup(fields, field).Some? && MaskOf(Lookup(fields, field).value).Ok? ==>
      SetItem(fields, raw, field, val).error.AssertionError?
  {
    if val < 0 && Lookup(fields, field).Some? && MaskOf(Lookup(fields, field).value).Ok? {
      var mask := MaskOf(Lookup(fields, field).value).value;
      if mask != 0 {
        var v := val * Pow2(LowestSetBit(mask));
        assert v < 0;
      }
    }
  }

  // ---------------------------------------------------------------------
  // values(), non_zero(), non_zero_fields()

  /** `values()`: every field's value, in table order; the first field that cannot be read raises. */
  function Values(fields: seq<FieldDef>, raw: int): (r: Result<seq<(string, nat)>>)
  {
    ValuesOf(fields, fields, raw)
  }

  /** The values of the fields in `rest`, each read through the whole table. */
  function ValuesOf(table: seq<FieldDef>, rest: seq<FieldDef>, raw: int): (r: Result<seq<(string, nat)>>)
    ensures r.Ok? ==> |r.value| == |rest|
  {
    if |rest| == 0 then Ok([])
    else
      var v :- GetItem(table, raw, rest[0].name);
      var vs :- ValuesOf(table, rest[1..], raw);
      Ok([(rest[0].name, v)] + vs)
  }

  /** `values()` lists each field's name with what `self[name]` reads. */
  lemma {:induction false} ValuesAt(table: seq<FieldDef>, rest: seq<FieldDef>, raw: int, i: nat)
    requires ValuesOf(table, rest, raw).Ok? && i < |rest|
    ensures GetItem(table, raw, rest[i].name).Ok?
    ensures ValuesOf(table, rest, raw).value[i] == (rest[i].name, GetItem(table, raw, rest[i].name).value)
  {
    if i > 0 {
      ValuesAt(table, rest[1..], raw, i - 1);
    }
  }

  /** `values()` fails exactly when some field cannot be read. */
  lemma {:induction false} ValuesFail(table: seq<FieldDef>, rest: seq<FieldDef>, raw: int)
    ensures ValuesOf(table, rest, raw).Err? <==>
      exists i :: 0 <= i < |rest| && GetItem(table, raw, rest[i].name).Err?
  {
    if |rest| > 0 {
      ValuesFail(table, rest[1..], raw);
      if ValuesOf(table, rest[1..], raw).Err? {
        var i :| 0 <= i < |rest[1..]| && GetItem(table, raw, rest[1..][i].name).Err?;
        assert rest[i + 1] == rest[1..][i];
      }
      if exists i :: 0 <= i < |rest| && GetItem(table, raw, rest[i].name).Err? {
        var i :| 0 <= i < |rest| && GetItem(table, raw, rest[i].name).Err?;
        if i > 0 {
          assert rest[1..][i - 1] == rest[i];
        }
      }
    }
  }

  /** `non_zero()`: the entries of `values()` whose value is not zero, in order. */
  function NonZero(vals: seq<(string, nat)>): seq<(string, nat)>
  {
    if |vals| == 0 then []
    else (if vals[0].1 != 0 then [vals[0]] else []) + NonZero(vals[1..])
  }

  /** `non_zero_fields()`: the names of those entries. */
  function NonZeroFields(vals: seq<(string, nat)>): seq<string>
  {
    if |vals| == 0 then []
    else (if vals[0].1 != 0 then [vals[0].0] else []) + NonZeroFields(vals[1..])
  }

  /** `non_zero()` keeps exactly the entries with a value other than zero. */
  lemma {:induction false} NonZeroExact(vals: seq<(string, nat)>, e: (string, nat))
    ensures e in NonZero(vals) <==> e in vals && e.1 != 0
  {
    if |vals| > 0 {
      NonZeroExact(vals[1..], e);
      assert vals == [vals[0]] + vals[1..];
    }
  }

  /** `non_zero_fields()` names exactly the fields `non_zero()` keeps, in the same order. */
  lemma {:induction false} NonZeroFieldsAreNames(vals: seq<(string, nat)>)
    ensures |NonZeroFields(vals)| == |NonZero(vals)|
    ensures forall i :: 0 <= i < |NonZero(vals)| ==> NonZeroFields(vals)[i] == NonZero(vals)[i].0
  {
    if |vals| > 0 {
      NonZeroFieldsAreNames(vals[1..]);
    }
  }

  /** Over a table, a field name is in `non_zero_fields()` exactly when that field reads non-zero. */
  lemma NonZeroFieldsOfTable(fields: seq<FieldDef>, raw: int, name: string)
    requires Values(fields, raw).Ok?
    ensures name in NonZeroFields(Values(fields, raw).value) <==>
      exists i :: 0 <= i < |fields| && fields[i].name == name && GetItem(fields, raw, name) != Ok(0)
  {
    var vals := Values(fields, raw).value;
    NonZeroFieldsAreNames(vals);
    if name in NonZeroFields(vals) {
      var k :| 0 <= k < |NonZeroFields(vals)| && NonZeroFields(vals)[k] == name;
      var e := NonZero(vals)[k];
      NonZeroExact(vals, e);
      var i :| 0 <= i < |vals| && vals[i] == e;
      ValuesAt(fields, fields, raw, i);
    }
    if exists i :: 0 <= i < |fields| && fields[i].name == name && GetItem(fields, raw, name) != Ok(0) {
      var i :| 0 <= i < |fields| && fields[i].name == name && GetItem(fields, raw, name) != Ok(0);
      ValuesAt(fields, fields, raw, i);
      var e := vals[i];
      NonZeroExact(vals, e);
      var k :| 0 <= k < |NonZero(vals)| && NonZero(vals)[k] == e;
      assert NonZeroFields(vals)[k] == name;
    }
  }

  // ---------------------------------------------------------------------
  // The object

  class Bitfield {
    const cls: BitfieldClass
    const name: string
    var raw: int

    /** `Bitfield(raw, name=None)`: the name defaults to the class's name. */
    constructor (cls: BitfieldClass, raw: int, name: Option<string>)
      ensures this.cls == cls && this.raw == raw
      ensures this.name == if name.Some? then name.value else cls.name
    {
      this.cls := cls;
      this.raw := raw;
      this.name := if name.Some? then name.value else cls.name;
    }

    /** `self[field]` */
    function Get(field: string): Result<nat>
      reads this
    {
      GetItem(cls.fields, raw, field)
    }

    /** `self[field] = val`; on an exception `raw` is left as it was. */
    method Set(field: string, val: int) returns (r: Result<()>)
      modifies this
      ensures r.Ok? <==> SetItem(cls.fields, old(raw), field, val).Ok?
      ensures r.Ok? ==> raw == SetItem(cls.fields, old(raw), field, val).value
      ensures r.Err? ==> raw == old(raw) && r.error == SetItem(cls.fields, old(raw), field, val).error
    {
      var bits := Lookup(cls.fields, field);
      if bits.None? {
        return Err(KeyError(field));
      }
      var mask := MaskOf(bits.value);
      if mask.Err? {
        return Err(mask.error);
      }
      var shift := ShiftOf(mask.value);
      if shift.Err? {
        return Err(shift.error);
      }
      var v := val * Pow2(shift.value);
      if IntAndNot(v, mask.value) != 0 {
        return Err(AssertionError("value " + HexPercent(v) + " mask " + HexPercent(mask.value)));
      }
      raw := IntOr(IntAndNot(raw, mask.value), v);
      r := Ok(());
    }
  }

  /** `a == other`: false against `None`, otherwise equal names and equal raws;
      the class does not take part. */
  predicate Equal(a: Bitfield, other: Bitfield?)
    reads a, other
  {
    other != null && a.name == other.name && a.raw == other.raw
  }

  /** Two equal bitfields of the same class read the same value from every field. */
  lemma EqualReadsAlike(a: Bitfield, b: Bitfield, field: string)
    requires Equal(a, b) && a.cls.fields == b.cls.fields
    ensures a.Get(field) == b.Get(field)
  {
  }
}
