/**
 * utils/nice_struct.py: a struct described by its `_fields_` list and
 * packed little-endian ("<") with no padding.  A field is either a plain
 * `struct` item or a bitfield; consecutive bitfields share one container
 * integer, filled from bit 0 upwards, and a run of bitfields must fill its
 * container exactly.
 *
 * The functions below follow the loops of `_construct_format_string`,
 * `from_bytes` and `to_bytes` field by field, carrying the loops' state
 * (`bitfield_accumulated_size`, `bitfield_format`, the current container
 * and the position in the unpacked items) as parameters.  The loops'
 * `bitfield_counter` and `bitfield_accumulated_size` start at 0, grow by
 * the same `bits` and are reset together, so one parameter `acc` stands
 * for both; the methods of `NiceStruct` keep both variables and prove
 * them equal.
 */
module NiceStructs {
  import opened Bits
  import opened Text
  import opened GpuErrors
  import opened IntsToBytes

  /** The container formats a layout uses: "B", "H", "I" and "Q" (1, 2, 4 and 8 bytes). */
  type IntSize = s: nat | s == 1 || s == 2 || s == 4 || s == 8 witness 1

  /** One item of a `struct` format string: an unsigned integer or `"<count>s"`. */
  datatype Fmt = IntFmt(size: IntSize) | BytesFmt(count: nat)

  /** An entry of `_fields_`: `(name, fmt, bits)` for a bitfield, `(name, fmt)` otherwise. */
  datatype FieldDecl =
    | BitField(name: string, container: IntSize, bits: nat)
    | Plain(name: string, fmt: Fmt)

  /** An attribute value, which is also what `struct.pack` takes and `struct.unpack_from` returns. */
  datatype Value = IntVal(n: nat) | BytesVal(bytes: seq<u8>)

  /** What `from_bytes` leaves behind: the attributes as set so far, and whether it raised. */
  datatype Decoded = Decoded(attrs: map<string, Value>, status: Result<()>)

  // The exceptions the layout code raises.
  const TooManyBits: Error := ValueError("Too many bits")
  const BitfieldUnfinished: Error := ValueError("Bitfield unfinished")
  const PlainAfterBits: Error := ValueError("starting with bitfields unfinished")
  const RunOverflow: Error := AssertionError("bitfield overflows its container")
  const PlainInRun: Error := AssertionError("plain field inside a bitfield run")
  const NoSuchItem: Error := IndexError("tuple index out of range")
  const NotShiftable: Error := TypeError("unsupported operand type(s) for >>")
  const NotMaskable: Error := TypeError("unsupported operand type(s) for &")
  const NotIterable: Error := TypeError("'int' object is not iterable")
  const NotAnInteger: Error := StructError("required argument is not an integer")
  const OutOfRange: Error := StructError("argument out of range")
  const NotBytes: Error := StructError("argument for 's' must be a bytes object")
  const ItemCount: Error := StructError("pack expected a different number of items")
  const BufferTooSmall: Error := StructError("unpack_from requires a larger buffer")

  function Prepend<T>(head: seq<T>, r: Result<seq<T>>): (p: Result<seq<T>>)
    ensures p.Ok? <==> r.Ok?
    ensures p.Ok? ==> p.value == head + r.value
    ensures p.Err? ==> p.error == r.error
  {
    match r
    case Ok(tail) => Ok(head + tail)
    case Err(e) => Err(e)
  }

  /** The container of a run is fixed by its first bitfield (`if bitfield_format == ''`). */
  function RunSize(bf: Option<IntSize>, size: IntSize): IntSize
  {
    if bf.None? then size else bf.value
  }

  // -----------------------------------------------------------------------
  // _construct_format_string

  /** The format items emitted for `fields`, starting with `acc` bits of an
      unfinished run whose container is `bf`. */
  function FormatFrom(fields: seq<FieldDecl>, acc: nat, bf: Option<IntSize>): Result<seq<Fmt>>
    decreases |fields|
  {
    if |fields| == 0 then
      if acc > 0 then Err(BitfieldUnfinished) else Ok([])
    else
      match fields[0]
      case BitField(_, size, bits) =>
        var run := RunSize(bf, size);
        if acc + bits == 8 * run then Prepend([IntFmt(run)], FormatFrom(fields[1..], 0, None))
        else if acc + bits > 8 * run then Err(TooManyBits)
        else FormatFrom(fields[1..], acc + bits, Some(run))
      case Plain(_, fmt) =>
        if acc > 0 then Err(PlainAfterBits)
        else Prepend([fmt], FormatFrom(fields[1..], acc, bf))
  }

  /** `_construct_format_string()`, without the leading "<". */
  function Format(fields: seq<FieldDecl>): Result<seq<Fmt>>
  {
    FormatFrom(fields, 0, None)
  }

  function FmtSize(f: Fmt): nat
  {
    match f
    case IntFmt(size) => size
    case BytesFmt(count) => count
  }

  /** `struct.calcsize`: "<" means standard sizes and no padding. */
  function CalcSize(fmts: seq<Fmt>): nat
  {
    if |fmts| == 0 then 0 else FmtSize(fmts[0]) + CalcSize(fmts[1..])
  }

  // -----------------------------------------------------------------------
  // struct.pack and struct.unpack_from

  function Zeros(n: nat): (r: seq<u8>)
    ensures |r| == n && forall i :: 0 <= i < n ==> r[i] == 0
  {
    if n == 0 then [] else [0] + Zeros(n - 1)
  }

  /** `"<n>s"` packs a bytes value truncated or padded with zero bytes to `n`. */
  function PadTo(b: seq<u8>, n: nat): (r: seq<u8>)
    ensures |r| == n
    ensures forall i :: 0 <= i < n ==> r[i] == if i < |b| then b[i] else 0
  {
    if |b| >= n then b[..n] else b + Zeros(n - |b|)
  }

  function PackItem(f: Fmt, v: Value): Result<seq<u8>>
  {
    match f
    case IntFmt(size) =>
      if v.BytesVal? then Err(NotAnInteger)
      else if v.n >= Bound(size) then Err(OutOfRange)
      else Ok(LeBytes(v.n, size))
    case BytesFmt(count) =>
      if v.IntVal? then Err(NotBytes)
      else Ok(PadTo(v.bytes, count))
  }

  function PackAll(fmts: seq<Fmt>, vals: seq<Value>): Result<seq<u8>>
    requires |fmts| == |vals|
  {
    if |fmts| == 0 then Ok([])
    else
      match PackItem(fmts[0], vals[0])
      case Err(e) => Err(e)
      case Ok(b) => Prepend(b, PackAll(fmts[1..], vals[1..]))
  }

  /** `struct.pack(fmt, *vals)`: the item count is checked before any item. */
  function Pack(fmts: seq<Fmt>, vals: seq<Value>): Result<seq<u8>>
  {
    if |vals| != |fmts| then Err(ItemCount)
    else PackAll(fmts, vals)
  }

  function UnpackAll(fmts: seq<Fmt>, data: seq<u8>): (r: seq<Value>)
    requires |data| >= CalcSize(fmts)
    ensures |r| == |fmts|
  {
    if |fmts| == 0 then []
    else
      var n := FmtSize(fmts[0]);
      var v := if fmts[0].IntFmt? then IntVal(LeValue(data[..n])) else BytesVal(data[..n]);
      [v] + UnpackAll(fmts[1..], data[n..])
  }

  /** `struct.unpack_from(fmt, data)`: bytes past the struct's size are ignored. */
  function UnpackFrom(fmts: seq<Fmt>, data: seq<u8>): Result<seq<Value>>
  {
    if |data| < CalcSize(fmts) then Err(BufferTooSmall)
    else Ok(UnpackAll(fmts, data))
  }

  // -----------------------------------------------------------------------
  // from_bytes

  /** The `from_bytes` loop over `fields`, from container `cur` at bit `acc`
      and item `pos` of the unpacked values. */
  function DecodeFrom(fields: seq<FieldDecl>, vals: seq<Value>, pos: nat, acc: nat,
                      bf: Option<IntSize>, cur: nat, attrs: map<string, Value>): Decoded
    decreases |fields|
  {
    if |fields| == 0 then Decoded(attrs, Ok(()))
    else
      match fields[0]
      case BitField(name, size, bits) =>
        var run := RunSize(bf, size);
        if acc == 0 && pos >= |vals| then Decoded(attrs, Err(NoSuchItem))
        else if acc == 0 && vals[pos].BytesVal? then
          Decoded(attrs, Err(NotShiftable))
        else
          var cur' := if acc == 0 then vals[pos].n else cur;
          var pos' := if acc == 0 then pos + 1 else pos;
          var attrs' := attrs[name := IntVal(Field(cur', acc, bits))];
          if acc + bits == 8 * run then DecodeFrom(fields[1..], vals, pos', 0, None, cur', attrs')
          else if acc + bits > 8 * run then Decoded(attrs', Err(RunOverflow))
          else DecodeFrom(fields[1..], vals, pos', acc + bits, Some(run), cur', attrs')
      case Plain(name, _) =>
        if acc != 0 then Decoded(attrs, Err(PlainInRun))
        else if pos >= |vals| then Decoded(attrs, Err(NoSuchItem))
        else DecodeFrom(fields[1..], vals, pos + 1, acc, bf, cur, attrs[name := vals[pos]])
  }

  /** `from_bytes(data)` on a struct whose attributes are `attrs`. */
  function DecodeBytes(fields: seq<FieldDecl>, fmts: seq<Fmt>, data: seq<u8>,
                     attrs: map<string, Value>): Decoded
  {
    match UnpackFrom(fmts, data)
    case Err(e) => Decoded(attrs, Err(e))
    case Ok(vals) => DecodeFrom(fields, vals, 0, 0, None, 0, attrs)
  }

  // -----------------------------------------------------------------------
  // to_bytes

  /** The byte values of a bytes object, as `list.extend` adds them. */
  function ByteInts(b: seq<u8>): (r: seq<Value>)
    ensures |r| == |b|
  {
    if |b| == 0 then [] else [IntVal(b[0])] + ByteInts(b[1..])
  }

  /** What `to_bytes` adds to `packed_values` for a plain field.  The code
      treats every format `"<digits><c>"` as an array and extends by the
      value, which for `"<n>s"` adds the bytes one int at a time
      (`intended` appends the bytes object itself). */
  function PlainItems(fmt: Fmt, v: Value, intended: bool): Result<seq<Value>>
  {
    if fmt.BytesFmt? && !intended then
      if v.BytesVal? then Ok(ByteInts(v.bytes)) else Err(NotIterable)
    else Ok([v])
  }

  /** The `to_bytes` loop over `fields`: the items it appends to `packed_values`,
      given the partial container `bv` of `acc` bits. */
  function EncodeFrom(fields: seq<FieldDecl>, attrs: map<string, Value>, bv: nat, acc: nat,
                      bf: Option<IntSize>, intended: bool): Result<seq<Value>>
    decreases |fields|
  {
    if |fields| == 0 then Ok([])
    else
      match fields[0]
      case BitField(name, size, bits) =>
        if name !in attrs then Err(AttributeError(name))
        else if attrs[name].BytesVal? then Err(NotMaskable)
        else
          var bv' := Or(bv, Shl(And(attrs[name].n, LowMask(bits)), acc));
          var run := RunSize(bf, size);
          if acc + bits == 8 * run then
            Prepend([IntVal(bv')], EncodeFrom(fields[1..], attrs, 0, 0, None, intended))
          else if acc + bits > 8 * run then Err(RunOverflow)
          else EncodeFrom(fields[1..], attrs, bv', acc + bits, Some(run), intended)
      case Plain(name, fmt) =>
        if acc != 0 then Err(PlainInRun)
        else if name !in attrs then Err(AttributeError(name))
        else
          match PlainItems(fmt, attrs[name], intended)
          case Err(e) => Err(e)
          case Ok(items) => Prepend(items, EncodeFrom(fields[1..], attrs, bv, acc, bf, intended))
  }

  /** `to_bytes()` as written. */
  function EncodeBytes(fields: seq<FieldDecl>, fmts: seq<Fmt>, attrs: map<string, Value>): Result<seq<u8>>
  {
    var vals :- EncodeFrom(fields, attrs, 0, 0, None, false);
    Pack(fmts, vals)
  }

  /** `to_bytes()` with a `"<n>s"` field packed as one bytes item. */
  function EncodeBytesIntended(fields: seq<FieldDecl>, fmts: seq<Fmt>, attrs: map<string, Value>): Result<seq<u8>>
  {
    var vals :- EncodeFrom(fields, attrs, 0, 0, None, true);
    Pack(fmts, vals)
  }

  // -----------------------------------------------------------------------
  // Layouts, and the round trip from_bytes(to_bytes())

  /** No bitfield is zero bits wide (a zero-bit field would make `from_bytes`
      fetch a new container while the format string has not emitted one). */
  predicate NoEmptyBitfield(fields: seq<FieldDecl>)
  {
    forall k :: 0 <= k < |fields| ==> fields[k].BitField? ==> fields[k].bits > 0
  }

  /** A value `struct` packs for format `f` without raising, and reads back unchanged. */
  predicate FitsFmt(f: Fmt, v: Value)
  {
    match f
    case IntFmt(size) => v.IntVal? && v.n < Bound(size)
    case BytesFmt(count) => v.BytesVal? && |v.bytes| == count
  }

  predicate FitAll(fmts: seq<Fmt>, vals: seq<Value>)
  {
    |fmts| == |vals| && forall i :: 0 <= i < |fmts| ==> FitsFmt(fmts[i], vals[i])
  }

  /** `attrs` holds a value of the right kind for field `f`. */
  predicate FitsField(f: FieldDecl, attrs: map<string, Value>)
  {
    f.name in attrs &&
    match f
    case BitField(_, _, _) => attrs[f.name].IntVal?
    case Plain(_, fmt) => FitsFmt(fmt, attrs[f.name])
  }

  predicate Typed(fields: seq<FieldDecl>, attrs: map<string, Value>)
  {
    forall k :: 0 <= k < |fields| ==> FitsField(fields[k], attrs)
  }

  /** `setattr` of each field in turn, so a later field of the same name wins. */
  function Assign(fields: seq<FieldDecl>, vals: seq<Value>, m: map<string, Value>): map<string, Value>
    requires |vals| == |fields|
  {
    if |fields| == 0 then m else Assign(fields[1..], vals[1..], m[fields[0].name := vals[0]])
  }

  /** A bitfield keeps only its low `bits` bits; other values are kept whole. */
  function Masked(f: FieldDecl, v: Value): Value
  {
    if f.BitField? && v.IntVal? then IntVal(v.n % Pow2(f.bits)) else v
  }

  function MaskedAll(fields: seq<FieldDecl>, attrs: map<string, Value>): (r: seq<Value>)
    requires Typed(fields, attrs)
    ensures |r| == |fields|
  {
    if |fields| == 0 then []
    else
      assert FitsField(fields[0], attrs);
      [Masked(fields[0], attrs[fields[0].name])] + MaskedAll(fields[1..], attrs)
  }

  lemma TypedTail(fields: seq<FieldDecl>, attrs: map<string, Value>)
    requires |fields| > 0 && Typed(fields, attrs) && NoEmptyBitfield(fields)
    ensures Typed(fields[1..], attrs) && NoEmptyBitfield(fields[1..])
    ensures FitsField(fields[0], attrs)
    ensures fields[0].BitField? ==> fields[0].bits > 0
  {
    assert forall k :: 0 <= k < |fields| - 1 ==> fields[1..][k] == fields[k + 1];
  }

  /** `bv | (mv << acc)` keeps the low `acc` bits of `bv` and puts `mv` above them. */
  lemma OrShl(bv: nat, mv: nat, acc: nat, bits: nat)
    requires bv < Pow2(acc) && mv < Pow2(bits)
    ensures Or(bv, Shl(mv, acc)) < Pow2(acc + bits)
    ensures forall i: nat :: i < acc ==> Bit(Or(bv, Shl(mv, acc)), i) == Bit(bv, i)
    ensures Field(Or(bv, Shl(mv, acc)), acc, bits) == mv
  {
    var r := Or(bv, Shl(mv, acc));
    forall i: nat
      ensures Bit(r, i) == if i < acc then Bit(bv, i) else Bit(mv, i - acc)
    {
      BitOr(bv, Shl(mv, acc), i);
      BitShl(mv, acc, i);
      BitRange(bv, i);
      if i >= acc {
        BitAbove(bv, acc, i);
        BitRange(mv, i - acc);
      }
    }
    forall i: nat | acc + bits <= i
      ensures Bit(r, i) == 0
    {
      BitAbove(mv, bits, i - acc);
    }
    BelowPow2(r, acc + bits);
    forall i: nat
      ensures Bit(Field(r, acc, bits), i) == Bit(mv, i)
    {
      Bits.BitField(r, acc, bits, i);
      if i >= bits {
        BitAbove(mv, bits, i);
      }
    }
    BitsEqual(Field(r, acc, bits), mv);
  }

  /** A field depends only on the bits in its range. */
  lemma FieldFromBits(x: nat, y: nat, lo: nat, width: nat)
    requires forall i: nat :: i < lo + width ==> Bit(x, i) == Bit(y, i)
    ensures Field(x, lo, width) == Field(y, lo, width)
  {
    forall i: nat
      ensures Bit(Field(x, lo, width), i) == Bit(Field(y, lo, width), i)
    {
      Bits.BitField(x, lo, width, i);
      Bits.BitField(y, lo, width, i);
    }
    BitsEqual(Field(x, lo, width), Field(y, lo, width));
  }

  /** For a valid layout, `to_bytes`' loop produces one fitting item per
      format item, and the container it is filling starts with the bits
      already gathered in `bv`. */
  lemma {:induction false} EncodeShape(fields: seq<FieldDecl>, attrs: map<string, Value>, bv: nat,
                                       acc: nat, bf: Option<IntSize>, fmts: seq<Fmt>)
    requires FormatFrom(fields, acc, bf) == Ok(fmts)
    requires NoEmptyBitfield(fields) && Typed(fields, attrs)
    requires bv < Pow2(acc)
    ensures EncodeFrom(fields, attrs, bv, acc, bf, true).Ok?
    ensures FitAll(fmts, EncodeFrom(fields, attrs, bv, acc, bf, true).value)
    ensures acc > 0 || (|fields| > 0 && fields[0].BitField?) ==>
      var e := EncodeFrom(fields, attrs, bv, acc, bf, true).value;
      |e| > 0 && e[0].IntVal? && forall i: nat :: i < acc ==> Bit(e[0].n, i) == Bit(bv, i)
    decreases |fields|, 1
  {
    if |fields| > 0 {
      if fields[0].BitField? {
        EncodeShapeBitfield(fields, attrs, bv, acc, bf, fmts);
      } else {
        TypedTail(fields, attrs);
        var rest := fields[1..];
        var fmts' := FormatFrom(rest, acc, bf).value;
        EncodeShape(rest, attrs, bv, acc, bf, fmts');
        var e' := EncodeFrom(rest, attrs, bv, acc, bf, true).value;
        assert fmts == [fields[0].fmt] + fmts';
        assert EncodeFrom(fields, attrs, bv, acc, bf, true).value == [attrs[fields[0].name]] + e';
      }
    }
  }

  lemma {:induction false} EncodeShapeBitfield(fields: seq<FieldDecl>, attrs: map<string, Value>, bv: nat,
                                               acc: nat, bf: Option<IntSize>, fmts: seq<Fmt>)
    requires |fields| > 0 && fields[0].BitField?
    requires FormatFrom(fields, acc, bf) == Ok(fmts)
    requires NoEmptyBitfield(fields) && Typed(fields, attrs)
    requires bv < Pow2(acc)
    ensures EncodeFrom(fields, attrs, bv, acc, bf, true).Ok?
    ensures FitAll(fmts, EncodeFrom(fields, attrs, bv, acc, bf, true).value)
    ensures var e := EncodeFrom(fields, attrs, bv, acc, bf, true).value;
      |e| > 0 && e[0].IntVal? && forall i: nat :: i < acc ==> Bit(e[0].n, i) == Bit(bv, i)
    decreases |fields|, 0
  {
    TypedTail(fields, attrs);
    var rest := fields[1..];
    var BitField(name, size, bits) := fields[0];
    var run: nat := RunSize(bf, size);
    var mv := And(attrs[name].n, LowMask(bits));
    AndLowMask(attrs[name].n, bits);
    var bv' := Or(bv, Shl(mv, acc));
    OrShl(bv, mv, acc, bits);
    if acc + bits == 8 * run {
      var fmts' := FormatFrom(rest, 0, None).value;
      EncodeShape(rest, attrs, 0, 0, None, fmts');
      BoundIsPow2(run);
      var e' := EncodeFrom(rest, attrs, 0, 0, None, true).value;
      assert fmts == [IntFmt(run)] + fmts';
      assert EncodeFrom(fields, attrs, bv, acc, bf, true).value == [IntVal(bv')] + e';
    } else {
      EncodeShape(rest, attrs, bv', acc + bits, Some(run), fmts);
      assert EncodeFrom(fields, attrs, bv, acc, bf, true) == EncodeFrom(rest, attrs, bv', acc + bits, Some(run), true);
    }
  }

  /** `from_bytes`' loop, run over the items `to_bytes`' loop produced, sets
      every field to its value masked to its width. */
  lemma {:induction false} DecodeEncode(fields: seq<FieldDecl>, attrs: map<string, Value>, bv: nat,
                                        acc: nat, bf: Option<IntSize>, fmts: seq<Fmt>, e: seq<Value>,
                                        vals: seq<Value>, pos: nat, cur: nat, m: map<string, Value>)
    requires FormatFrom(fields, acc, bf) == Ok(fmts)
    requires NoEmptyBitfield(fields) && Typed(fields, attrs)
    requires bv < Pow2(acc)
    requires EncodeFrom(fields, attrs, bv, acc, bf, true) == Ok(e)
    requires pos <= |vals|
    requires acc == 0 ==> vals[pos..] == e
    requires acc > 0 ==> |e| > 0 && e[0] == IntVal(cur) && vals[pos..] == e[1..]
    ensures DecodeFrom(fields, vals, pos, acc, bf, cur, m) == Decoded(Assign(fields, MaskedAll(fields, attrs), m), Ok(()))
    decreases |fields|, 2
  {
    if |fields| > 0 {
      TypedTail(fields, attrs);
      if fields[0].BitField? {
        DecodeEncodeBitfield(fields, attrs, bv, acc, bf, fmts, e, vals, pos, cur, m);
      } else {
        DecodeEncodePlain(fields, attrs, bv, acc, bf, fmts, e, vals, pos, cur, m);
      }
    }
  }

  lemma {:induction false} DecodeEncodeBitfield(fields: seq<FieldDecl>, attrs: map<string, Value>, bv: nat,
                                                acc: nat, bf: Option<IntSize>, fmts: seq<Fmt>, e: seq<Value>,
                                                vals: seq<Value>, pos: nat, cur: nat, m: map<string, Value>)
    requires |fields| > 0 && fields[0].BitField?
    requires FormatFrom(fields, acc, bf) == Ok(fmts)
    requires NoEmptyBitfield(fields) && Typed(fields, attrs)
    requires bv < Pow2(acc)
    requires EncodeFrom(fields, attrs, bv, acc, bf, true) == Ok(e)
    requires pos <= |vals|
    requires acc == 0 ==> vals[pos..] == e
    requires acc > 0 ==> |e| > 0 && e[0] == IntVal(cur) && vals[pos..] == e[1..]
    ensures DecodeFrom(fields, vals, pos, acc, bf, cur, m) == Decoded(Assign(fields, MaskedAll(fields, attrs), m), Ok(()))
    decreases |fields|, 1
  {
    var run: nat := RunSize(bf, fields[0].container);
    if acc + fields[0].bits == 8 * run {
      DecodeEncodeClose(fields, attrs, bv, acc, bf, fmts, e, vals, pos, cur, m);
    } else {
      DecodeEncodeOpen(fields, attrs, bv, acc, bf, fmts, e, vals, pos, cur, m);
    }
  }

  /** ... when the bitfield closes its container, */
  lemma {:induction false} DecodeEncodeClose(fields: seq<FieldDecl>, attrs: map<string, Value>, bv: nat,
                                             acc: nat, bf: Option<IntSize>, fmts: seq<Fmt>, e: seq<Value>,
                                             vals: seq<Value>, pos: nat, cur: nat, m: map<string, Value>)
    requires |fields| > 0 && fields[0].BitField?
    requires acc + fields[0].bits == 8 * RunSize(bf, fields[0].container)
    requires FormatFrom(fields, acc, bf) == Ok(fmts)
    requires NoEmptyBitfield(fields) && Typed(fields, attrs)
    requires bv < Pow2(acc)
    requires EncodeFrom(fields, attrs, bv, acc, bf, true) == Ok(e)
    requires pos <= |vals|
    requires acc == 0 ==> vals[pos..] == e
    requires acc > 0 ==> |e| > 0 && e[0] == IntVal(cur) && vals[pos..] == e[1..]
    ensures DecodeFrom(fields, vals, pos, acc, bf, cur, m) == Decoded(Assign(fields, MaskedAll(fields, attrs), m), Ok(()))
    decreases |fields|, 0
  {
    EncodeShape(fields, attrs, bv, acc, bf, fmts);
    TypedTail(fields, attrs);
    var rest := fields[1..];
    var masked := MaskedAll(fields, attrs);
    assert masked[1..] == MaskedAll(rest, attrs);
    var BitField(name, size, bits) := fields[0];
    var run: nat := RunSize(bf, size);
    var mv := And(attrs[name].n, LowMask(bits));
    AndLowMask(attrs[name].n, bits);
    var bv' := Or(bv, Shl(mv, acc));
    OrShl(bv, mv, acc, bits);
    if acc == 0 {
      assert vals[pos] == vals[pos..][0] == e[0];
    }
    var cur' := if acc == 0 then vals[pos].n else cur;
    var pos' := if acc == 0 then pos + 1 else pos;
    assert e[0] == IntVal(cur');
    assert vals[pos'..] == e[1..] by {
      if acc == 0 {
        assert vals[pos + 1..] == vals[pos..][1..];
      }
    }
    var m' := m[name := masked[0]];
    DecodeBitStep(fields, vals, pos, acc, bf, cur, m);
    var fmts' := FormatFrom(rest, 0, None).value;
    var e' := EncodeFrom(rest, attrs, 0, 0, None, true).value;
    EncodeShape(rest, attrs, 0, 0, None, fmts');
    assert e == [IntVal(bv')] + e';
    assert Field(cur', acc, bits) == mv;
    DecodeEncode(rest, attrs, 0, 0, None, fmts', e', vals, pos', cur', m');
  }

  /** ... and when the run goes on after it. */
  lemma {:induction false} DecodeEncodeOpen(fields: seq<FieldDecl>, attrs: map<string, Value>, bv: nat,
                                            acc: nat, bf: Option<IntSize>, fmts: seq<Fmt>, e: seq<Value>,
                                            vals: seq<Value>, pos: nat, cur: nat, m: map<string, Value>)
    requires |fields| > 0 && fields[0].BitField?
    requires acc + fields[0].bits != 8 * RunSize(bf, fields[0].container)
    requires FormatFrom(fields, acc, bf) == Ok(fmts)
    requires NoEmptyBitfield(fields) && Typed(fields, attrs)
    requires bv < Pow2(acc)
    requires EncodeFrom(fields, attrs, bv, acc, bf, true) == Ok(e)
    requires pos <= |vals|
    requires acc == 0 ==> vals[pos..] == e
    requires acc > 0 ==> |e| > 0 && e[0] == IntVal(cur) && vals[pos..] == e[1..]
    ensures DecodeFrom(fields, vals, pos, acc, bf, cur, m) == Decoded(Assign(fields, MaskedAll(fields, attrs), m), Ok(()))
    decreases |fields|, 0
  {
    TypedTail(fields, attrs);
    var rest := fields[1..];
    var masked := MaskedAll(fields, attrs);
    assert masked[1..] == MaskedAll(rest, attrs);
    var BitField(name, size, bits) := fields[0];
    var run: nat := RunSize(bf, size);
    var bv' := EncodeOpenStep(fields, attrs, bv, acc, bf, fmts, e);
    if acc == 0 {
      assert vals[pos] == vals[pos..][0] == e[0];
    }
    var cur' := if acc == 0 then vals[pos].n else cur;
    var pos' := if acc == 0 then pos + 1 else pos;
    assert e[0] == IntVal(cur');
    assert vals[pos'..] == e[1..] by {
      if acc == 0 {
        assert vals[pos + 1..] == vals[pos..][1..];
      }
    }
    DecodeBitStep(fields, vals, pos, acc, bf, cur, m);
    DecodeEncode(rest, attrs, bv', acc + bits, Some(run), fmts, e, vals, pos', cur', m[name := masked[0]]);
  }

  /** `to_bytes` at a bitfield that leaves its container open: the container
      (the first item emitted) holds the bitfield's masked value at its offset. */
  lemma EncodeOpenStep(fields: seq<FieldDecl>, attrs: map<string, Value>, bv: nat, acc: nat,
                       bf: Option<IntSize>, fmts: seq<Fmt>, e: seq<Value>) returns (bv': nat)
    requires |fields| > 0 && fields[0].BitField?
    requires acc + fields[0].bits != 8 * RunSize(bf, fields[0].container)
    requires FormatFrom(fields, acc, bf) == Ok(fmts)
    requires NoEmptyBitfield(fields) && Typed(fields, attrs)
    requires bv < Pow2(acc)
    requires EncodeFrom(fields, attrs, bv, acc, bf, true) == Ok(e)
    ensures var run := RunSize(bf, fields[0].container);
      && bv' < Pow2(acc + fields[0].bits)
      && FormatFrom(fields[1..], acc + fields[0].bits, Some(run)) == Ok(fmts)
      && EncodeFrom(fields[1..], attrs, bv', acc + fields[0].bits, Some(run), true) == Ok(e)
    ensures |e| > 0 && e[0].IntVal?
    ensures IntVal(Field(e[0].n, acc, fields[0].bits)) == Masked(fields[0], attrs[fields[0].name])
  {
    TypedTail(fields, attrs);
    var BitField(name, size, bits) := fields[0];
    var run: nat := RunSize(bf, size);
    var mv := And(attrs[name].n, LowMask(bits));
    AndLowMask(attrs[name].n, bits);
    bv' := Or(bv, Shl(mv, acc));
    OrShl(bv, mv, acc, bits);
    OpenRunStep(fields, attrs, bv, acc, bf, fmts);
    assert EncodeFrom(fields[1..], attrs, bv', acc + bits, Some(run), true) == Ok(e);
    EncodeShape(fields[1..], attrs, bv', acc + bits, Some(run), fmts);
    assert forall i: nat :: i < acc + bits ==> Bit(e[0].n, i) == Bit(bv', i);
    FieldFromBits(e[0].n, bv', acc, bits);
  }

  /** A bitfield that does not fill its container leaves the run open. */
  lemma OpenRunStep(fields: seq<FieldDecl>, attrs: map<string, Value>, bv: nat, acc: nat,
                    bf: Option<IntSize>, fmts: seq<Fmt>)
    requires |fields| > 0 && fields[0].BitField? && fields[0].name in attrs && attrs[fields[0].name].IntVal?
    requires acc + fields[0].bits != 8 * RunSize(bf, fields[0].container)
    requires FormatFrom(fields, acc, bf) == Ok(fmts)
    ensures var run := RunSize(bf, fields[0].container);
      var acc' := acc + fields[0].bits;
      var bv' := Or(bv, Shl(And(attrs[fields[0].name].n, LowMask(fields[0].bits)), acc));
      && acc' < 8 * run
      && FormatFrom(fields[1..], acc', Some(run)) == Ok(fmts)
      && EncodeFrom(fields, attrs, bv, acc, bf, true) == EncodeFrom(fields[1..], attrs, bv', acc', Some(run), true)
  {
  }

  lemma {:induction false} DecodeEncodePlain(fields: seq<FieldDecl>, attrs: map<string, Value>, bv: nat,
                                             acc: nat, bf: Option<IntSize>, fmts: seq<Fmt>, e: seq<Value>,
                                             vals: seq<Value>, pos: nat, cur: nat, m: map<string, Value>)
    requires |fields| > 0 && fields[0].Plain?
    requires FormatFrom(fields, acc, bf) == Ok(fmts)
    requires NoEmptyBitfield(fields) && Typed(fields, attrs)
    requires bv < Pow2(acc)
    requires EncodeFrom(fields, attrs, bv, acc, bf, true) == Ok(e)
    requires pos <= |vals|
    requires acc == 0 ==> vals[pos..] == e
    requires acc > 0 ==> |e| > 0 && e[0] == IntVal(cur) && vals[pos..] == e[1..]
    ensures DecodeFrom(fields, vals, pos, acc, bf, cur, m) == Decoded(Assign(fields, MaskedAll(fields, attrs), m), Ok(()))
    decreases |fields|, 0
  {
    TypedTail(fields, attrs);
    var rest := fields[1..];
    var masked := MaskedAll(fields, attrs);
    assert masked[1..] == MaskedAll(rest, attrs);
    var Plain(name, fmt) := fields[0];
    assert acc == 0;
    var fmts' := FormatFrom(rest, acc, bf).value;
    var e' := EncodeFrom(rest, attrs, bv, acc, bf, true).value;
    EncodeShape(rest, attrs, bv, acc, bf, fmts');
    assert e == [attrs[name]] + e';
    assert vals[pos] == vals[pos..][0] == attrs[name];
    assert vals[pos + 1..] == vals[pos..][1..];
    DecodeEncode(rest, attrs, bv, acc, bf, fmts', e', vals, pos + 1, cur, m[name := masked[0]]);
  }

  /** `struct.unpack_from` reads back what `struct.pack` wrote. */
  lemma {:induction false} PackUnpack(fmts: seq<Fmt>, vals: seq<Value>)
    requires FitAll(fmts, vals)
    ensures Pack(fmts, vals).Ok? && |Pack(fmts, vals).value| == CalcSize(fmts)
    ensures UnpackFrom(fmts, Pack(fmts, vals).value) == Ok(vals)
  {
    if |fmts| > 0 {
      assert FitAll(fmts[1..], vals[1..]) by {
        assert forall i :: 0 <= i < |fmts| - 1 ==> fmts[1..][i] == fmts[i + 1] && vals[1..][i] == vals[i + 1];
      }
      PackUnpack(fmts[1..], vals[1..]);
      assert FitsFmt(fmts[0], vals[0]);
      var b := PackItem(fmts[0], vals[0]).value;
      var rest := PackAll(fmts[1..], vals[1..]).value;
      var d := Pack(fmts, vals).value;
      assert d == b + rest;
      var n := FmtSize(fmts[0]);
      assert |b| == n;
      assert d[..n] == b && d[n..] == rest;
      assert |d| == CalcSize(fmts);
      assert UnpackAll(fmts[1..], rest) == vals[1..];
      if fmts[0].IntFmt? {
        BoundIsPow2(fmts[0].size);
        LeRoundTrip(vals[0].n, fmts[0].size);
      } else {
        assert PadTo(vals[0].bytes, fmts[0].count) == vals[0].bytes;
      }
      assert UnpackAll(fmts, d) == [vals[0]] + vals[1..];
      assert vals == [vals[0]] + vals[1..];
    }
  }

  /** `from_bytes(to_bytes())` sets every field to its value, a bitfield
      truncated to its width (`to_bytes` masks, `from_bytes` shifts and masks),
      and the packed bytes are exactly `size` long. */
  lemma RoundTrip(fields: seq<FieldDecl>, fmts: seq<Fmt>, attrs: map<string, Value>, m: map<string, Value>)
    requires Format(fields) == Ok(fmts) && NoEmptyBitfield(fields) && Typed(fields, attrs)
    ensures EncodeBytesIntended(fields, fmts, attrs).Ok?
    ensures |EncodeBytesIntended(fields, fmts, attrs).value| == CalcSize(fmts)
    ensures DecodeBytes(fields, fmts, EncodeBytesIntended(fields, fmts, attrs).value, m)
      == Decoded(Assign(fields, MaskedAll(fields, attrs), m), Ok(()))
  {
    EncodeShape(fields, attrs, 0, 0, None, fmts);
    var e := EncodeFrom(fields, attrs, 0, 0, None, true).value;
    PackUnpack(fmts, e);
    DecodeEncode(fields, attrs, 0, 0, None, fmts, e, e, 0, 0, m);
  }

  // -----------------------------------------------------------------------
  // Field names, and the default-constructed struct

  predicate UniqueNames(fields: seq<FieldDecl>)
  {
    forall i, j :: 0 <= i < j < |fields| ==> fields[i].name != fields[j].name
  }

  /** After `Assign`, a field whose name no later field repeats holds its own value. */
  lemma {:induction false} AssignAt(fields: seq<FieldDecl>, vals: seq<Value>, m: map<string, Value>, k: nat)
    requires |vals| == |fields| && k < |fields|
    requires forall j :: k < j < |fields| ==> fields[j].name != fields[k].name
    ensures fields[k].name in Assign(fields, vals, m)
    ensures Assign(fields, vals, m)[fields[k].name] == vals[k]
  {
    var m' := m[fields[0].name := vals[0]];
    if k == 0 {
      AssignOther(fields[1..], vals[1..], m', fields[0].name);
    } else {
      AssignAt(fields[1..], vals[1..], m', k - 1);
    }
  }

  /** `Assign` leaves every other name as it was. */
  lemma {:induction false} AssignOther(fields: seq<FieldDecl>, vals: seq<Value>, m: map<string, Value>, name: string)
    requires |vals| == |fields|
    requires forall j :: 0 <= j < |fields| ==> fields[j].name != name
    ensures name in Assign(fields, vals, m) <==> name in m
    ensures name in m ==> Assign(fields, vals, m)[name] == m[name]
  {
    if |fields| > 0 {
      AssignOther(fields[1..], vals[1..], m[fields[0].name := vals[0]], name);
    }
  }

  /** The value a field takes when the struct is decoded from zero bytes. */
  function ZeroOf(f: FieldDecl): Value
  {
    if f.Plain? && f.fmt.BytesFmt? then BytesVal(Zeros(f.fmt.count)) else IntVal(0)
  }

  function ZeroAll(fields: seq<FieldDecl>): (r: seq<Value>)
    ensures |r| == |fields|
    ensures forall k :: 0 <= k < |fields| ==> r[k] == ZeroOf(fields[k])
  {
    if |fields| == 0 then [] else [ZeroOf(fields[0])] + ZeroAll(fields[1..])
  }

  /** The items `struct.unpack_from` returns for zero bytes. */
  function ZeroItems(fmts: seq<Fmt>): (r: seq<Value>)
    ensures |r| == |fmts|
  {
    if |fmts| == 0 then []
    else [if fmts[0].BytesFmt? then BytesVal(Zeros(fmts[0].count)) else IntVal(0)] + ZeroItems(fmts[1..])
  }

  lemma ZerosAppend(a: nat, b: nat)
    ensures Zeros(a) + Zeros(b) == Zeros(a + b)
  {
  }

  lemma {:induction false} LeBytesZero(n: nat)
    ensures LeBytes(0, n) == Zeros(n)
  {
    if n > 0 {
      LeBytesZero(n - 1);
    }
  }

  lemma {:induction false} EncodeZeros(fields: seq<FieldDecl>, z: map<string, Value>, acc: nat,
                                       bf: Option<IntSize>, fmts: seq<Fmt>)
    requires FormatFrom(fields, acc, bf) == Ok(fmts)
    requires forall k :: 0 <= k < |fields| ==> fields[k].name in z && z[fields[k].name] == ZeroOf(fields[k])
    ensures EncodeFrom(fields, z, 0, acc, bf, true) == Ok(ZeroItems(fmts))
    decreases |fields|
  {
    if |fields| > 0 {
      var rest := fields[1..];
      assert forall k :: 0 <= k < |rest| ==> rest[k] == fields[k + 1];
      assert fields[0].name in z && z[fields[0].name] == ZeroOf(fields[0]);
      match fields[0]
      case BitField(name, size, bits) =>
        assert And(0, LowMask(bits)) == 0;
        assert Shl(0, acc) == 0;
        assert Or(0, 0) == 0;
        var run: nat := RunSize(bf, size);
        if acc + bits == 8 * run {
          var fmts' := FormatFrom(rest, 0, None).value;
          EncodeZeros(rest, z, 0, None, fmts');
          assert fmts == [IntFmt(run)] + fmts';
          assert ZeroItems(fmts) == [IntVal(0)] + ZeroItems(fmts');
        } else {
          EncodeZeros(rest, z, acc + bits, Some(run), fmts);
        }
      case Plain(name, fmt) =>
        var fmts' := FormatFrom(rest, acc, bf).value;
        EncodeZeros(rest, z, acc, bf, fmts');
        assert fmts == [fmt] + fmts';
        assert ZeroItems(fmts) == [ZeroOf(fields[0])] + ZeroItems(fmts');
    }
  }

  lemma {:induction false} PackZeros(fmts: seq<Fmt>)
    ensures Pack(fmts, ZeroItems(fmts)) == Ok(Zeros(CalcSize(fmts)))
  {
    if |fmts| > 0 {
      PackZeros(fmts[1..]);
      var items := ZeroItems(fmts);
      assert items[1..] == ZeroItems(fmts[1..]);
      var n := FmtSize(fmts[0]);
      if fmts[0].IntFmt? {
        LeBytesZero(n);
        BoundIsPow2(fmts[0].size);
      } else {
        assert PadTo(Zeros(n), n) == Zeros(n);
      }
      assert PackItem(fmts[0], items[0]) == Ok(Zeros(n));
      ZerosAppend(n, CalcSize(fmts[1..]));
    }
  }

  /** `NiceStruct()` decodes `size` zero bytes: every integer field is 0 and
      every bytes field is all zero bytes. */
  lemma DefaultIsZero(fields: seq<FieldDecl>, fmts: seq<Fmt>, m: map<string, Value>)
    requires Format(fields) == Ok(fmts) && NoEmptyBitfield(fields) && UniqueNames(fields)
    ensures DecodeBytes(fields, fmts, Zeros(CalcSize(fmts)), m) == Decoded(Assign(fields, ZeroAll(fields), m), Ok(()))
  {
    var z := ZeroAttrs(fields);
    EncodeZeros(fields, z, 0, None, fmts);
    PackZeros(fmts);
    assert EncodeBytesIntended(fields, fmts, z) == Ok(Zeros(CalcSize(fmts)));
    RoundTrip(fields, fmts, z, m);
  }

  /** Attributes holding every field's zero value. */
  function ZeroAttrs(fields: seq<FieldDecl>): (z: map<string, Value>)
    requires UniqueNames(fields)
    ensures Typed(fields, z)
    ensures forall k :: 0 <= k < |fields| ==> fields[k].name in z && z[fields[k].name] == ZeroOf(fields[k])
    ensures MaskedAll(fields, z) == ZeroAll(fields)
  {
    var z := Assign(fields, ZeroAll(fields), map[]);
    ZeroAttrsFacts(fields, z);
    z
  }

  lemma ZeroAttrsFacts(fields: seq<FieldDecl>, z: map<string, Value>)
    requires UniqueNames(fields) && z == Assign(fields, ZeroAll(fields), map[])
    ensures Typed(fields, z)
    ensures forall k :: 0 <= k < |fields| ==> fields[k].name in z && z[fields[k].name] == ZeroOf(fields[k])
    ensures MaskedAll(fields, z) == ZeroAll(fields)
  {
    ZeroAssigned(fields, z);
    ZeroTyped(fields, z);
    ZeroMasked(fields, z);
  }

  lemma ZeroAssigned(fields: seq<FieldDecl>, z: map<string, Value>)
    requires UniqueNames(fields) && z == Assign(fields, ZeroAll(fields), map[])
    ensures forall k :: 0 <= k < |fields| ==> fields[k].name in z && z[fields[k].name] == ZeroOf(fields[k])
  {
    forall k | 0 <= k < |fields|
      ensures fields[k].name in z && z[fields[k].name] == ZeroOf(fields[k])
    {
      AssignAt(fields, ZeroAll(fields), map[], k);
    }
  }

  lemma ZeroMasked(fields: seq<FieldDecl>, z: map<string, Value>)
    requires forall k :: 0 <= k < |fields| ==> fields[k].name in z && z[fields[k].name] == ZeroOf(fields[k])
    requires Typed(fields, z)
    ensures MaskedAll(fields, z) == ZeroAll(fields)
  {
    var masked := MaskedAll(fields, z);
    forall k | 0 <= k < |fields|
      ensures masked[k] == ZeroAll(fields)[k]
    {
      MaskedAt(fields, z, k);
      if fields[k].BitField? {
        ZeroMod(Pow2(fields[k].bits));
      }
    }
  }

  lemma ZeroMod(p: nat)
    requires p > 0
    ensures 0 % p == 0
  {
  }

  lemma ZeroTyped(fields: seq<FieldDecl>, z: map<string, Value>)
    requires forall k :: 0 <= k < |fields| ==> fields[k].name in z && z[fields[k].name] == ZeroOf(fields[k])
    ensures Typed(fields, z)
  {
    forall k | 0 <= k < |fields|
      ensures FitsField(fields[k], z)
    {
      assert z[fields[k].name] == ZeroOf(fields[k]);
    }
  }

  lemma {:induction false} MaskedAt(fields: seq<FieldDecl>, attrs: map<string, Value>, k: nat)
    requires Typed(fields, attrs) && k < |fields|
    ensures MaskedAll(fields, attrs)[k] == Masked(fields[k], attrs[fields[k].name])
  {
    if k > 0 {
      assert Typed(fields[1..], attrs) by {
        assert forall j :: 0 <= j < |fields| - 1 ==> fields[1..][j] == fields[j + 1];
      }
      MaskedAt(fields[1..], attrs, k - 1);
    } else {
      assert FitsField(fields[0], attrs);
    }
  }

  /** The as-written `to_bytes` agrees with the intended one on every layout
      without a `"<n>s"` field. */
  lemma {:induction false} EncodeAsWritten(fields: seq<FieldDecl>, attrs: map<string, Value>, bv: nat,
                                           acc: nat, bf: Option<IntSize>)
    requires forall k :: 0 <= k < |fields| ==> !(fields[k].Plain? && fields[k].fmt.BytesFmt?)
    ensures EncodeFrom(fields, attrs, bv, acc, bf, false) == EncodeFrom(fields, attrs, bv, acc, bf, true)
    decreases |fields|
  {
    if |fields| > 0 {
      var rest := fields[1..];
      assert forall k :: 0 <= k < |rest| ==> rest[k] == fields[k + 1];
      match fields[0]
      case BitField(name, size, bits) =>
        if name in attrs && attrs[name].IntVal? {
          var bv' := Or(bv, Shl(And(attrs[name].n, LowMask(bits)), acc));
          EncodeAsWritten(rest, attrs, 0, 0, None);
          EncodeAsWritten(rest, attrs, bv', acc + bits, Some(RunSize(bf, size)));
        }
      case Plain(name, fmt) =>
        EncodeAsWritten(rest, attrs, bv, acc, bf);
    }
  }

  // -----------------------------------------------------------------------
  // The other direction: to_bytes(from_bytes(data)) == data[:size]

  /** A name the remaining fields do not use keeps its value through `from_bytes`. */
  lemma {:induction false} DecodeKeeps(fields: seq<FieldDecl>, vals: seq<Value>, pos: nat, acc: nat,
                                       bf: Option<IntSize>, cur: nat, m: map<string, Value>, name: string)
    requires forall j :: 0 <= j < |fields| ==> fields[j].name != name
    ensures name in DecodeFrom(fields, vals, pos, acc, bf, cur, m).attrs <==> name in m
    ensures name in m ==> DecodeFrom(fields, vals, pos, acc, bf, cur, m).attrs[name] == m[name]
    decreases |fields|
  {
    if |fields| > 0 {
      var rest := fields[1..];
      assert forall j :: 0 <= j < |rest| ==> rest[j] == fields[j + 1];
      match fields[0]
      case BitField(n0, size, bits) =>
        if !(acc == 0 && pos >= |vals|) && !(acc == 0 && vals[pos].BytesVal?) {
          var cur' := if acc == 0 then vals[pos].n else cur;
          var pos' := if acc == 0 then pos + 1 else pos;
          var m' := m[n0 := IntVal(Field(cur', acc, bits))];
          DecodeKeeps(rest, vals, pos', 0, None, cur', m', name);
          DecodeKeeps(rest, vals, pos', acc + bits, Some(RunSize(bf, size)), cur', m', name);
        }
      case Plain(n0, _) =>
        if acc == 0 && pos < |vals| {
          DecodeKeeps(rest, vals, pos + 1, acc, bf, cur, m[n0 := vals[pos]], name);
        }
    }
  }

  /** Inside a run, or at a bitfield, the next format item is the run's container. */
  lemma {:induction false} FormatRunHead(fields: seq<FieldDecl>, acc: nat, bf: Option<IntSize>, fmts: seq<Fmt>)
    requires FormatFrom(fields, acc, bf) == Ok(fmts) && NoEmptyBitfield(fields)
    requires acc > 0 || (|fields| > 0 && fields[0].BitField?)
    requires acc > 0 ==> bf.Some?
    ensures |fields| > 0 && fields[0].BitField? && |fmts| > 0
    ensures fmts[0] == IntFmt(RunSize(bf, fields[0].container))
    decreases |fields|
  {
    var BitField(_, size, bits) := fields[0];
    var run: nat := RunSize(bf, size);
    if acc + bits < 8 * run {
      var rest := fields[1..];
      assert NoEmptyBitfield(rest) by {
        assert forall j :: 0 <= j < |rest| ==> rest[j] == fields[j + 1];
      }
      FormatRunHead(rest, acc + bits, Some(RunSize(bf, size)), fmts);
    }
  }

  /** One bitfield step of `to_bytes` on the value `from_bytes` read: the
      accumulated word agrees with the container on every bit so far, and is
      the container itself once the run is complete. */
  lemma StepBits(bv: nat, cur: nat, acc: nat, bits: nat, run: nat)
    requires bv < Pow2(acc) && cur < Pow2(8 * run)
    requires forall i: nat :: i < acc ==> Bit(bv, i) == Bit(cur, i)
    ensures Or(bv, Shl(Field(cur, acc, bits), acc)) < Pow2(acc + bits)
    ensures forall i: nat :: i < acc + bits ==> Bit(Or(bv, Shl(Field(cur, acc, bits), acc)), i) == Bit(cur, i)
    ensures acc + bits == 8 * run ==> Or(bv, Shl(Field(cur, acc, bits), acc)) == cur
  {
    var v := Field(cur, acc, bits);
    var bv' := Or(bv, Shl(v, acc));
    FieldIsDivMod(cur, acc, bits);
    OrShl(bv, v, acc, bits);
    forall i: nat | i < acc + bits
      ensures Bit(bv', i) == Bit(cur, i)
    {
      if acc <= i {
        Bits.BitField(cur, acc, bits, i - acc);
        Bits.BitField(bv', acc, bits, i - acc);
      }
    }
    if acc + bits == 8 * run {
      forall i: nat
        ensures Bit(bv', i) == Bit(cur, i)
      {
        if i >= acc + bits {
          BitAbove(bv', acc + bits, i);
          BitAbove(cur, acc + bits, i);
        }
      }
      BitsEqual(bv', cur);
    }
  }

  lemma UniqueTail(fields: seq<FieldDecl>)
    requires |fields| > 0 && UniqueNames(fields) && NoEmptyBitfield(fields)
    ensures UniqueNames(fields[1..]) && NoEmptyBitfield(fields[1..])
    ensures forall j :: 0 <= j < |fields[1..]| ==> fields[1..][j].name != fields[0].name
  {
    assert forall j :: 0 <= j < |fields| - 1 ==> fields[1..][j] == fields[j + 1];
  }

  lemma FitTail(fmts: seq<Fmt>, vals: seq<Value>, pos: nat)
    requires pos <= |vals| && |fmts| > 0 && FitAll(fmts, vals[pos..])
    ensures pos < |vals| && FitsFmt(fmts[0], vals[pos]) && FitAll(fmts[1..], vals[pos + 1..])
  {
    assert vals[pos..][0] == vals[pos];
    assert forall i :: 0 <= i < |fmts| - 1 ==> fmts[1..][i] == fmts[i + 1] && vals[pos + 1..][i] == vals[pos..][i + 1];
  }

  /** The state `from_bytes`' loop is in, as `to_bytes`' loop sees it: inside a
      run, `bv` holds the low `acc` bits of the container `cur`. */
  predicate InRun(fmts: seq<Fmt>, vals: seq<Value>, pos: nat, acc: nat, bf: Option<IntSize>, cur: nat, bv: nat)
  {
    pos <= |vals| && bv < Pow2(acc) &&
    (acc == 0 ==> bf.None? && FitAll(fmts, vals[pos..])) &&
    (acc > 0 ==> bf.Some? && |fmts| > 0 && fmts[0] == IntFmt(bf.value) && cur < Bound(bf.value) &&
                 FitAll(fmts[1..], vals[pos..]) && forall i: nat :: i < acc ==> Bit(bv, i) == Bit(cur, i))
  }

  /** Running `to_bytes`' loop on the attributes `from_bytes`' loop produced gives
      back the items it decoded (and `from_bytes` does not raise). */
  lemma {:induction false} EncodeDecode(fields: seq<FieldDecl>, vals: seq<Value>, pos: nat, acc: nat,
                                        bf: Option<IntSize>, cur: nat, m: map<string, Value>, bv: nat,
                                        fmts: seq<Fmt>, a: map<string, Value>)
    requires FormatFrom(fields, acc, bf) == Ok(fmts)
    requires NoEmptyBitfield(fields) && UniqueNames(fields)
    requires InRun(fmts, vals, pos, acc, bf, cur, bv)
    requires DecodeFrom(fields, vals, pos, acc, bf, cur, m).attrs == a
    ensures DecodeFrom(fields, vals, pos, acc, bf, cur, m).status == Ok(())
    ensures EncodeFrom(fields, a, bv, acc, bf, true) == Ok(if acc == 0 then vals[pos..] else [IntVal(cur)] + vals[pos..])
    decreases |fields|, 2
  {
    if |fields| == 0 {
      assert acc == 0;
    } else if fields[0].BitField? {
      EncodeDecodeBitfield(fields, vals, pos, acc, bf, cur, m, bv, fmts, a);
    } else {
      UniqueTail(fields);
      var rest := fields[1..];
      var Plain(name, fmt) := fields[0];
      assert acc == 0;
      var fmts' := FormatFrom(rest, acc, bf).value;
      assert fmts == [fmt] + fmts';
      FitTail(fmts, vals, pos);
      var m' := m[name := vals[pos]];
      DecodeKeeps(rest, vals, pos + 1, acc, bf, cur, m', name);
      EncodeDecode(rest, vals, pos + 1, acc, bf, cur, m', bv, fmts', a);
      assert vals[pos..] == [vals[pos]] + vals[pos + 1..];
    }
  }

  lemma SmallMod(x: nat, d: nat)
    requires x < d
    ensures x % d == x
  {
  }

  /** The `to_bytes` loop at a bitfield whose attribute is an integer. */
  lemma EncodeBitStep(fields: seq<FieldDecl>, a: map<string, Value>, bv: nat, acc: nat,
                      bf: Option<IntSize>, intended: bool)
    requires |fields| > 0 && fields[0].BitField? && fields[0].name in a && a[fields[0].name].IntVal?
    ensures var run := RunSize(bf, fields[0].container);
            var acc' := acc + fields[0].bits;
            var bv' := Or(bv, Shl(And(a[fields[0].name].n, LowMask(fields[0].bits)), acc));
            EncodeFrom(fields, a, bv, acc, bf, intended) ==
              if acc' == 8 * run then Prepend([IntVal(bv')], EncodeFrom(fields[1..], a, 0, 0, None, intended))
              else if acc' > 8 * run then Err(RunOverflow)
              else EncodeFrom(fields[1..], a, bv', acc', Some(run), intended)
  {
  }

  /** The `from_bytes` loop at a bitfield whose container is at hand. */
  lemma DecodeBitStep(fields: seq<FieldDecl>, vals: seq<Value>, pos: nat, acc: nat,
                      bf: Option<IntSize>, cur: nat, attrs: map<string, Value>)
    requires |fields| > 0 && fields[0].BitField?
    requires acc == 0 ==> pos < |vals| && vals[pos].IntVal?
    ensures var run := RunSize(bf, fields[0].container);
            var acc' := acc + fields[0].bits;
            var cur' := if acc == 0 then vals[pos].n else cur;
            var pos' := if acc == 0 then pos + 1 else pos;
            var attrs' := attrs[fields[0].name := IntVal(Field(cur', acc, fields[0].bits))];
            DecodeFrom(fields, vals, pos, acc, bf, cur, attrs) ==
              if acc' == 8 * run then DecodeFrom(fields[1..], vals, pos', 0, None, cur', attrs')
              else if acc' > 8 * run then Decoded(attrs', Err(RunOverflow))
              else DecodeFrom(fields[1..], vals, pos', acc', Some(run), cur', attrs')
  {
  }

  lemma {:induction false} EncodeDecodeBitfield(fields: seq<FieldDecl>, vals: seq<Value>, pos: nat, acc: nat,
                                                bf: Option<IntSize>, cur: nat, m: map<string, Value>, bv: nat,
                                                fmts: seq<Fmt>, a: map<string, Value>)
    requires |fields| > 0 && fields[0].BitField?
    requires FormatFrom(fields, acc, bf) == Ok(fmts)
    requires NoEmptyBitfield(fields) && UniqueNames(fields)
    requires InRun(fmts, vals, pos, acc, bf, cur, bv)
    requires DecodeFrom(fields, vals, pos, acc, bf, cur, m).attrs == a
    ensures DecodeFrom(fields, vals, pos, acc, bf, cur, m).status == Ok(())
    ensures EncodeFrom(fields, a, bv, acc, bf, true) == Ok(if acc == 0 then vals[pos..] else [IntVal(cur)] + vals[pos..])
    decreases |fields|, 1
  {
    var run: nat := RunSize(bf, fields[0].container);
    if acc + fields[0].bits == 8 * run {
      EncodeDecodeRunEnd(fields, vals, pos, acc, bf, cur, m, bv, fmts, a);
    } else {
      EncodeDecodeInRun(fields, vals, pos, acc, bf, cur, m, bv, fmts, a);
    }
  }

  lemma {:induction false} EncodeDecodeRunEnd(fields: seq<FieldDecl>, vals: seq<Value>, pos: nat, acc: nat,
                                                bf: Option<IntSize>, cur: nat, m: map<string, Value>, bv: nat,
                                                fmts: seq<Fmt>, a: map<string, Value>)
    requires |fields| > 0 && fields[0].BitField?
    requires FormatFrom(fields, acc, bf) == Ok(fmts)
    requires NoEmptyBitfield(fields) && UniqueNames(fields)
    requires InRun(fmts, vals, pos, acc, bf, cur, bv)
    requires DecodeFrom(fields, vals, pos, acc, bf, cur, m).attrs == a
    requires acc + fields[0].bits == 8 * RunSize(bf, fields[0].container)
    ensures DecodeFrom(fields, vals, pos, acc, bf, cur, m).status == Ok(())
    ensures EncodeFrom(fields, a, bv, acc, bf, true) == Ok(if acc == 0 then vals[pos..] else [IntVal(cur)] + vals[pos..])
    decreases |fields|, 0
  {
    UniqueTail(fields);
    var rest := fields[1..];
    var BitField(name, size, bits) := fields[0];
    var run: IntSize := RunSize(bf, size);
    FormatRunHead(fields, acc, bf, fmts);
    if acc == 0 {
      FitTail(fmts, vals, pos);
      assert vals[pos..] == [vals[pos]] + vals[pos + 1..];
    }
    var cur' := if acc == 0 then vals[pos].n else cur;
    var pos' := if acc == 0 then pos + 1 else pos;
    var v := Field(cur', acc, bits);
    var m' := m[name := IntVal(v)];
    FieldIsDivMod(cur', acc, bits);
    assert And(v, LowMask(bits)) == v by {
      AndLowMask(v, bits);
      SmallMod(v, Pow2(bits));
    }
    BoundIsPow2(run);
    StepBits(bv, cur', acc, bits, run);
    var bv' := Or(bv, Shl(v, acc));
    assert DecodeFrom(fields, vals, pos, acc, bf, cur, m) == DecodeFrom(rest, vals, pos', 0, None, cur', m');
    DecodeKeeps(rest, vals, pos', 0, None, cur', m', name);
    assert a[name] == IntVal(v);
    EncodeBitStep(fields, a, bv, acc, bf, true);
    var fmts' := FormatFrom(rest, 0, None).value;
    assert fmts == [IntFmt(run)] + fmts';
    EncodeDecode(rest, vals, pos', 0, None, cur', m', 0, fmts', a);
  }

  lemma {:induction false} EncodeDecodeInRun(fields: seq<FieldDecl>, vals: seq<Value>, pos: nat, acc: nat,
                                                bf: Option<IntSize>, cur: nat, m: map<string, Value>, bv: nat,
                                                fmts: seq<Fmt>, a: map<string, Value>)
    requires |fields| > 0 && fields[0].BitField?
    requires FormatFrom(fields, acc, bf) == Ok(fmts)
    requires NoEmptyBitfield(fields) && UniqueNames(fields)
    requires InRun(fmts, vals, pos, acc, bf, cur, bv)
    requires DecodeFrom(fields, vals, pos, acc, bf, cur, m).attrs == a
    requires acc + fields[0].bits < 8 * RunSize(bf, fields[0].container)
    ensures DecodeFrom(fields, vals, pos, acc, bf, cur, m).status == Ok(())
    ensures EncodeFrom(fields, a, bv, acc, bf, true) == Ok(if acc == 0 then vals[pos..] else [IntVal(cur)] + vals[pos..])
    decreases |fields|, 0
  {
    UniqueTail(fields);
    var rest := fields[1..];
    var BitField(name, size, bits) := fields[0];
    var run: IntSize := RunSize(bf, size);
    FormatRunHead(fields, acc, bf, fmts);
    var cur', pos' := InRunOpen(fmts, vals, pos, acc, bf, cur, bv, bits, run);
    var v := Field(cur', acc, bits);
    var m' := m[name := IntVal(v)];
    assert And(v, LowMask(bits)) == v by {
      FieldIsDivMod(cur', acc, bits);
      AndLowMask(v, bits);
      SmallMod(v, Pow2(bits));
    }
    var bv' := Or(bv, Shl(v, acc));
    assert DecodeFrom(fields, vals, pos, acc, bf, cur, m) == DecodeFrom(rest, vals, pos', acc + bits, Some(run), cur', m');
    DecodeKeeps(rest, vals, pos', acc + bits, Some(run), cur', m', name);
    assert a[name] == IntVal(v);
    EncodeBitStep(fields, a, bv, acc, bf, true);
    assert EncodeFrom(fields, a, bv, acc, bf, true) == EncodeFrom(rest, a, bv', acc + bits, Some(run), true);
    EncodeDecode(rest, vals, pos', acc + bits, Some(run), cur', m', bv', fmts, a);
    assert [IntVal(cur')] + vals[pos'..] == if acc == 0 then vals[pos..] else [IntVal(cur)] + vals[pos..];
  }

  /** A bitfield that leaves its container open: the container is the next
      item when the run starts here, and the word built so far keeps
      agreeing with it. */
  lemma InRunOpen(fmts: seq<Fmt>, vals: seq<Value>, pos: nat, acc: nat, bf: Option<IntSize>, cur: nat, bv: nat,
                  bits: nat, run: IntSize) returns (cur': nat, pos': nat)
    requires InRun(fmts, vals, pos, acc, bf, cur, bv)
    requires |fmts| > 0 && fmts[0] == IntFmt(run) && (acc > 0 ==> bf == Some(run))
    requires 0 < bits && acc + bits < 8 * run
    ensures acc == 0 ==> pos < |vals| && vals[pos].IntVal? && cur' == vals[pos].n && pos' == pos + 1
                         && vals[pos..] == [vals[pos]] + vals[pos'..]
    ensures acc > 0 ==> cur' == cur && pos' == pos
    ensures InRun(fmts, vals, pos', acc + bits, Some(run), cur', Or(bv, Shl(Field(cur', acc, bits), acc)))
  {
    if acc == 0 {
      FitTail(fmts, vals, pos);
      assert vals[pos..] == [vals[pos]] + vals[pos + 1..];
      cur', pos' := vals[pos].n, pos + 1;
    } else {
      cur', pos' := cur, pos;
    }
    BoundIsPow2(run);
    StepBits(bv, cur', acc, bits, run);
  }

  lemma {:induction false} UnpackFits(fmts: seq<Fmt>, data: seq<u8>)
    requires |data| >= CalcSize(fmts)
    ensures FitAll(fmts, UnpackAll(fmts, data))
    ensures Pack(fmts, UnpackAll(fmts, data)) == Ok(data[..CalcSize(fmts)])
  {
    if |fmts| > 0 {
      var n := FmtSize(fmts[0]);
      UnpackFits(fmts[1..], data[n..]);
      var vals := UnpackAll(fmts, data);
      assert vals[1..] == UnpackAll(fmts[1..], data[n..]);
      if fmts[0].IntFmt? {
        LeValueBound(data[..n]);
        BoundIsPow2(fmts[0].size);
        LeBytesOfValue(data[..n]);
      } else {
        assert PadTo(data[..n], n) == data[..n];
      }
      assert PackItem(fmts[0], vals[0]) == Ok(data[..n]);
      assert data[..CalcSize(fmts)] == data[..n] + data[n..][..CalcSize(fmts[1..])];
    }
  }

  /** `to_bytes()` after `from_bytes(data)` gives back the first `size` bytes of
      `data`, for a layout with distinct field names. */
  lemma DecodeThenEncode(fields: seq<FieldDecl>, fmts: seq<Fmt>, data: seq<u8>, m: map<string, Value>)
    requires Format(fields) == Ok(fmts) && NoEmptyBitfield(fields) && UniqueNames(fields)
    requires |data| >= CalcSize(fmts)
    ensures DecodeBytes(fields, fmts, data, m).status == Ok(())
    ensures EncodeBytesIntended(fields, fmts, DecodeBytes(fields, fmts, data, m).attrs) == Ok(data[..CalcSize(fmts)])
  {
    var vals := UnpackAll(fmts, data);
    UnpackFits(fmts, data);
    var a := DecodeFrom(fields, vals, 0, 0, None, 0, m).attrs;
    assert vals[0..] == vals;
    EncodeDecode(fields, vals, 0, 0, None, 0, m, 0, fmts, a);
  }

  /** `from_ints(ints)` then `to_int_list()` gives back `ints` when the layout
      is exactly `len(ints)` 32-bit words and has no `"<n>s"` field. */
  lemma IntsRoundTrip(fields: seq<FieldDecl>, fmts: seq<Fmt>, ints: seq<nat>, m: map<string, Value>)
    requires Format(fields) == Ok(fmts) && NoEmptyBitfield(fields) && UniqueNames(fields)
    requires forall k :: 0 <= k < |fields| ==> !(fields[k].Plain? && fields[k].fmt.BytesFmt?)
    requires CalcSize(fmts) == 4 * |ints|
    requires forall k :: 0 <= k < |ints| ==> ints[k] < 0x1_0000_0000
    ensures BytearrayViewFromInts(ints).Ok?
    ensures DecodeBytes(fields, fmts, BytearrayViewFromInts(ints).value, m).status == Ok(())
    ensures var a := DecodeBytes(fields, fmts, BytearrayViewFromInts(ints).value, m).attrs;
            EncodeBytes(fields, fmts, a).Ok? && IntsFromData(EncodeBytes(fields, fmts, a).value, 4) == Ok(ints)
  {
    ViewIsEncode(ints);
    var data := EncodeAll(ints, 4);
    DecodeThenEncode(fields, fmts, data, m);
    var a := DecodeBytes(fields, fmts, data, m).attrs;
    EncodeAsWritten(fields, a, 0, 0, None);
    assert data[..CalcSize(fmts)] == data;
    Pow2Of32();
    BoundIsPow2(4);
    IntsFromDataRoundTrip(ints, 4);
  }

  // -----------------------------------------------------------------------
  // to_int_list / to_int

  /** `to_int_list(int_size)` on a struct whose attributes are `attrs`. */
  function IntList(fields: seq<FieldDecl>, fmts: seq<Fmt>, attrs: map<string, Value>, intSize: int): Result<seq<nat>>
  {
    var data :- EncodeBytes(fields, fmts, attrs);
    IntsFromData(data, intSize)
  }

  /** `to_int(int_size)`: the struct must pack to exactly one int.  Otherwise
      the error message reads `self.name`, which raises AttributeError on a
      class without a `name` attribute. */
  function SingleInt(fields: seq<FieldDecl>, fmts: seq<Fmt>, attrs: map<string, Value>, hasName: bool,
                     intSize: int): (r: Result<nat>)
    ensures r.Ok? <==> IntList(fields, fmts, attrs, intSize).Ok? && |IntList(fields, fmts, attrs, intSize).value| == 1
    ensures r.Ok? ==> IntList(fields, fmts, attrs, intSize) == Ok([r.value])
    ensures IntList(fields, fmts, attrs, intSize).Ok? && |IntList(fields, fmts, attrs, intSize).value| != 1 ==>
      r == if hasName then Err(ValueError("doesn't fit in a single int")) else Err(AttributeError("name"))
  {
    match IntList(fields, fmts, attrs, intSize)
    case Err(e) => Err(e)
    case Ok(ints) =>
      if |ints| != 1 then
        if hasName then Err(ValueError("doesn't fit in a single int")) else Err(AttributeError("name"))
      else
        assert ints == [ints[0]];
        Ok(ints[0])
  }

  // -----------------------------------------------------------------------
  // Layouts that are one run of bitfields filling one container

  /** Every field is a non-empty bitfield declared on container `size`. */
  predicate WordRun(fields: seq<FieldDecl>, size: IntSize)
  {
    forall k :: 0 <= k < |fields| ==> fields[k].BitField? && fields[k].container == size && fields[k].bits > 0
  }

  function BitsSum(fields: seq<FieldDecl>): nat
  {
    if |fields| == 0 then 0 else (if fields[0].BitField? then fields[0].bits else 0) + BitsSum(fields[1..])
  }

  /** Every field has an integer attribute. */
  predicate IntAttrs(fields: seq<FieldDecl>, attrs: map<string, Value>)
  {
    forall k :: 0 <= k < |fields| ==> fields[k].name in attrs && attrs[fields[k].name].IntVal?
  }

  /** The word a run of bitfields stands for: each value cut to its width and
      placed at its offset, offsets counted from bit `off` upwards. */
  function RunValue(fields: seq<FieldDecl>, attrs: map<string, Value>, off: nat): nat
    requires IntAttrs(fields, attrs)
  {
    if |fields| == 0 then 0
    else
      assert fields[0].name in attrs;
      var b := if fields[0].BitField? then fields[0].bits else 0;
      (attrs[fields[0].name].n % Pow2(b)) * Pow2(off) + RunValue(fields[1..], attrs, off + b)
  }

  lemma WordRunTail(fields: seq<FieldDecl>, size: IntSize, attrs: map<string, Value>)
    requires |fields| > 0 && WordRun(fields, size)
    ensures WordRun(fields[1..], size)
    ensures IntAttrs(fields, attrs) ==> IntAttrs(fields[1..], attrs)
  {
    assert forall k :: 0 <= k < |fields| - 1 ==> fields[1..][k] == fields[k + 1];
  }

  /** A run that fills its container exactly formats as that one container. */
  lemma {:induction false} RunFormat(fields: seq<FieldDecl>, size: IntSize, acc: nat, bf: Option<IntSize>)
    requires |fields| > 0 && WordRun(fields, size) && acc + BitsSum(fields) == 8 * size
    requires acc == 0 ==> bf.None?
    requires acc > 0 ==> bf == Some(size)
    ensures FormatFrom(fields, acc, bf) == Ok([IntFmt(size)])
    decreases |fields|
  {
    WordRunTail(fields, size, map[]);
    if |fields| > 1 {
      assert fields[1].bits > 0;
      assert BitsSum(fields[1..]) >= fields[1].bits;
      RunFormat(fields[1..], size, acc + fields[0].bits, Some(size));
    } else {
      assert BitsSum(fields[1..]) == 0;
      assert fields[1..] == [];
      assert [IntFmt(size)] + [] == [IntFmt(size)];
    }
  }

  /** ... and `to_bytes`' loop packs it into the single word `RunValue`. */
  lemma RunEncode(fields: seq<FieldDecl>, size: IntSize, attrs: map<string, Value>, bv: nat,
                   acc: nat, bf: Option<IntSize>, intended: bool)
    requires |fields| > 0 && WordRun(fields, size) && IntAttrs(fields, attrs)
    requires acc + BitsSum(fields) == 8 * size && bv < Pow2(acc)
    requires acc == 0 ==> bf.None?
    requires acc > 0 ==> bf == Some(size)
    ensures bv + RunValue(fields, attrs, acc) < Pow2(8 * size)
    ensures EncodeFrom(fields, attrs, bv, acc, bf, intended) == Ok([IntVal(bv + RunValue(fields, attrs, acc))])
  {
    RunValueBound(fields, size, attrs, bv, acc);
    RunEncodeItems(fields, size, attrs, bv, acc, bf, intended);
  }

  /** The word a run stands for fits in the bits the run covers. */
  lemma {:induction false} RunValueBound(fields: seq<FieldDecl>, size: IntSize, attrs: map<string, Value>, bv: nat, acc: nat)
    requires WordRun(fields, size) && IntAttrs(fields, attrs) && bv < Pow2(acc)
    ensures bv + RunValue(fields, attrs, acc) < Pow2(acc + BitsSum(fields))
    decreases |fields|
  {
    if |fields| > 0 {
      WordRunTail(fields, size, attrs);
      var bits := fields[0].bits;
      var n := attrs[fields[0].name].n;
      var bv' := RunStep(bv, n, acc, bits);
      RunValueBound(fields[1..], size, attrs, bv', acc + bits);
    }
  }

  lemma {:induction false} RunEncodeItems(fields: seq<FieldDecl>, size: IntSize, attrs: map<string, Value>, bv: nat,
                                          acc: nat, bf: Option<IntSize>, intended: bool)
    requires |fields| > 0 && WordRun(fields, size) && IntAttrs(fields, attrs)
    requires acc + BitsSum(fields) == 8 * size && bv < Pow2(acc)
    requires acc == 0 ==> bf.None?
    requires acc > 0 ==> bf == Some(size)
    ensures EncodeFrom(fields, attrs, bv, acc, bf, intended) == Ok([IntVal(bv + RunValue(fields, attrs, acc))])
    decreases |fields|
  {
    var bv' := RunEncodeStep(fields, size, attrs, bv, acc, bf, intended);
    if |fields| > 1 {
      RunEncodeItems(fields[1..], size, attrs, bv', acc + fields[0].bits, Some(size), intended);
    }
  }

  /** One bitfield of a run that fills its container: either the run goes on
      with the rest, or this was its last bitfield and the word is complete. */
  lemma RunEncodeStep(fields: seq<FieldDecl>, size: IntSize, attrs: map<string, Value>, bv: nat,
                      acc: nat, bf: Option<IntSize>, intended: bool) returns (bv': nat)
    requires |fields| > 0 && WordRun(fields, size) && IntAttrs(fields, attrs)
    requires acc + BitsSum(fields) == 8 * size && bv < Pow2(acc)
    requires acc == 0 ==> bf.None?
    requires acc > 0 ==> bf == Some(size)
    ensures WordRun(fields[1..], size) && IntAttrs(fields[1..], attrs)
    ensures bv' < Pow2(acc + fields[0].bits)
    ensures acc + fields[0].bits + BitsSum(fields[1..]) == 8 * size
    ensures bv + RunValue(fields, attrs, acc) == bv' + RunValue(fields[1..], attrs, acc + fields[0].bits)
    ensures |fields| > 1 ==> EncodeFrom(fields, attrs, bv, acc, bf, intended)
                             == EncodeFrom(fields[1..], attrs, bv', acc + fields[0].bits, Some(size), intended)
    ensures |fields| == 1 ==> EncodeFrom(fields, attrs, bv, acc, bf, intended) == Ok([IntVal(bv + RunValue(fields, attrs, acc))])
  {
    WordRunTail(fields, size, attrs);
    var rest := fields[1..];
    bv' := RunEncodeOne(fields, size, attrs, bv, acc, bf, intended);
    RunValueHead(fields, attrs, acc);
    if |fields| > 1 {
      assert rest[0].bits > 0;
      assert BitsSum(rest) >= rest[0].bits;
    } else {
      assert BitsSum(rest) == 0 && rest == [];
      assert RunValue(rest, attrs, acc + fields[0].bits) == 0;
      assert [IntVal(bv')] + [] == [IntVal(bv')];
    }
  }

  /** The word of a run is its first bitfield's part plus the rest's. */
  lemma RunValueHead(fields: seq<FieldDecl>, attrs: map<string, Value>, off: nat)
    requires |fields| > 0 && fields[0].BitField? && IntAttrs(fields, attrs) && IntAttrs(fields[1..], attrs)
    ensures RunValue(fields, attrs, off)
            == (attrs[fields[0].name].n % Pow2(fields[0].bits)) * Pow2(off) + RunValue(fields[1..], attrs, off + fields[0].bits)
  {
  }

  /** One bitfield of a run in `to_bytes`' loop. */
  lemma RunEncodeOne(fields: seq<FieldDecl>, size: IntSize, attrs: map<string, Value>, bv: nat, acc: nat,
                     bf: Option<IntSize>, intended: bool) returns (bv': nat)
    requires |fields| > 0 && WordRun(fields, size) && IntAttrs(fields, attrs) && bv < Pow2(acc)
    requires acc == 0 ==> bf.None?
    requires acc > 0 ==> bf == Some(size)
    ensures bv' == bv + (attrs[fields[0].name].n % Pow2(fields[0].bits)) * Pow2(acc)
    ensures bv' < Pow2(acc + fields[0].bits)
    ensures var acc' := acc + fields[0].bits;
      EncodeFrom(fields, attrs, bv, acc, bf, intended)
      == if acc' == 8 * size then Prepend([IntVal(bv')], EncodeFrom(fields[1..], attrs, 0, 0, None, intended))
         else if acc' > 8 * size then Err(RunOverflow)
         else EncodeFrom(fields[1..], attrs, bv', acc', Some(size), intended)
  {
    assert fields[0].name in attrs && fields[0].BitField?;
    bv' := RunStep(bv, attrs[fields[0].name].n, acc, fields[0].bits);
    EncodeBitStep(fields, attrs, bv, acc, bf, intended);
  }

  /** One bitfield of a run: OR-ing the masked value in at `acc` adds it. */
  lemma RunStep(bv: nat, n: nat, acc: nat, bits: nat) returns (bv': nat)
    requires bv < Pow2(acc)
    ensures bv' == bv + (n % Pow2(bits)) * Pow2(acc)
    ensures bv' == Or(bv, Shl(And(n, LowMask(bits)), acc))
    ensures bv' < Pow2(acc + bits)
  {
    AndLowMask(n, bits);
    AndShlDisjoint(bv, n % Pow2(bits), acc);
    bv' := bv + (n % Pow2(bits)) * Pow2(acc);
    Pow2Add(acc, bits);
    DigitBelow(bv, n % Pow2(bits), Pow2(acc), Pow2(bits));
  }

  /** A digit `r < q` at place `p`, over a lower part below `p`, stays below `q * p`. */
  lemma DigitBelow(low: nat, r: nat, p: nat, q: nat)
    requires low < p && r < q
    ensures low + r * p < p * q
  {
    MulLe(r, q - 1, p);
    assert (q - 1) * p == q * p - p;
  }

  lemma MulLe(a: nat, b: nat, c: nat)
    requires a <= b
    ensures a * c <= b * c
  {
  }

  /** A one-word layout packs, as written or as intended, to the four
      little-endian bytes of `RunValue`. */
  lemma WordEncodes(fields: seq<FieldDecl>, attrs: map<string, Value>)
    requires |fields| > 0 && WordRun(fields, 4) && BitsSum(fields) == 32 && IntAttrs(fields, attrs)
    ensures Format(fields) == Ok([IntFmt(4)])
    ensures RunValue(fields, attrs, 0) < 0x1_0000_0000
    ensures EncodeBytes(fields, [IntFmt(4)], attrs) == Ok(LeBytes(RunValue(fields, attrs, 0), 4))
    ensures EncodeBytesIntended(fields, [IntFmt(4)], attrs) == Ok(LeBytes(RunValue(fields, attrs, 0), 4))
  {
    var w := RunValue(fields, attrs, 0);
    RunFormat(fields, 4, 0, None);
    RunEncode(fields, 4, attrs, 0, 0, None, false);
    RunEncode(fields, 4, attrs, 0, 0, None, true);
    Pow2Of32();
    BoundIsPow2(4);
    assert PackItem(IntFmt(4), IntVal(w)) == Ok(LeBytes(w, 4));
    assert [IntFmt(4)][1..] == [] && [IntVal(w)][1..] == [];
    assert PackAll([IntFmt(4)], [IntVal(w)]) == Prepend(LeBytes(w, 4), Ok([]));
    assert LeBytes(w, 4) + [] == LeBytes(w, 4);
  }

  /** A one-word layout: `to_int(4)` is `RunValue`, which is below 2**32. */
  lemma WordToInt(fields: seq<FieldDecl>, attrs: map<string, Value>, hasName: bool)
    requires |fields| > 0 && WordRun(fields, 4) && BitsSum(fields) == 32 && IntAttrs(fields, attrs)
    ensures Format(fields) == Ok([IntFmt(4)])
    ensures RunValue(fields, attrs, 0) < 0x1_0000_0000
    ensures SingleInt(fields, [IntFmt(4)], attrs, hasName, 4) == Ok(RunValue(fields, attrs, 0))
  {
    var w := RunValue(fields, attrs, 0);
    WordEncodes(fields, attrs);
    assert EncodeAll([w], 4) == LeBytes(w, 4) by {
      assert [w][1..] == [];
    }
    BoundIsPow2(4);
    Pow2Of32();
    IntsFromDataRoundTrip([w], 4);
  }

  /** ... and `from_int` of that word sets every field to its value cut to its width. */
  lemma WordFromInt(fields: seq<FieldDecl>, attrs: map<string, Value>, m: map<string, Value>)
    requires |fields| > 0 && WordRun(fields, 4) && BitsSum(fields) == 32 && IntAttrs(fields, attrs)
    ensures Typed(fields, attrs)
    ensures DecodeBytes(fields, [IntFmt(4)], LeBytes(RunValue(fields, attrs, 0), 4), m)
        == Decoded(Assign(fields, MaskedAll(fields, attrs), m), Ok(()))
  {
    WordEncodes(fields, attrs);
    assert NoEmptyBitfield(fields);
    assert Typed(fields, attrs) by {
      forall k | 0 <= k < |fields|
        ensures FitsField(fields[k], attrs)
      {
      }
    }
    RoundTrip(fields, [IntFmt(4)], attrs, m);
  }

  /** `from_int(to_int())` on a one-word layout with distinct names sets every
      field to its old value cut to its width. */
  lemma WordFieldsRestored(fields: seq<FieldDecl>, attrs: map<string, Value>, m: map<string, Value>, k: nat)
    requires |fields| > 0 && WordRun(fields, 4) && BitsSum(fields) == 32 && IntAttrs(fields, attrs)
    requires UniqueNames(fields) && k < |fields|
    ensures var d := DecodeBytes(fields, [IntFmt(4)], LeBytes(RunValue(fields, attrs, 0), 4), m);
            d.status == Ok(()) && fields[k].name in d.attrs &&
            d.attrs[fields[k].name] == IntVal(attrs[fields[k].name].n % Pow2(fields[k].bits))
  {
    WordFromInt(fields, attrs, m);
    MaskedAt(fields, attrs, k);
    AssignAt(fields, MaskedAll(fields, attrs), m, k);
  }

  // -----------------------------------------------------------------------
  // One step of each loop, on a suffix of a layout

  lemma FormatStep(fields: seq<FieldDecl>, k: nat, acc: nat, bf: Option<IntSize>)
    requires k < |fields|
    ensures FormatFrom(fields[k..], acc, bf) ==
      match fields[k]
      case BitField(_, size, bits) =>
        var run := RunSize(bf, size);
        if acc + bits == 8 * run then Prepend([IntFmt(run)], FormatFrom(fields[k + 1..], 0, None))
        else if acc + bits > 8 * run then Err(TooManyBits)
        else FormatFrom(fields[k + 1..], acc + bits, Some(run))
      case Plain(_, fmt) =>
        if acc > 0 then Err(PlainAfterBits)
        else Prepend([fmt], FormatFrom(fields[k + 1..], acc, bf))
  {
    assert fields[k..][0] == fields[k] && fields[k..][1..] == fields[k + 1..];
  }

  lemma DecodeStep(fields: seq<FieldDecl>, k: nat, vals: seq<Value>, pos: nat, acc: nat,
                   bf: Option<IntSize>, cur: nat, attrs: map<string, Value>)
    requires k < |fields|
    ensures var f := fields[k];
      DecodeFrom(fields[k..], vals, pos, acc, bf, cur, attrs) ==
      if f.BitField? then
        var run := RunSize(bf, f.container);
        if acc == 0 && pos >= |vals| then Decoded(attrs, Err(NoSuchItem))
        else if acc == 0 && vals[pos].BytesVal? then
          Decoded(attrs, Err(NotShiftable))
        else
          var cur' := if acc == 0 then vals[pos].n else cur;
          var pos' := if acc == 0 then pos + 1 else pos;
          var attrs' := attrs[f.name := IntVal(Field(cur', acc, f.bits))];
          if acc + f.bits == 8 * run then DecodeFrom(fields[k + 1..], vals, pos', 0, None, cur', attrs')
          else if acc + f.bits > 8 * run then Decoded(attrs', Err(RunOverflow))
          else DecodeFrom(fields[k + 1..], vals, pos', acc + f.bits, Some(run), cur', attrs')
      else
        if acc != 0 then Decoded(attrs, Err(PlainInRun))
        else if pos >= |vals| then Decoded(attrs, Err(NoSuchItem))
        else DecodeFrom(fields[k + 1..], vals, pos + 1, acc, bf, cur, attrs[f.name := vals[pos]])
  {
    assert fields[k..][0] == fields[k] && fields[k..][1..] == fields[k + 1..];
  }

  lemma EncodeStep(fields: seq<FieldDecl>, k: nat, attrs: map<string, Value>, bv: nat, acc: nat,
                   bf: Option<IntSize>, intended: bool)
    requires k < |fields|
    ensures var f := fields[k];
      EncodeFrom(fields[k..], attrs, bv, acc, bf, intended) ==
      if f.BitField? then
        if f.name !in attrs then Err(AttributeError(f.name))
        else if attrs[f.name].BytesVal? then Err(NotMaskable)
        else
          var bv' := Or(bv, Shl(And(attrs[f.name].n, LowMask(f.bits)), acc));
          var run := RunSize(bf, f.container);
          if acc + f.bits == 8 * run then
            Prepend([IntVal(bv')], EncodeFrom(fields[k + 1..], attrs, 0, 0, None, intended))
          else if acc + f.bits > 8 * run then Err(RunOverflow)
          else EncodeFrom(fields[k + 1..], attrs, bv', acc + f.bits, Some(run), intended)
      else
        if acc != 0 then Err(PlainInRun)
        else if f.name !in attrs then Err(AttributeError(f.name))
        else
          var items := PlainItems(f.fmt, attrs[f.name], intended);
          if items.Err? then Err(items.error)
          else Prepend(items.value, EncodeFrom(fields[k + 1..], attrs, bv, acc, bf, intended))
  {
    assert fields[k..][0] == fields[k] && fields[k..][1..] == fields[k + 1..];
  }

  // -----------------------------------------------------------------------
  // The class

  lemma PrependNil<T>(r: Result<seq<T>>)
    ensures Prepend([], r) == r
  {
    if r.Ok? {
      assert [] + r.value == r.value;
    }
  }

  lemma PrependTwice<T>(a: seq<T>, b: seq<T>, r: Result<seq<T>>)
    ensures Prepend(a, Prepend(b, r)) == Prepend(a + b, r)
  {
    if r.Ok? {
      assert a + (b + r.value) == (a + b) + r.value;
    }
  }

  /** `_construct_format_string()`, run once per struct class by `NiceStructMeta`. */
  method ConstructFormatString(fields: seq<FieldDecl>) returns (r: Result<seq<Fmt>>)
    ensures r == Format(fields)
  {
    var fmt: seq<Fmt> := [];
    var acc: nat := 0;
    var bitfieldFormat: Option<IntSize> := None;
    var k := 0;
    assert fields[0..] == fields;
    PrependNil(Format(fields));
    while k < |fields|
      invariant 0 <= k <= |fields|
      invariant Prepend(fmt, FormatFrom(fields[k..], acc, bitfieldFormat)) == Format(fields)
    {
      assert fields[k..][1..] == fields[k + 1..];
      match fields[k] {
        case BitField(name, size, bits) =>
          acc := acc + bits;
          if bitfieldFormat.None? {
            bitfieldFormat := Some(size);
          }
          var boundary := 8 * bitfieldFormat.value;
          if acc == boundary {
            PrependTwice(fmt, [IntFmt(bitfieldFormat.value)], FormatFrom(fields[k + 1..], 0, None));
            fmt := fmt + [IntFmt(bitfieldFormat.value)];
            acc := 0;
            bitfieldFormat := None;
          } else if acc > boundary {
            return Err(TooManyBits);
          }
        case Plain(name, f) =>
          if acc > 0 {
            return Err(PlainAfterBits);
          }
          PrependTwice(fmt, [f], FormatFrom(fields[k + 1..], acc, bitfieldFormat));
          fmt := fmt + [f];
      }
      k := k + 1;
    }
    if acc > 0 {
      return Err(BitfieldUnfinished);
    }
    assert fmt + [] == fmt;
    return Ok(fmt);
  }

  /** An instance of a `NiceStruct` subclass: the class's `_fields_`, its
      format string and `size`, and the instance's field attributes. */
  class NiceStruct {
    const fields: seq<FieldDecl>
    const fmts: seq<Fmt>
    const size: nat
    /** Whether the class defines a `name` attribute, which `to_int`'s error message reads. */
    const hasName: bool
    var attrs: map<string, Value>

    predicate Valid()
    {
      Format(fields) == Ok(fmts) && size == CalcSize(fmts)
    }

    /** `Cls()`: the class's layout must be valid (otherwise the class
        statement itself raises), and the new instance decodes `size` zero
        bytes. */
    constructor (fields: seq<FieldDecl>, hasName: bool)
      requires Format(fields).Ok? && NoEmptyBitfield(fields) && UniqueNames(fields)
      ensures Valid() && this.fields == fields && this.hasName == hasName
      ensures attrs == Assign(fields, ZeroAll(fields), map[])
      ensures forall k :: 0 <= k < |fields| ==> fields[k].name in attrs && attrs[fields[k].name] == ZeroOf(fields[k])
    {
      var f := ConstructFormatString(fields);
      this.fields := fields;
      this.fmts := f.value;
      this.size := CalcSize(f.value);
      this.hasName := hasName;
      this.attrs := map[];
      new;
      DefaultIsZero(fields, fmts, map[]);
      var r := FromBytes(Zeros(size));
      ZeroAssigned(fields, attrs);
    }

    /** `from_bytes(bytedata)`; on an exception the attributes already set stay set. */
    method FromBytes(data: seq<u8>) returns (r: Result<()>)
      requires Valid()
      modifies this
      ensures Valid()
      ensures Decoded(attrs, r) == DecodeBytes(fields, fmts, data, old(attrs))
    {
      var unpacked := UnpackFrom(fmts, data);
      if unpacked.Err? {
        return Err(unpacked.error);
      }
      var vals := unpacked.value;
      var pos: nat := 0;
      var counter: nat := 0;
      var acc: nat := 0;
      var bitfieldFormat: Option<IntSize> := None;
      var current: nat := 0;
      var k := 0;
      assert fields[0..] == fields;
      while k < |fields|
        invariant 0 <= k <= |fields| && pos <= |vals|
        invariant counter == acc
        invariant DecodeFrom(fields[k..], vals, pos, acc, bitfieldFormat, current, attrs)
          == DecodeBytes(fields, fmts, data, old(attrs))
      {
        DecodeStep(fields, k, vals, pos, acc, bitfieldFormat, current, attrs);
        match fields[k] {
          case BitField(name, size, bits) =>
            acc := acc + bits;
            if bitfieldFormat.None? {
              bitfieldFormat := Some(size);
            }
            var boundary := 8 * bitfieldFormat.value;
            if counter == 0 {
              if pos >= |vals| {
                return Err(NoSuchItem);
              }
              if vals[pos].BytesVal? {
                return Err(NotShiftable);
              }
              current := vals[pos].n;
              pos := pos + 1;
            }
            var mask := LowMask(bits);
            attrs := attrs[name := IntVal(And(Shr(current, counter), mask))];
            counter := counter + bits;
            if acc == boundary {
              acc := 0;
              counter := 0;
              bitfieldFormat := None;
            } else if acc > boundary {
              return Err(RunOverflow);
            }
          case Plain(name, _) =>
            if counter != 0 {
              return Err(PlainInRun);
            }
            if pos >= |vals| {
              return Err(NoSuchItem);
            }
            attrs := attrs[name := vals[pos]];
            pos := pos + 1;
        }
        k := k + 1;
      }
      return Ok(());
    }

    /** `to_bytes()`. */
    method ToBytes() returns (r: Result<seq<u8>>)
      requires Valid()
      ensures r == EncodeBytes(fields, fmts, attrs)
    {
      var packed: seq<Value> := [];
      var bitfieldValue: nat := 0;
      var counter: nat := 0;
      var acc: nat := 0;
      var bitfieldFormat: Option<IntSize> := None;
      var k := 0;
      assert fields[0..] == fields;
      PrependNil(EncodeFrom(fields, attrs, 0, 0, None, false));
      while k < |fields|
        invariant 0 <= k <= |fields|
        invariant counter == acc
        invariant Prepend(packed, EncodeFrom(fields[k..], attrs, bitfieldValue, acc, bitfieldFormat, false))
          == EncodeFrom(fields, attrs, 0, 0, None, false)
      {
        EncodeStep(fields, k, attrs, bitfieldValue, acc, bitfieldFormat, false);
        ghost var rest := EncodeFrom(fields[k..], attrs, bitfieldValue, acc, bitfieldFormat, false);
        match fields[k] {
          case BitField(name, size, bits) =>
            if name !in attrs {
              return Err(AttributeError(name));
            }
            var value := attrs[name];
            if value.BytesVal? {
              return Err(NotMaskable);
            }
            bitfieldValue := Or(bitfieldValue, Shl(And(value.n, LowMask(bits)), counter));
            counter := counter + bits;
            if bitfieldFormat.None? {
              bitfieldFormat := Some(size);
            }
            acc := acc + bits;
            var boundary := 8 * bitfieldFormat.value;
            if acc == boundary {
              assert rest == Prepend([IntVal(bitfieldValue)], EncodeFrom(fields[k + 1..], attrs, 0, 0, None, false));
              PrependTwice(packed, [IntVal(bitfieldValue)], EncodeFrom(fields[k + 1..], attrs, 0, 0, None, false));
              packed := packed + [IntVal(bitfieldValue)];
              bitfieldValue := 0;
              counter := 0;
              acc := 0;
              bitfieldFormat := None;
            } else if acc > boundary {
              return Err(RunOverflow);
            } else {
              assert rest == EncodeFrom(fields[k + 1..], attrs, bitfieldValue, acc, bitfieldFormat, false);
            }
          case Plain(name, fmt) =>
            if counter != 0 {
              return Err(PlainInRun);
            }
            if name !in attrs {
              return Err(AttributeError(name));
            }
            var items := PlainItems(fmt, attrs[name], false);
            if items.Err? {
              return Err(items.error);
            }
            assert rest == Prepend(items.value, EncodeFrom(fields[k + 1..], attrs, bitfieldValue, acc, bitfieldFormat, false));
            PrependTwice(packed, items.value, EncodeFrom(fields[k + 1..], attrs, bitfieldValue, acc, bitfieldFormat, false));
            packed := packed + items.value;
        }
        k := k + 1;
      }
      assert packed + [] == packed;
      return Pack(fmts, packed);
    }

    /** `setattr(self, name, value)`, as the subclasses' `__init__` and setters do. */
    method SetAttr(name: string, v: Value)
      modifies this
      ensures attrs == old(attrs)[name := v]
    {
      attrs := attrs[name := v];
    }

    /** `from_ints(ints)`: the ints laid out as native 32-bit words, then decoded. */
    method FromInts(ints: seq<nat>) returns (r: Result<()>)
      requires Valid()
      modifies this
      ensures Valid()
      ensures BytearrayViewFromInts(ints).Err? ==> r == Err(BytearrayViewFromInts(ints).error) && attrs == old(attrs)
      ensures BytearrayViewFromInts(ints).Ok? ==>
        Decoded(attrs, r) == DecodeBytes(fields, fmts, BytearrayViewFromInts(ints).value, old(attrs))
    {
      var view := BytearrayViewFromInts(ints);
      if view.Err? {
        return Err(view.error);
      }
      r := FromBytes(view.value);
    }

    /** `from_int(integer)` */
    method FromInt(x: nat) returns (r: Result<()>)
      requires Valid()
      modifies this
      ensures Valid()
      ensures x >= 0x1_0000_0000 ==> r.Err? && attrs == old(attrs)
      ensures x < 0x1_0000_0000 ==>
        Decoded(attrs, r) == DecodeBytes(fields, fmts, LeBytes(x, 4), old(attrs))
    {
      assert [x][1..] == [];
      assert BytearrayViewFromInts([x][1..]) == Ok([]);
      assert LeBytes(x, 4) + [] == LeBytes(x, 4);
      r := FromInts([x]);
    }

    /** `to_int_list(int_size)`: the struct's current fields through
        `IntList`, whose properties are proved as `IntsRoundTrip` here,
        `WordRuns.WordRunsIntList` and `Mse.CmdHeaderIntList`. */
    function ToIntList(intSize: int): (r: Result<seq<nat>>)
      reads this
      ensures r == IntList(fields, fmts, attrs, intSize)
    {
      IntList(fields, fmts, attrs, intSize)
    }

    /** `to_int(int_size)`: the struct's current fields through
        `SingleInt`, which is `IntList` when that yields exactly one int
        (see the lemmas about `IntList` named at `ToIntList`). */
    function ToInt(intSize: int): (r: Result<nat>)
      reads this
      ensures r == SingleInt(fields, fmts, attrs, hasName, intSize)
    {
      SingleInt(fields, fmts, attrs, hasName, intSize)
    }
  }
}
