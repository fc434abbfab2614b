/**
 * `NiceStructArray` (utils/nice_struct.py): `count` instances of one
 * `NiceStruct` class, kept in a Python list.  Items are read and replaced
 * with Python's list indexing, `to_bytes` joins the items' own `to_bytes`,
 * and `from_bytes` checks the total size and decodes each item from its
 * `size`-byte slice.
 *
 * The struct class is its layout (`fields` and the format items `fmts` it
 * builds) and an item is the attribute map of one instance, as in
 * `NiceStructs`.  `from_bytes` is declared without `self`, so a call on an
 * array binds the array to `bytedata` and the data to nothing:
 * `FromBytesAsWritten` is that call, and `FromBytes` the method its body
 * describes.
 */
module NiceStructArrays {
  import opened Bits
  import opened Text
  import opened GpuErrors
  import opened NiceStructs

  datatype StructArray = StructArray(fields: seq<FieldDecl>, fmts: seq<Fmt>, items: seq<map<string, Value>>)

  const WrongSize: Error := ValueError("Byte data does not match expected size")
  const NotAnInstance: Error := ValueError("Value must be an instance of the struct class")
  const ExtraArgument: Error := TypeError("from_bytes() takes 1 positional argument but 2 were given")

  /** A valid struct class: its layout builds, has no zero-bit field and no
      repeated name. */
  predicate ValidLayout(fields: seq<FieldDecl>, fmts: seq<Fmt>)
  {
    Format(fields) == Ok(fmts) && NoEmptyBitfield(fields) && UniqueNames(fields)
  }

  /** `NiceStructArray(struct_class, count)`: `count` default-constructed
      instances. */
  function NewArray(fields: seq<FieldDecl>, fmts: seq<Fmt>, count: nat): (a: StructArray)
    requires UniqueNames(fields)
  {
    StructArray(fields, fmts, seq(count, _ => ZeroAttrs(fields)))
  }

  /** `self.size`: the class's size times the count. */
  function ArraySize(a: StructArray): nat
  {
    CalcSize(a.fmts) * |a.items|
  }

  /** Python's index into a list of n items: negative indices count from the
      end, and anything else outside the list is None. */
  function ListIndex(index: int, n: nat): (r: Option<nat>)
    ensures r.Some? <==> -(n as int) <= index < n
    ensures r.Some? ==> r.value < n && (r.value == index || r.value == n + index)
  {
    if 0 <= index < n then Some(index)
    else if -(n as int) <= index < 0 then Some(n + index)
    else None
  }

  /** `array[index]` */
  function GetItem(a: StructArray, index: int): Result<map<string, Value>>
  {
    match ListIndex(index, |a.items|)
    case None => Err(IndexError("list index out of range"))
    case Some(i) => Ok(a.items[i])
  }

  /** `array[index] = value`, where `isInstance` says whether `value` is an
      instance of the struct class; that is checked first. */
  function SetItem(a: StructArray, index: int, isInstance: bool, v: map<string, Value>): Result<StructArray>
  {
    if !isInstance then Err(NotAnInstance)
    else
      match ListIndex(index, |a.items|)
      case None => Err(IndexError("list assignment index out of range"))
      case Some(i) => Ok(a.(items := a.items[i := v]))
  }

  /** The joined `to_bytes()` of `items`, the first failure raised. */
  function PackItems(fields: seq<FieldDecl>, fmts: seq<Fmt>, items: seq<map<string, Value>>): Result<seq<u8>>
  {
    if |items| == 0 then Ok([])
    else
      match EncodeBytes(fields, fmts, items[0])
      case Err(e) => Err(e)
      case Ok(b) => Prepend(b, PackItems(fields, fmts, items[1..]))
  }

  /** `to_bytes()` */
  function ToBytes(a: StructArray): Result<seq<u8>>
  {
    PackItems(a.fields, a.fmts, a.items)
  }

  /** The `from_bytes` loop: each item decodes its slice of `size` bytes (a
      Python slice, so a short one where the data runs out). */
  function UnpackItems(fields: seq<FieldDecl>, fmts: seq<Fmt>, data: seq<u8>, items: seq<map<string, Value>>)
    : Result<seq<map<string, Value>>>
  {
    if |items| == 0 then Ok([])
    else
      var n := if CalcSize(fmts) <= |data| then CalcSize(fmts) else |data|;
      var d := DecodeBytes(fields, fmts, data[..n], items[0]);
      if d.status.Err? then Err(d.status.error)
      else Prepend([d.attrs], UnpackItems(fields, fmts, data[n..], items[1..]))
  }

  /** `from_bytes` as its body describes it: the size check, then the items
      decoded in place. */
  function FromBytes(a: StructArray, data: seq<u8>): Result<StructArray>
  {
    if |data| != ArraySize(a) then Err(WrongSize)
    else
      match UnpackItems(a.fields, a.fmts, data, a.items)
      case Err(e) => Err(e)
      case Ok(items) => Ok(a.(items := items))
  }

  /** `array.from_bytes(data)` as declared: the method has no `self`, so the
      call passes one argument too many. */
  function FromBytesAsWritten(a: StructArray, data: seq<u8>): Result<StructArray>
  {
    Err(ExtraArgument)
  }

  // -----------------------------------------------------------------------
  // Items

  /** Reading an index gives what was stored there, and exactly the indices
      Python accepts can be read. */
  lemma GetItemMeans(a: StructArray, index: int)
    ensures GetItem(a, index).Ok? <==> -(|a.items| as int) <= index < |a.items|
    ensures 0 <= index < |a.items| ==> GetItem(a, index) == Ok(a.items[index])
    ensures -(|a.items| as int) <= index < 0 ==> GetItem(a, index) == Ok(a.items[|a.items| + index])
  {
  }

  /** Storing an instance at a valid index replaces that item only: reading
      it back gives the value, every other item is unchanged, and the length
      stays; a non-instance is refused whatever the index. */
  lemma SetThenGet(a: StructArray, index: int, isInstance: bool, v: map<string, Value>, other: int)
    ensures !isInstance ==> SetItem(a, index, isInstance, v) == Err(NotAnInstance)
    ensures isInstance ==> (SetItem(a, index, isInstance, v).Ok? <==> -(|a.items| as int) <= index < |a.items|)
    ensures SetItem(a, index, isInstance, v).Ok? ==>
      var b := SetItem(a, index, isInstance, v).value;
      |b.items| == |a.items| && ArraySize(b) == ArraySize(a) && GetItem(b, index) == Ok(v)
      && (ListIndex(other, |a.items|).Some? && ListIndex(other, |a.items|) != ListIndex(index, |a.items|) ==>
            GetItem(b, other) == GetItem(a, other))
  {
  }

  // -----------------------------------------------------------------------
  // to_bytes and from_bytes

  /** Items holding values of the right kind for every field. */
  predicate AllTyped(fields: seq<FieldDecl>, items: seq<map<string, Value>>)
  {
    forall i :: 0 <= i < |items| ==> Typed(fields, items[i])
  }

  /** A layout without a `"<n>s"` field, on which `to_bytes` packs as intended. */
  predicate NoBytesField(fields: seq<FieldDecl>)
  {
    forall k :: 0 <= k < |fields| ==> !(fields[k].Plain? && fields[k].fmt.BytesFmt?)
  }

  /** What an item holds after its own round trip: each field's value, a
      bitfield truncated to its width. */
  function Restored(fields: seq<FieldDecl>, item: map<string, Value>): map<string, Value>
    requires Typed(fields, item)
  {
    Assign(fields, MaskedAll(fields, item), item)
  }

  /** Every item restored. */
  function RestoredAll(fields: seq<FieldDecl>, items: seq<map<string, Value>>): (r: seq<map<string, Value>>)
    requires AllTyped(fields, items)
    ensures |r| == |items| && forall i :: 0 <= i < |items| ==> r[i] == Restored(fields, items[i])
  {
    if |items| == 0 then [] else [Restored(fields, items[0])] + RestoredAll(fields, items[1..])
  }

  /** One item packs to `size` bytes that decode back into it. */
  lemma ItemRoundTrip(fields: seq<FieldDecl>, fmts: seq<Fmt>, item: map<string, Value>)
    requires ValidLayout(fields, fmts) && NoBytesField(fields) && Typed(fields, item)
    ensures EncodeBytes(fields, fmts, item).Ok?
    ensures |EncodeBytes(fields, fmts, item).value| == CalcSize(fmts)
    ensures DecodeBytes(fields, fmts, EncodeBytes(fields, fmts, item).value, item) == Decoded(Restored(fields, item), Ok(()))
  {
    RoundTrip(fields, fmts, item, item);
    EncodeAsWritten(fields, item, 0, 0, None);
  }

  /** The packed items decode back, item by item, and take `size` bytes each. */
  lemma {:induction false} PackUnpackItems(fields: seq<FieldDecl>, fmts: seq<Fmt>, items: seq<map<string, Value>>)
    requires ValidLayout(fields, fmts) && NoBytesField(fields) && AllTyped(fields, items)
    ensures PackItems(fields, fmts, items).Ok?
    ensures |PackItems(fields, fmts, items).value| == CalcSize(fmts) * |items|
    ensures UnpackItems(fields, fmts, PackItems(fields, fmts, items).value, items) == Ok(RestoredAll(fields, items))
  {
    if |items| > 0 {
      ItemRoundTrip(fields, fmts, items[0]);
      assert AllTyped(fields, items[1..]) by {
        forall i | 0 <= i < |items| - 1 ensures Typed(fields, items[1..][i]) {
          assert items[1..][i] == items[i + 1];
        }
      }
      PackUnpackItems(fields, fmts, items[1..]);
      var b := EncodeBytes(fields, fmts, items[0]).value;
      var rest := PackItems(fields, fmts, items[1..]).value;
      var data := b + rest;
      assert PackItems(fields, fmts, items) == Ok(data);
      assert data[..CalcSize(fmts)] == b && data[CalcSize(fmts)..] == rest;
      SizeStep(CalcSize(fmts), |items|);
    }
  }

  lemma SizeStep(s: nat, n: nat)
    requires n > 0
    ensures s * n == s + s * (n - 1)
  {
  }

  /** `from_bytes(to_bytes())`, with the method given its `self`, restores
      every item, a bitfield truncated to its width. */
  lemma ArrayRoundTrip(a: StructArray)
    requires ValidLayout(a.fields, a.fmts) && NoBytesField(a.fields) && AllTyped(a.fields, a.items)
    ensures ToBytes(a).Ok? && |ToBytes(a).value| == ArraySize(a)
    ensures FromBytes(a, ToBytes(a).value) == Ok(a.(items := RestoredAll(a.fields, a.items)))
  {
    PackUnpackItems(a.fields, a.fmts, a.items);
  }

  /** Data of the wrong size is refused before any item changes, and data of
      the right size always decodes. */
  lemma {:induction false} FromBytesSize(a: StructArray, data: seq<u8>)
    requires ValidLayout(a.fields, a.fmts)
    ensures FromBytes(a, data).Ok? <==> |data| == ArraySize(a)
    ensures |data| != ArraySize(a) ==> FromBytes(a, data) == Err(WrongSize)
    ensures FromBytes(a, data).Ok? ==> |FromBytes(a, data).value.items| == |a.items|
  {
    if |data| == ArraySize(a) {
      UnpackSized(a.fields, a.fmts, data, a.items);
    }
  }

  lemma {:induction false} UnpackSized(fields: seq<FieldDecl>, fmts: seq<Fmt>, data: seq<u8>, items: seq<map<string, Value>>)
    requires ValidLayout(fields, fmts) && |data| == CalcSize(fmts) * |items|
    ensures UnpackItems(fields, fmts, data, items).Ok?
    ensures |UnpackItems(fields, fmts, data, items).value| == |items|
  {
    if |items| > 0 {
      var s := CalcSize(fmts);
      SizeStep(s, |items|);
      DecodeThenEncode(fields, fmts, data[..s], items[0]);
      UnpackSized(fields, fmts, data[s..], items[1..]);
    }
  }

  /** A fresh array packs to `size` zero bytes. */
  lemma {:induction false} NewArrayIsZero(fields: seq<FieldDecl>, fmts: seq<Fmt>, count: nat)
    requires ValidLayout(fields, fmts) && NoBytesField(fields)
    ensures ToBytes(NewArray(fields, fmts, count)) == Ok(Zeros(ArraySize(NewArray(fields, fmts, count))))
  {
    var z := ZeroAttrs(fields);
    ZeroBytes(fields, fmts);
    ZeroItems(fields, fmts, z, count);
    assert NewArray(fields, fmts, count).items == seq(count, _ => z);
  }

  /** A default instance packs to `size` zero bytes. */
  lemma ZeroBytes(fields: seq<FieldDecl>, fmts: seq<Fmt>)
    requires ValidLayout(fields, fmts) && NoBytesField(fields)
    ensures EncodeBytes(fields, fmts, ZeroAttrs(fields)) == Ok(Zeros(CalcSize(fmts)))
  {
    var z := ZeroAttrs(fields);
    EncodeZeros(fields, z, 0, None, fmts);
    PackZeros(fmts);
    EncodeAsWritten(fields, z, 0, 0, None);
  }

  lemma {:induction false} ZeroItems(fields: seq<FieldDecl>, fmts: seq<Fmt>, z: map<string, Value>, count: nat)
    requires EncodeBytes(fields, fmts, z) == Ok(Zeros(CalcSize(fmts)))
    ensures PackItems(fields, fmts, seq(count, _ => z)) == Ok(Zeros(CalcSize(fmts) * count))
  {
    if count > 0 {
      ZeroItems(fields, fmts, z, count - 1);
      assert seq(count, _ => z)[1..] == seq(count - 1, _ => z);
      ZerosAppend(CalcSize(fmts), CalcSize(fmts) * (count - 1));
      assert CalcSize(fmts) * count == CalcSize(fmts) + CalcSize(fmts) * (count - 1);
    }
  }

  /** The defect: as declared, `from_bytes` refuses every call on an array,
      even with the bytes its own `to_bytes` produced, which the method's
      body would decode. */
  lemma FromBytesAsWrittenRefuses(a: StructArray, data: seq<u8>)
    requires ValidLayout(a.fields, a.fmts) && NoBytesField(a.fields) && AllTyped(a.fields, a.items)
    ensures FromBytesAsWritten(a, data) == Err(ExtraArgument)
    ensures ToBytes(a).Ok?
    ensures FromBytesAsWritten(a, ToBytes(a).value).Err? && FromBytes(a, ToBytes(a).value).Ok?
  {
    ArrayRoundTrip(a);
  }
}
