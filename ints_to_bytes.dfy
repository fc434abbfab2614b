/**
 * utils/ints_to_bytes.py: conversions between byte strings and lists of
 * unsigned integers of 1, 2, 4 or 8 bytes.  The host byte order
 * (`sys.byteorder` and the native `array`/`memoryview` formats) is
 * little-endian here, as on the x86-64 and arm64 hosts the tools run on.
 */
module IntsToBytes {
  import opened Bits
  import opened GpuErrors

  /** `_require_int_size`: the sizes of the formats B, H, I and Q. */
  predicate IsIntSize(size: int)
  {
    size == 1 || size == 2 || size == 4 || size == 8
  }

  /** `2**(8 size)`: one more than the largest value of the format. */
  function Bound(size: int): nat
  {
    if size == 1 then 0x100
    else if size == 2 then 0x1_0000
    else if size == 4 then 0x1_0000_0000
    else 0x1_0000_0000_0000_0000
  }

  lemma BoundIsPow2(size: int)
    requires IsIntSize(size)
    ensures Bound(size) == Pow2(8 * size)
  {
    if size == 2 {
      Pow2Of16();
    } else if size == 4 {
      Pow2Of32();
    } else if size == 8 {
      Pow2Of64();
    }
  }

  function RequireIntSize(size: int): Result<()>
  {
    if IsIntSize(size) then Ok(()) else Err(AssertionError("Unhandled size"))
  }

  /** `int.from_bytes(bs, "little")` */
  function LeValue(bs: seq<u8>): nat
  {
    if |bs| == 0 then 0 else bs[0] + 0x100 * LeValue(bs[1..])
  }

  /** `x.to_bytes(n, "little")` for `x < 2**(8n)` */
  function LeBytes(x: nat, n: nat): (r: seq<u8>)
    ensures |r| == n
  {
    if n == 0 then [] else [x % 0x100] + LeBytes(x / 0x100, n - 1)
  }

  lemma {:induction false} LeValueBound(bs: seq<u8>)
    ensures LeValue(bs) < Pow2(8 * |bs|)
  {
    if |bs| > 0 {
      LeValueBound(bs[1..]);
      Pow2Add(8, 8 * (|bs| - 1));
      assert Pow2(8) == 0x100;
      assert Pow2(8 * |bs|) == 0x100 * Pow2(8 * (|bs| - 1));
    }
  }

  /** Encoding and decoding little-endian are inverse to each other. */
  lemma {:induction false} LeRoundTrip(x: nat, n: nat)
    requires x < Pow2(8 * n)
    ensures LeValue(LeBytes(x, n)) == x
  {
    if n > 0 {
      Pow2Add(8, 8 * (n - 1));
      assert Pow2(8) == 0x100;
      assert x / 0x100 < Pow2(8 * (n - 1));
      LeRoundTrip(x / 0x100, n - 1);
      assert LeBytes(x, n)[1..] == LeBytes(x / 0x100, n - 1);
    }
  }

  lemma {:induction false} LeBytesOfValue(bs: seq<u8>)
    ensures LeBytes(LeValue(bs), |bs|) == bs
  {
    if |bs| > 0 {
      LeBytesOfValue(bs[1..]);
      var v := LeValue(bs[1..]);
      assert (bs[0] + 0x100 * v) % 0x100 == bs[0];
      assert (bs[0] + 0x100 * v) / 0x100 == v;
    }
  }

  /** Byte `j` of the little-endian encoding is `(x >> 8j) & 0xff`. */
  lemma {:induction false} LeByteAt(x: nat, n: nat, j: nat)
    requires j < n
    ensures LeBytes(x, n)[j] == Field(x, 8 * j, 8)
  {
    FieldIsDivMod(x, 8 * j, 8);
    assert Pow2(8) == 0x100;
    if j > 0 {
      LeByteAt(x / 0x100, n - 1, j - 1);
      FieldIsDivMod(x / 0x100, 8 * (j - 1), 8);
      Pow2Add(8, 8 * (j - 1));
      DivDiv(x, 0x100, Pow2(8 * (j - 1)));
    }
  }

  /** The byte string cut into `size`-byte pieces, each read little-endian
      (a short tail, which the callers rule out, is dropped). */
  function DecodeAll(data: seq<u8>, size: nat): (r: seq<nat>)
    requires size > 0
    ensures forall i :: 0 <= i < |r| ==> r[i] < Pow2(8 * size)
    decreases |data|
  {
    if |data| < size then []
    else
      LeValueBound(data[..size]);
      [LeValue(data[..size])] + DecodeAll(data[size..], size)
  }

  /** Taking one `size`-byte piece off a whole number of pieces. */
  lemma ModStep(n: nat, size: nat)
    requires size > 0 && n > 0 && n % size == 0
    ensures size <= n && (n - size) % size == 0 && (n - size) / size == n / size - 1
  {
    var q := n / size;
    assert n == size * q;
    assert n - size == size * (q - 1);
    DivUnique(n - size, size, q - 1, 0);
  }

  lemma {:induction false} DecodeAllLength(data: seq<u8>, size: nat)
    requires size > 0 && |data| % size == 0
    ensures |DecodeAll(data, size)| == |data| / size
    decreases |data|
  {
    if |data| > 0 {
      ModStep(|data|, size);
      DecodeAllLength(data[size..], size);
    }
  }

  /** `ints_from_data(data, size)` */
  function IntsFromData(data: seq<u8>, size: int): Result<seq<nat>>
  {
    if !IsIntSize(size) then Err(AssertionError("Unhandled size"))
    else if |data| % size != 0 then Err(StructError("unpack requires a buffer of " + "size bytes"))
    else if size == 1 then Ok(seq(|data|, i requires 0 <= i < |data| => data[i] as nat))
    else Ok(DecodeAll(data, size))
  }

  /** `int_from_data(data, size)` */
  function IntFromData(data: seq<u8>, size: int): Result<nat>
  {
    if !IsIntSize(size) then Err(AssertionError("Unhandled size"))
    else if |data| != size then Err(StructError("unpack requires a buffer of " + "size bytes"))
    else if size == 1 then Ok(data[0])
    else Ok(LeValue(data))
  }

  /** `data_from_int(integer, size)`; `int.to_bytes` raises OverflowError for a value
      that does not fit. */
  function DataFromInt(x: nat, size: int): Result<seq<u8>>
  {
    if !IsIntSize(size) then Err(AssertionError("Unhandled size"))
    else if x >= Bound(size) then Err(OverflowError("int too big to convert"))
    else Ok(LeBytes(x, size))
  }

  /** `bytearray_view_from_ints(ints)`: the `array("I", ...)` bytes; `array` raises
      OverflowError for a value that is not an unsigned 32-bit int. */
  function BytearrayViewFromInts(ints: seq<nat>): Result<seq<u8>>
  {
    if |ints| == 0 then Ok([])
    else if ints[0] >= 0x1_0000_0000 then Err(OverflowError("unsigned int is greater than maximum"))
    else
      match BytearrayViewFromInts(ints[1..])
      case Ok(rest) => Ok(LeBytes(ints[0], 4) + rest)
      case Err(e) => Err(e)
  }

  /** `array_view_from_bytearray(ba)`: `array.frombytes` raises ValueError unless the
      length is a multiple of the item size. */
  function ArrayViewFromBytearray(ba: seq<u8>): Result<seq<nat>>
  {
    if |ba| % 4 != 0 then Err(ValueError("bytes length not a multiple of item size"))
    else Ok(DecodeAll(ba, 4))
  }

  // -----------------------------------------------------------------------
  // Properties

  /** Sizes other than 1, 2, 4 and 8 are refused by every helper. */
  lemma UnknownSizesRejected(data: seq<u8>, x: nat, size: int)
    requires !IsIntSize(size)
    ensures IntsFromData(data, size).Err? && IntsFromData(data, size).error.AssertionError?
    ensures IntFromData(data, size).Err? && IntFromData(data, size).error.AssertionError?
    ensures DataFromInt(x, size).Err? && DataFromInt(x, size).error.AssertionError?
  {
  }

  /** A byte string whose length is not a multiple of `size` is refused with struct.error;
      otherwise there are `len / size` ints, each below `2**(8 size)`. */
  lemma IntsFromDataShape(data: seq<u8>, size: int)
    requires IsIntSize(size)
    ensures IntsFromData(data, size).Err? <==> |data| % size != 0
    ensures IntsFromData(data, size).Err? ==> IntsFromData(data, size).error.StructError?
    ensures IntsFromData(data, size).Ok? ==>
      |IntsFromData(data, size).value| == |data| / size
      && forall i :: 0 <= i < |data| / size ==> IntsFromData(data, size).value[i] < Bound(size)
  {
    BoundIsPow2(size);
    if size == 1 && |data| % size == 0 {
      assert Pow2(8) == 0x100;
    } else if |data| % size == 0 {
      DecodeAllLength(data, size);
    }
  }

  /** `data_from_int` gives exactly `size` bytes, and `int_from_data` reads them back. */
  lemma DataFromIntRoundTrip(x: nat, size: int)
    requires IsIntSize(size) && x < Bound(size)
    ensures DataFromInt(x, size).Ok? && |DataFromInt(x, size).value| == size
    ensures IntFromData(DataFromInt(x, size).value, size) == Ok(x)
  {
    BoundIsPow2(size);
    LeRoundTrip(x, size);
    if size == 1 {
      assert Pow2(8) == 0x100;
      assert LeBytes(x, 1) == [x];
    }
  }

  function Concat(parts: seq<seq<u8>>): seq<u8>
  {
    if |parts| == 0 then [] else parts[0] + Concat(parts[1..])
  }

  /** The encodings of a list of ints, one after the other. */
  function EncodeAll(ints: seq<nat>, size: nat): (r: seq<u8>)
    ensures |r| == |ints| * size
  {
    if |ints| == 0 then [] else LeBytes(ints[0], size) + EncodeAll(ints[1..], size)
  }

  lemma {:induction false} DecodeEncodeAll(ints: seq<nat>, size: nat)
    requires size > 0
    requires forall i :: 0 <= i < |ints| ==> ints[i] < Pow2(8 * size)
    ensures |EncodeAll(ints, size)| % size == 0
    ensures DecodeAll(EncodeAll(ints, size), size) == ints
  {
    var e := EncodeAll(ints, size);
    DivUnique(|e|, size, |ints|, 0);
    if |ints| > 0 {
      var first := LeBytes(ints[0], size);
      var rest := EncodeAll(ints[1..], size);
      assert e == first + rest;
      assert e[..size] == first;
      assert e[size..] == rest;
      DecodeEncodeAll(ints[1..], size);
      LeRoundTrip(ints[0], size);
    }
  }

  /** `ints_from_data` of the concatenated `data_from_int` encodings gives back the ints. */
  lemma IntsFromDataRoundTrip(ints: seq<nat>, size: int)
    requires IsIntSize(size)
    requires forall i :: 0 <= i < |ints| ==> ints[i] < Bound(size)
    ensures IntsFromData(EncodeAll(ints, size), size) == Ok(ints)
  {
    if size == 1 {
      BytesRoundTrip(ints);
    } else {
      BoundIsPow2(size);
      DecodeEncodeAll(ints, size);
    }
  }

  lemma BytesRoundTrip(ints: seq<nat>)
    requires forall i :: 0 <= i < |ints| ==> ints[i] < 0x100
    ensures IntsFromData(EncodeAll(ints, 1), 1) == Ok(ints)
  {
    var e := EncodeAll(ints, 1);
    assert |e| == |ints|;
    forall i | 0 <= i < |ints|
      ensures e[i] == ints[i]
    {
      OneByte(ints, i);
    }
    assert IntsFromData(e, 1).value == ints;
  }

  lemma OneByte(ints: seq<nat>, i: nat)
    requires i < |ints| && ints[i] < 0x100
    ensures |EncodeAll(ints, 1)| == |ints| && EncodeAll(ints, 1)[i] == ints[i]
  {
    EncodeAllSlice(ints, 1, i);
    var e := EncodeAll(ints, 1);
    assert e[i..i + 1] == LeBytes(ints[i], 1);
    assert e[i] == e[i..i + 1][0];
  }

  /** The `i`-th piece of the concatenation is `data_from_int(ints[i], size)`. */
  lemma EncodeAllPiece(ints: seq<nat>, size: int, i: nat)
    requires IsIntSize(size) && i < |ints| && ints[i] < Bound(size)
    ensures |EncodeAll(ints, size)| == |ints| * size
    ensures DataFromInt(ints[i], size) == Ok(EncodeAll(ints, size)[i * size..i * size + size])
  {
    EncodeAllSlice(ints, size, i);
  }

  lemma MulStep(a: nat, b: nat)
    requires a > 0
    ensures a * b == b + (a - 1) * b
  {
  }

  lemma {:induction false} MulMono(a: nat, n: nat, b: nat)
    requires a < n
    ensures a * b + b <= n * b
    decreases n - a
  {
    MulStep(n, b);
    if n > a + 1 {
      MulMono(a, n - 1, b);
    }
  }

  /** The offsets of the i-th encoding among n, against those of the
      (i-1)-th among the n-1 after the first. */
  lemma SliceArith(i: nat, n: nat, size: nat)
    requires 0 < i < n
    ensures size + (i - 1) * size == i * size
    ensures (i - 1) * size + size <= (n - 1) * size
    ensures n * size == size + (n - 1) * size
  {
    MulStep(i, size);
    MulStep(n, size);
    MulMono(i - 1, n - 1, size);
  }

  lemma {:induction false} EncodeAllSlice(ints: seq<nat>, size: nat, i: nat)
    requires i < |ints|
    ensures |EncodeAll(ints, size)| == |ints| * size
    ensures i * size + size <= |ints| * size
    ensures EncodeAll(ints, size)[i * size..i * size + size] == LeBytes(ints[i], size)
  {
    MulMono(i, |ints|, size);
    var e := EncodeAll(ints, size);
    var first := LeBytes(ints[0], size);
    var rest := EncodeAll(ints[1..], size);
    assert e == first + rest;
    if i == 0 {
      assert e[..size] == first;
    } else {
      EncodeAllSlice(ints[1..], size, i - 1);
      var k := (i - 1) * size;
      SliceArith(i, |ints|, size);
      assert k + size <= |rest|;
      assert e[size + k..size + k + size] == rest[k..k + size];
    }
  }

  /** With size 1 the raw byte values come back. */
  lemma IntsFromDataBytes(data: seq<u8>)
    ensures IntsFromData(data, 1) == Ok(seq(|data|, i requires 0 <= i < |data| => data[i] as nat))
  {
  }

  /** `bytearray_view_from_ints` gives 4 bytes per int (the encodings one after the
      other), least significant byte first. */
  lemma BytearrayViewLayout(ints: seq<nat>, i: nat, j: nat)
    requires forall k :: 0 <= k < |ints| ==> ints[k] < 0x1_0000_0000
    requires i < |ints| && j < 4
    ensures BytearrayViewFromInts(ints) == Ok(EncodeAll(ints, 4))
    ensures |EncodeAll(ints, 4)| == 4 * |ints|
    ensures EncodeAll(ints, 4)[4 * i + j] == Field(ints[i], 8 * j, 8)
  {
    ViewIsEncode(ints);
    var e := EncodeAll(ints, 4);
    EncodeAllSlice(ints, 4, i);
    assert e[4 * i + j] == e[4 * i..4 * i + 4][j];
    LeByteAt(ints[i], 4, j);
  }

  /** `array_view_from_bytearray` reads back the ints `bytearray_view_from_ints` laid out. */
  lemma ArrayViewRoundTrip(ints: seq<nat>)
    requires forall k :: 0 <= k < |ints| ==> ints[k] < 0x1_0000_0000
    ensures BytearrayViewFromInts(ints).Ok?
    ensures ArrayViewFromBytearray(BytearrayViewFromInts(ints).value) == Ok(ints)
  {
    ViewIsEncode(ints);
    Pow2Of32();
    DecodeEncodeAll(ints, 4);
  }

  lemma {:induction false} ViewIsEncode(ints: seq<nat>)
    requires forall i :: 0 <= i < |ints| ==> ints[i] < 0x1_0000_0000
    ensures BytearrayViewFromInts(ints) == Ok(EncodeAll(ints, 4))
  {
    if |ints| > 0 {
      ViewIsEncode(ints[1..]);
    }
  }

  /** The worked values: `int_from_data(b"\x01\x02\x03\x04", 4) == 0x04030201`, and
      `(0x01020304, 0x05060708)` is laid out as bytes 4, 3, 2, 1, 8, 7, 6, 5. */
  lemma WorkedExamples()
    ensures IntFromData([1, 2, 3, 4], 4) == Ok(0x04030201)
    ensures IntFromData([1, 2], 4).Err?
    ensures IntsFromData([1, 2, 3], 2).Err?
    ensures BytearrayViewFromInts([0x01020304, 0x05060708]) == Ok([4, 3, 2, 1, 8, 7, 6, 5])
  {
    assert LeBytes(0x01020304, 4) == [4, 3, 2, 1];
    assert LeBytes(0x05060708, 4) == [8, 7, 6, 5];
    var ints: seq<nat> := [0x01020304, 0x05060708];
    ViewIsEncode(ints);
    assert ints[1..] == [0x05060708];
    assert EncodeAll([0x05060708], 4) == [8, 7, 6, 5];
    assert EncodeAll(ints, 4) == [4, 3, 2, 1] + [8, 7, 6, 5];
    var bytes: seq<u8> := [4, 3, 2, 1, 8, 7, 6, 5];
    assert [4, 3, 2, 1] + [8, 7, 6, 5] == bytes;
  }
}
