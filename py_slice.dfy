/**
 * Python slices: `slice(start, stop, step).indices(length)` and the list
 * slicing built on it, used by `RawBitfield` (nvidia_gpu_tools.py) to
 * turn `reg[a:b]` into a bit range and by `parse_array_index`
 * (pci/devices.py) to apply a `start:stop:step` specifier.  Omitted
 * parts are `None`; a negative index counts from the end; indices are
 * clamped to the sequence; a step of zero raises `ValueError`.
 */
module PySlices {
  import opened Text
  import opened GpuErrors

  datatype Slice = Slice(start: Option<int>, stop: Option<int>, step: Option<int>)

  /** One clamped bound: a negative index counts from the end, and the
      result lies within `lower ..= upper`. */
  function Adjust(i: Option<int>, default: int, lower: int, upper: int, length: nat): int
  {
    match i
    case None => default
    case Some(x) =>
      if x < 0 then (if x + length < lower then lower else x + length)
      else if x > upper then upper
      else x
  }

  /** `slice.indices(length)`: `(start, stop, step)`. */
  function Indices(sl: Slice, length: nat): (r: Result<(int, int, int)>)
    ensures r.Ok? ==> r.value.2 != 0
    ensures r.Ok? && r.value.2 > 0 ==> 0 <= r.value.0 <= length && 0 <= r.value.1 <= length
    ensures r.Ok? && r.value.2 < 0 ==> -1 <= r.value.0 < length && -1 <= r.value.1 < length
  {
    var step := if sl.step.None? then 1 else sl.step.value;
    if step == 0 then Err(ValueError("slice step cannot be zero"))
    else
      var lower := if step < 0 then -1 else 0;
      var upper := if step < 0 then length - 1 else length;
      var start := Adjust(sl.start, if step < 0 then upper else lower, lower, upper, length);
      var stop := Adjust(sl.stop, if step < 0 then lower else upper, lower, upper, length);
      Ok((start, stop, step))
  }

  /** How many indices `range(start, stop, step)` has. */
  function Count(start: int, stop: int, step: int): nat
    requires step != 0
  {
    if step > 0 then (if start < stop then (stop - start - 1) / step + 1 else 0)
    else (if stop < start then (start - stop - 1) / -step + 1 else 0)
  }

  /** The `k`-th index of `range(start, stop, step)` lies between the bounds. */
  lemma CountBound(start: int, stop: int, step: int, k: nat)
    requires step != 0 && k < Count(start, stop, step)
    ensures step > 0 ==> start <= start + k * step < stop
    ensures step < 0 ==> stop < start + k * step <= start
  {
    if step > 0 {
      var q := (stop - start - 1) / step;
      assert k <= q;
      MulLe(k, q, step);
      assert q * step <= stop - start - 1;
    } else {
      var q := (start - stop - 1) / -step;
      assert k <= q;
      MulLe(k, q, -step);
      assert q * -step <= start - stop - 1;
    }
  }

  lemma MulLe(k: nat, q: int, d: nat)
    requires k <= q
    ensures k * d <= q * d
  {
  }

  /** `xs[start:stop:step]` */
  function SliceList<T>(xs: seq<T>, sl: Slice): Result<seq<T>>
  {
    var (start, stop, step) :- Indices(sl, |xs|);
    Ok(seq(Count(start, stop, step), k requires 0 <= k < Count(start, stop, step) =>
      CountBound(start, stop, step, k);
      xs[start + k * step]))
  }

  /** Every element of a slice is the element of `xs` at `start + k*step`,
      for the indices `slice.indices` gives. */
  lemma SliceElements<T>(xs: seq<T>, sl: Slice, k: nat)
    requires SliceList(xs, sl).Ok? && k < |SliceList(xs, sl).value|
    ensures Indices(sl, |xs|).Ok?
    ensures var (start, stop, step) := Indices(sl, |xs|).value;
      0 <= start + k * step < |xs| && SliceList(xs, sl).value[k] == xs[start + k * step]
  {
    var (start, stop, step) := Indices(sl, |xs|).value;
    CountBound(start, stop, step, k);
  }

  /** A step-one slice with bounds already inside the sequence is the contiguous subsequence. */
  lemma SliceContiguous<T>(xs: seq<T>, a: nat, b: nat)
    requires a <= b <= |xs|
    ensures SliceList(xs, Slice(Some(a), Some(b), None)) == Ok(xs[a..b])
  {
    assert Indices(Slice(Some(a), Some(b), None), |xs|) == Ok((a as int, b as int, 1));
    var r := SliceList(xs, Slice(Some(a), Some(b), None)).value;
    assert Count(a, b, 1) == b - a;
    assert |r| == b - a;
    forall k | 0 <= k < b - a
      ensures r[k] == xs[a..b][k]
    {
      assert r[k] == xs[a + k * 1];
    }
    assert r == xs[a..b];
  }

  /** An omitted start and stop with step one copy the whole sequence. */
  lemma SliceAll<T>(xs: seq<T>)
    ensures SliceList(xs, Slice(None, None, None)) == Ok(xs)
  {
    assert Indices(Slice(None, None, None), |xs|) == Ok((0, |xs| as int, 1));
    var r := SliceList(xs, Slice(None, None, None)).value;
    assert Count(0, |xs|, 1) == |xs|;
    assert |r| == |xs|;
    forall k | 0 <= k < |xs|
      ensures r[k] == xs[k]
    {
      assert r[k] == xs[0 + k * 1];
    }
    assert r == xs;
  }

  /** Step minus one with omitted bounds reverses the sequence. */
  lemma SliceReversed<T>(xs: seq<T>)
    ensures SliceList(xs, Slice(None, None, Some(-1))).Ok?
    ensures var r := SliceList(xs, Slice(None, None, Some(-1))).value;
      |r| == |xs| && forall k :: 0 <= k < |xs| ==> r[k] == xs[|xs| - 1 - k]
  {
    var r := SliceList(xs, Slice(None, None, Some(-1))).value;
    assert Count(|xs| - 1, -1, -1) == |xs|;
  }

  /** Only a zero step is refused. */
  lemma SliceFails<T>(xs: seq<T>, sl: Slice)
    ensures SliceList(xs, sl).Err? <==> sl.step == Some(0)
    ensures SliceList(xs, sl).Err? ==> SliceList(xs, sl) == Err(ValueError("slice step cannot be zero"))
  {
  }
}
