/**
 * The exception hierarchy of gpu/error.py, plus the handful of Python
 * built-in exceptions the modelled code raises, as values.  A raised
 * exception is an `Err` result.
 */
module GpuErrors {
  import opened Text

  datatype Error =
    | GpuError(msg: string)
    | GpuPollTimeout(msg: string)
    | GpuRpcTimeout(msg: string)
      /** `FspRpcError(fsp_rpc, fsp_error, data)`: `rpc` is the RPC's name. */
    | FspRpcError(rpc: string, code: nat, data: seq<nat>)
      // Python built-in exceptions
    | ValueError(msg: string)
    | IndexError(msg: string)
    | AssertionError(msg: string)
    | StructError(msg: string)
    | OverflowError(msg: string)
    | AttributeError(msg: string)
    | KeyError(msg: string)
    | TypeError(msg: string)
    | UnboundLocalError(msg: string)

  datatype Result<T> = Ok(value: T) | Err(error: Error)
  {
    predicate IsFailure() { Err? }
    function PropagateFailure<U>(): Result<U>
      requires Err?
    {
      Err(error)
    }
    function Extract(): T
      requires Ok?
    {
      value
    }
  }

  /** `isinstance(e, GpuError)`: the three subclasses are GPU errors too. */
  predicate IsGpuError(e: Error)
  {
    e.GpuError? || e.GpuPollTimeout? || e.GpuRpcTimeout? || e.FspRpcError?
  }

  const InvalidKnobCode: nat := 0x1e3

  /** `FspRpcError.is_invalid_knob_error` */
  predicate IsInvalidKnobError(e: Error)
    requires e.FspRpcError?
  {
    e.code == InvalidKnobCode
  }

  /** `except FspRpcError as err: if err.is_invalid_knob_error` */
  predicate IsInvalidKnob(e: Error)
  {
    e.FspRpcError? && IsInvalidKnobError(e)
  }

  /** The repr of a list of strings, `['a', 'b']`. */
  function ReprList(items: seq<string>): string
  {
    "[" + ReprItems(items) + "]"
  }

  function ReprItems(items: seq<string>): string
  {
    if |items| == 0 then ""
    else if |items| == 1 then "'" + items[0] + "'"
    else "'" + items[0] + "', " + ReprItems(items[1..])
  }

  function HexList(data: seq<nat>): seq<string>
  {
    seq(|data|, i requires 0 <= i < |data| => Hex(data[i]))
  }

  /** The message an `FspRpcError` carries. */
  function FspRpcErrorMessage(rpc: string, code: nat, data: seq<nat>): string
  {
    rpc + " failed with error " + Hex(code) + ". Data " + ReprList(HexList(data))
  }

  /** Whether `t` occurs in `s` as a contiguous piece. */
  predicate Occurs(t: string, s: string)
    decreases |s|
  {
    |t| <= |s| && (s[..|t|] == t || Occurs(t, s[1..]))
  }

  lemma {:induction false} OccursLeft(t: string, a: string, b: string)
    requires Occurs(t, a)
    ensures Occurs(t, a + b)
    decreases |a|
  {
    assert (a + b)[..|t|] == a[..|t|];
    if a[..|t|] != t {
      OccursLeft(t, a[1..], b);
      assert (a + b)[1..] == a[1..] + b;
    }
  }

  lemma {:induction false} OccursRight(t: string, a: string, b: string)
    requires Occurs(t, b)
    ensures Occurs(t, a + b)
    decreases |a|
  {
    if |a| == 0 {
      assert a + b == b;
    } else {
      OccursRight(t, a[1..], b);
      assert (a + b)[1..] == a[1..] + b;
    }
  }

  lemma OccursSelf(t: string)
    ensures Occurs(t, t)
  {
  }

  lemma {:induction false} ItemInRepr(items: seq<string>, k: nat)
    requires k < |items|
    ensures Occurs(items[k], ReprItems(items))
  {
    OccursSelf(items[k]);
    if |items| == 1 {
      OccursRight(items[0], "'", items[0]);
      OccursLeft(items[0], "'" + items[0], "'");
    } else if k == 0 {
      OccursRight(items[0], "'", items[0]);
      OccursLeft(items[0], "'" + items[0], "', " + ReprItems(items[1..]));
      assert "'" + items[0] + "', " + ReprItems(items[1..])
        == ("'" + items[0]) + ("', " + ReprItems(items[1..]));
    } else {
      ItemInRepr(items[1..], k - 1);
      OccursRight(items[k], "'" + items[0] + "', ", ReprItems(items[1..]));
    }
  }

  /** The code, the constructor's arguments and every data word are kept unchanged, and
      the message shows the code and every data word in hex. */
  lemma FspRpcErrorShowsData(rpc: string, code: nat, data: seq<nat>, k: nat)
    requires k < |data|
    ensures var e := FspRpcError(rpc, code, data);
      e.code == code && e.data == data && IsGpuError(e)
      && Occurs(Hex(code), FspRpcErrorMessage(rpc, code, data))
      && Occurs(Hex(data[k]), FspRpcErrorMessage(rpc, code, data))
  {
    var items := HexList(data);
    var tail := ". Data " + ReprList(items);
    OccursSelf(Hex(code));
    OccursRight(Hex(code), rpc + " failed with error ", Hex(code));
    OccursLeft(Hex(code), rpc + " failed with error " + Hex(code), tail);
    ItemInRepr(items, k);
    assert items[k] == Hex(data[k]);
    OccursRight(Hex(data[k]), "[", ReprItems(items));
    OccursLeft(Hex(data[k]), "[" + ReprItems(items), "]");
    OccursRight(Hex(data[k]), ". Data ", ReprList(items));
    OccursRight(Hex(data[k]), rpc + " failed with error " + Hex(code), tail);
    assert FspRpcErrorMessage(rpc, code, data) == rpc + " failed with error " + Hex(code) + tail;
  }

  /** The invalid-knob test accepts code 0x1e3 and no other. */
  lemma InvalidKnobExactly(rpc: string, code: nat, data: seq<nat>)
    ensures IsInvalidKnob(FspRpcError(rpc, code, data)) <==> code == 0x1e3
    ensures IsGpuError(FspRpcError(rpc, code, data))
  {
  }
}
