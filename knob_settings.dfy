/**
 * The settings loop of `NvidiaDevice.knobs_set` in nvidia_gpu_tools.py:
 * each requested knob is compared with the state the device is believed
 * to be in, skipped when it already matches, and otherwise handed to its
 * setter; the knobs that were set are returned in request order.
 *
 * The setters are a step function of the commands sent so far, so that
 * the loop's properties hold whatever the setters do; the CC and PPCIe
 * setters of CcModes are plugged in there.
 */
module KnobSettings {
  import opened GpuErrors
  import opened FspRpcs

  /** A knob setting as Python compares it: a mode string, a bool, or None. */
  datatype KnobValue = Mode(mode: string) | Flag(on: bool) | NoValue

  /** The state `knobs_set` records for every knob when it may not trust
      the device: the string "unknown". */
  const Unknown: KnobValue := Mode("unknown")

  /** Python truth of a setting. */
  predicate Truthy(v: KnobValue)
  {
    match v
    case Mode(s) => |s| != 0
    case Flag(b) => b
    case NoValue => false
  }

  /** The knobs `knobs_set` has a setter for. */
  predicate Handled(knob: string)
  {
    knob == "cc" || knob == "ppcie" || knob == "ecc" || knob == "mig"
  }

  /** One setter call (`set_cc_mode`, `set_ppcie_mode`, the ECC and MIG
      setters) as a function of the commands sent before it. */
  type SetStep = (seq<Cmd>, string, KnobValue) -> (Result<()>, seq<Cmd>)

  /** The `for knob, knob_value in knobs.items()` loop of `knobs_set`, with
      `current_state` given as `current`: a knob already in its state is
      skipped; a knob without a setter is a ValueError; before Ampere, ECC
      can only be turned on; an invalid-knob error of the PPCIe setter
      skips the knob, and any other setter error is raised. */
  function SetKnobs(setter: SetStep, ampere: bool, current: string -> KnobValue,
                    sent: seq<Cmd>, knobs: seq<(string, KnobValue)>): (Result<seq<string>>, seq<Cmd>)
    decreases |knobs|
  {
    if |knobs| == 0 then (Ok([]), sent)
    else
      var (r, s1) := SetKnobs(setter, ampere, current, sent, knobs[..|knobs| - 1]);
      var (k, v) := knobs[|knobs| - 1];
      if r.Err? || current(k) == v then (r, s1)
      else if !Handled(k) then (Err(ValueError("Unhandled " + k)), s1)
      else if k == "ecc" && !ampere && !Truthy(v) then (Err(ValueError("knob ecc only supports enabled state")), s1)
      else
        var (e, s2) := setter(s1, k, v);
        if e.Ok? then (Ok(r.value + [k]), s2)
        else if k == "ppcie" && IsInvalidKnob(e.error) then (r, s2)
        else (Err(e.error), s2)
  }

  /** The loop over the first `i + 1` knobs: the first `i`, then knob `i`. */
  lemma SetKnobsNext(setter: SetStep, ampere: bool, current: string -> KnobValue,
                     sent: seq<Cmd>, knobs: seq<(string, KnobValue)>, i: nat)
    requires i < |knobs|
    ensures SetKnobs(setter, ampere, current, sent, knobs[..i + 1]) ==
      var (r, s1) := SetKnobs(setter, ampere, current, sent, knobs[..i]);
      var (k, v) := knobs[i];
      if r.Err? || current(k) == v then (r, s1)
      else if !Handled(k) then (Err(ValueError("Unhandled " + k)), s1)
      else if k == "ecc" && !ampere && !Truthy(v) then (Err(ValueError("knob ecc only supports enabled state")), s1)
      else
        var (e, s2) := setter(s1, k, v);
        if e.Ok? then (Ok(r.value + [k]), s2)
        else if k == "ppcie" && IsInvalidKnob(e.error) then (r, s2)
        else (Err(e.error), s2)
  {
    assert knobs[..i + 1][..i] == knobs[..i];
  }

  /** An error ends the loop: no knob after the failing one is looked at. */
  lemma {:induction false} SetKnobsStops(setter: SetStep, ampere: bool, current: string -> KnobValue,
                                         sent: seq<Cmd>, knobs: seq<(string, KnobValue)>, k: nat)
    requires k <= |knobs| && SetKnobs(setter, ampere, current, sent, knobs[..k]).0.Err?
    ensures SetKnobs(setter, ampere, current, sent, knobs) == SetKnobs(setter, ampere, current, sent, knobs[..k])
    decreases |knobs|
  {
    if k == |knobs| {
      assert knobs[..k] == knobs;
    } else {
      var n := |knobs| - 1;
      assert knobs[..n][..k] == knobs[..k];
      SetKnobsStops(setter, ampere, current, sent, knobs[..n], k);
    }
  }

  /** The knob names of a request, in order. */
  function Names(knobs: seq<(string, KnobValue)>): (r: seq<string>)
    ensures |r| == |knobs| && forall i :: 0 <= i < |knobs| ==> r[i] == knobs[i].0
  {
    seq(|knobs|, i requires 0 <= i < |knobs| => knobs[i].0)
  }

  /** `a` is `b` with some elements left out. */
  predicate Subseq<T(==)>(a: seq<T>, b: seq<T>)
    decreases |b|
  {
    if |a| == 0 then true
    else if |b| == 0 then false
    else if a[|a| - 1] == b[|b| - 1] then Subseq(a[..|a| - 1], b[..|b| - 1])
    else Subseq(a, b[..|b| - 1])
  }

  /** Leaving out the last element keeps a subsequence. */
  lemma {:induction false} SubseqInit<T>(a: seq<T>, b: seq<T>)
    requires |a| != 0 && Subseq(a, b)
    ensures Subseq(a[..|a| - 1], b)
    decreases |b|, 0
  {
    var m := |a| - 1;
    var n := |b| - 1;
    if a[m] == b[n] {
      assert Subseq(a[..m], b[..n]);
      if m != 0 {
        SubseqInit(a[..m], b[..n]);
        assert a[..m][..m - 1] == a[..m - 1];
        SubseqSnoc(a[..m - 1], b[..n], b[n]);
        assert b[..n] + [b[n]] == b;
      } else {
        assert a[..m] == [];
      }
    } else {
      SubseqInit(a, b[..n]);
      SubseqSnoc(a[..m], b[..n], b[n]);
      assert b[..n] + [b[n]] == b;
    }
  }

  /** A subsequence extends by a common last element, and by any element on
      the right only. */
  lemma {:induction false} SubseqSnoc<T>(a: seq<T>, b: seq<T>, x: T)
    requires Subseq(a, b)
    ensures Subseq(a + [x], b + [x]) && Subseq(a, b + [x])
    decreases |b|, 1
  {
    assert (a + [x])[..|a|] == a;
    assert (b + [x])[..|b|] == b;
    if |a| != 0 {
      if a[|a| - 1] == x {
        SubseqInit(a, b);
      }
    }
  }

  /** Every name in a subsequence is in the sequence. */
  lemma {:induction false} SubseqIn<T>(a: seq<T>, b: seq<T>, x: T)
    requires Subseq(a, b) && x in a
    ensures x in b
    decreases |b|
  {
    var n := |b| - 1;
    if a[|a| - 1] == b[n] {
      if x != b[n] {
        assert x in a[..|a| - 1];
        SubseqIn(a[..|a| - 1], b[..n], x);
      }
    } else {
      SubseqIn(a, b[..n], x);
    }
  }

  /** The knob names of a Python dict are distinct. */
  predicate DistinctNames(knobs: seq<(string, KnobValue)>)
  {
    forall i, j :: 0 <= i < j < |knobs| ==> knobs[i].0 != knobs[j].0
  }

  /** The knobs set are returned in request order, each at most once, and
      every one of them has a setter and was not already in its state. */
  lemma {:induction false} SetKnobsModified(setter: SetStep, ampere: bool, current: string -> KnobValue,
                                            sent: seq<Cmd>, knobs: seq<(string, KnobValue)>)
    ensures var r := SetKnobs(setter, ampere, current, sent, knobs).0;
      r.Ok? ==>
        Subseq(r.value, Names(knobs))
        && (forall k :: k in r.value ==>
              Handled(k) && exists i :: 0 <= i < |knobs| && knobs[i].0 == k && current(k) != knobs[i].1)
    decreases |knobs|
  {
    if |knobs| != 0 {
      var n := |knobs| - 1;
      SetKnobsModified(setter, ampere, current, sent, knobs[..n]);
      var (r, s1) := SetKnobs(setter, ampere, current, sent, knobs[..n]);
      assert Names(knobs) == Names(knobs[..n]) + [knobs[n].0];
      if r.Ok? {
        SubseqSnoc(r.value, Names(knobs[..n]), knobs[n].0);
        var out := SetKnobs(setter, ampere, current, sent, knobs).0;
        if out.Ok? {
          forall k | k in out.value
            ensures Handled(k) && exists i :: 0 <= i < |knobs| && knobs[i].0 == k && current(k) != knobs[i].1
          {
            if k in r.value {
              var i :| 0 <= i < n && knobs[..n][i].0 == k && current(k) != knobs[..n][i].1;
              assert knobs[i] == knobs[..n][i];
            } else {
              assert out.value == r.value + [knobs[n].0];
            }
          }
        }
      }
    }
  }

  /** A knob already in the requested state is never set, and when every
      knob is, nothing is sent and nothing is reported modified. */
  lemma {:induction false} SetKnobsSkipsSettled(setter: SetStep, ampere: bool, current: string -> KnobValue,
                                                sent: seq<Cmd>, knobs: seq<(string, KnobValue)>)
    requires DistinctNames(knobs)
    ensures var (r, out) := SetKnobs(setter, ampere, current, sent, knobs);
      (r.Ok? ==> forall i :: 0 <= i < |knobs| && current(knobs[i].0) == knobs[i].1 ==> knobs[i].0 !in r.value)
      && ((forall i :: 0 <= i < |knobs| ==> current(knobs[i].0) == knobs[i].1) ==> r == Ok([]) && out == sent)
    decreases |knobs|
  {
    if |knobs| != 0 {
      var n := |knobs| - 1;
      SetKnobsSkipsSettled(setter, ampere, current, sent, knobs[..n]);
      SetKnobsModified(setter, ampere, current, sent, knobs[..n]);
      var (r, s1) := SetKnobs(setter, ampere, current, sent, knobs[..n]);
      var out := SetKnobs(setter, ampere, current, sent, knobs).0;
      if out.Ok? {
        assert r.Ok?;
        forall i | 0 <= i < |knobs| && current(knobs[i].0) == knobs[i].1
          ensures knobs[i].0 !in out.value
        {
          if i < n {
            assert knobs[..n][i] == knobs[i];
            assert knobs[i].0 !in r.value;
            assert knobs[i].0 != knobs[n].0;
          } else {
            forall j | 0 <= j < n
              ensures knobs[..n][j].0 != knobs[n].0
            {
              assert knobs[..n][j] == knobs[j];
            }
          }
        }
      }
      if forall i :: 0 <= i < |knobs| ==> current(knobs[i].0) == knobs[i].1 {
        forall i | 0 <= i < n
          ensures current(knobs[..n][i].0) == knobs[..n][i].1
        {
          assert knobs[..n][i] == knobs[i];
        }
      }
    }
  }

  /** A successful run tried every knob that was not in its state: each of
      them had a setter, and each but PPCIe (which older firmware may
      lack) is reported modified. */
  lemma {:induction false} SetKnobsTriedAll(setter: SetStep, ampere: bool, current: string -> KnobValue,
                                            sent: seq<Cmd>, knobs: seq<(string, KnobValue)>)
    ensures var r := SetKnobs(setter, ampere, current, sent, knobs).0;
      r.Ok? ==> forall i :: 0 <= i < |knobs| && current(knobs[i].0) != knobs[i].1 ==>
        Handled(knobs[i].0) && (knobs[i].0 != "ppcie" ==> knobs[i].0 in r.value)
    decreases |knobs|
  {
    if |knobs| != 0 {
      var n := |knobs| - 1;
      SetKnobsTriedAll(setter, ampere, current, sent, knobs[..n]);
      var (r, s1) := SetKnobs(setter, ampere, current, sent, knobs[..n]);
      var out := SetKnobs(setter, ampere, current, sent, knobs).0;
      if out.Ok? {
        assert r.Ok?;
        assert forall k :: k in r.value ==> k in out.value;
        forall i | 0 <= i < |knobs| && current(knobs[i].0) != knobs[i].1
          ensures Handled(knobs[i].0) && (knobs[i].0 != "ppcie" ==> knobs[i].0 in out.value)
        {
          if i < n {
            assert knobs[..n][i] == knobs[i];
          }
        }
      }
    }
  }

  /** When the device cannot be trusted (CC or PPCIe on, or pending
      settings possible), every knob state is "unknown": a successful run
      then reports every requested knob but PPCIe modified, unless a
      request is itself the string "unknown". */
  lemma AllUnknownSetsAll(setter: SetStep, ampere: bool, sent: seq<Cmd>, knobs: seq<(string, KnobValue)>)
    requires forall i :: 0 <= i < |knobs| ==> knobs[i].1 != Unknown
    ensures var r := SetKnobs(setter, ampere, _ => Unknown, sent, knobs).0;
      r.Ok? ==> forall i :: 0 <= i < |knobs| && knobs[i].0 != "ppcie" ==> knobs[i].0 in r.value
  {
    SetKnobsTriedAll(setter, ampere, _ => Unknown, sent, knobs);
  }
}
