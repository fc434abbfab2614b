/*
 * A PCIe bridge's secondary bus reset (pci/bridge.py): `toggle_sbr` sets and
 * clears the bridge's bus-reset bit up to `retry_count` times, waiting after
 * each pulse for the link below to train, with slot notifications (and, on a
 * ConnectX-7 port, ACS source validation) switched off across the resets and
 * restored afterwards.  `wait_for_link` polls the link status until the link
 * is up or five seconds have passed; `toggle_link` pulses link disable.
 *
 * Register fields are values in a record, each write and sleep is logged, and
 * the clock (in microseconds) and the link status are oracles indexed by how
 * many times each has been read.
 */
module PciBridges {
  import opened Text
  import opened GpuErrors

  /** The register fields the reset touches. */
  datatype Field =
    | Dllsce            // slot control: data link layer state changed enable
    | Hpie              // slot control: hot-plug interrupt enable
    | Pdc               // slot status: presence detect changed
    | Dllsc             // slot status: data link layer state changed
    | SourceValidation  // ACS control
    | BusReset          // bridge control
    | LinkDisable       // link control

  datatype Event = Set(field: Field, value: nat) | Sleep(us: nat) | Callback

  /** The link status fields `wait_for_link` looks at. */
  datatype LinkStatus = LinkStatus(lt: nat, dllla: nat, cls: nat)

  /** The world outside: the n-th `perf_counter()` reading, in
      microseconds, and the n-th link status read. */
  datatype Env = Env(clock: nat -> int, status: nat -> LinkStatus)

  /** `perf_counter` moves forward on every reading. */
  ghost predicate Ticking(clock: nat -> int)
  {
    forall m: nat, n: nat :: m < n ==> clock(m) < clock(n)
  }

  /** The values of the fields, one per field. */
  datatype Fields = Fields(dllsce: nat, hpie: nat, pdc: nat, dllsc: nat, sv: nat, sbr: nat, ld: nat)

  datatype State = State(fields: Fields, log: seq<Event>, clockReads: nat, statusReads: nat)

  /** The current value of a field. */
  function Get(st: State, f: Field): nat
  {
    match f
    case Dllsce => st.fields.dllsce
    case Hpie => st.fields.hpie
    case Pdc => st.fields.pdc
    case Dllsc => st.fields.dllsc
    case SourceValidation => st.fields.sv
    case BusReset => st.fields.sbr
    case LinkDisable => st.fields.ld
  }

  /** The fields with `f` set to `v`. */
  function Put(fs: Fields, f: Field, v: nat): Fields
  {
    match f
    case Dllsce => fs.(dllsce := v)
    case Hpie => fs.(hpie := v)
    case Pdc => fs.(pdc := v)
    case Dllsc => fs.(dllsc := v)
    case SourceValidation => fs.(sv := v)
    case BusReset => fs.(sbr := v)
    case LinkDisable => fs.(ld := v)
  }

  /** `reg[field] = v` */
  function SetF(st: State, f: Field, v: nat): State
  {
    st.(fields := Put(st.fields, f, v), log := st.log + [Set(f, v)])
  }

  /** `time.sleep` */
  function SleepF(st: State, us: nat): State
  {
    st.(log := st.log + [Sleep(us)])
  }

  lemma GetSet(st: State, f: Field, v: nat, g: Field)
    ensures Get(SetF(st, f, v), g) == if f == g then v else Get(st, g)
  {
  }

  // -------------------------------------------------------------------------
  // toggle_link

  const Pulse: nat := 100_000

  /** `toggle_link()`: link disable set, a pause, cleared, a pause. */
  function ToggleLinkSpec(st: State): State
  {
    SleepF(SetF(SleepF(SetF(st, LinkDisable, 1), Pulse), LinkDisable, 0), Pulse)
  }

  /** The link ends enabled, the only writes are link disable first set and
      then cleared, and no other field changes. */
  lemma ToggleLinkMeans(st: State)
    ensures var out := ToggleLinkSpec(st);
      && Get(out, LinkDisable) == 0
      && out.log == st.log + [Set(LinkDisable, 1), Sleep(Pulse), Set(LinkDisable, 0), Sleep(Pulse)]
      && (forall f :: f != LinkDisable ==> Get(out, f) == Get(st, f))
      && out.clockReads == st.clockReads && out.statusReads == st.statusReads
  {
  }

  // -------------------------------------------------------------------------
  // wait_for_link

  /** Link training done and the data link layer active. */
  predicate Trained(s: LinkStatus)
  {
    s.lt != 1 && s.dllla != 0
  }

  /** The default `timeout=5` seconds. */
  const LinkTimeout: nat := 5_000_000

  /** The polling loop from clock reading `c` and status read `s`, with the
      start time read at `start`: whether the link trained, the time it
      took (the timeout itself on failure), and the next clock and status
      read indices. */
  function WaitFrom(env: Env, start: nat, c: nat, s: nat, timeout: nat): (bool, int, nat, nat)
    requires Ticking(env.clock) && start < c
    decreases timeout + env.clock(start) - env.clock(c)
  {
    if env.clock(c) - env.clock(start) > timeout then (false, timeout, c + 1, s)
    else if Trained(env.status(s)) then (true, env.clock(c + 1) - env.clock(start), c + 2, s + 1)
    else WaitFrom(env, start, c + 1, s + 1, timeout)
  }

  /** `wait_for_link(timeout)` from state `st`. */
  function Wait(env: Env, st: State, timeout: nat): (bool, int, State)
    requires Ticking(env.clock)
  {
    var r := WaitFrom(env, st.clockReads, st.clockReads + 1, st.statusReads, timeout);
    (r.0, r.1, st.(clockReads := r.2, statusReads := r.3))
  }

  /** Pass `k` of the wait (counted from clock reading `c` and status read
      `s`) saw a trained link within the timeout. */
  predicate TrainedAt(env: Env, start: nat, c: nat, s: nat, timeout: nat, k: nat)
  {
    env.clock(c + k) - env.clock(start) <= timeout && Trained(env.status(s + k))
  }

  /** Pass `k + 1` from here is pass `k` from the next reading. */
  lemma TrainedAtShift(env: Env, start: nat, c: nat, s: nat, timeout: nat, k: nat)
    ensures TrainedAt(env, start, c + 1, s + 1, timeout, k) == TrainedAt(env, start, c, s, timeout, k + 1)
  {
    assert c + 1 + k == c + (k + 1) && s + 1 + k == s + (k + 1);
  }

  /** The wait succeeds exactly when some pass sees a trained link within
      the timeout. */
  lemma {:induction false} WaitFromMeans(env: Env, start: nat, c: nat, s: nat, timeout: nat)
    requires Ticking(env.clock) && start < c
    ensures WaitFrom(env, start, c, s, timeout).0 <==> exists k: nat :: TrainedAt(env, start, c, s, timeout, k)
    decreases timeout + env.clock(start) - env.clock(c)
  {
    if env.clock(c) - env.clock(start) > timeout {
      forall k: nat
        ensures !TrainedAt(env, start, c, s, timeout, k)
      {
        assert k > 0 ==> env.clock(c) < env.clock(c + k);
      }
    } else if Trained(env.status(s)) {
      assert TrainedAt(env, start, c, s, timeout, 0);
    } else {
      WaitFromMeans(env, start, c + 1, s + 1, timeout);
      if WaitFrom(env, start, c + 1, s + 1, timeout).0 {
        var k: nat :| TrainedAt(env, start, c + 1, s + 1, timeout, k);
        TrainedAtShift(env, start, c, s, timeout, k);
      } else {
        forall k: nat
          ensures !TrainedAt(env, start, c, s, timeout, k)
        {
          if k > 0 {
            TrainedAtShift(env, start, c, s, timeout, k - 1);
          }
        }
      }
    }
  }

  /** On failure the time reported is the timeout; on success it is
      positive. */
  lemma {:induction false} WaitFromTime(env: Env, start: nat, c: nat, s: nat, timeout: nat)
    requires Ticking(env.clock) && start < c
    ensures !WaitFrom(env, start, c, s, timeout).0 ==> WaitFrom(env, start, c, s, timeout).1 == timeout
    ensures WaitFrom(env, start, c, s, timeout).0 ==> WaitFrom(env, start, c, s, timeout).1 > 0
    decreases timeout + env.clock(start) - env.clock(c)
  {
    if env.clock(c) - env.clock(start) > timeout {
    } else if Trained(env.status(s)) {
      assert env.clock(start) < env.clock(c) < env.clock(c + 1);
    } else {
      WaitFromTime(env, start, c + 1, s + 1, timeout);
    }
  }

  /** The wait changes no field and writes nothing. */
  lemma WaitKeeps(env: Env, st: State, timeout: nat)
    requires Ticking(env.clock)
    ensures Wait(env, st, timeout).2.fields == st.fields && Wait(env, st, timeout).2.log == st.log
  {
  }

  // -------------------------------------------------------------------------
  // toggle_sbr

  /** One bus-reset pulse: set, a pause, cleared. */
  function PulseSbr(st: State): State
  {
    SetF(SleepF(SetF(st, BusReset, 1), Pulse), BusReset, 0)
  }

  function AddCallback(st: State, cb: bool): State
  {
    if cb then st.(log := st.log + [Callback]) else st
  }

  /** The loop's results after `i` more failed tries, the last taking `t`. */
  function Lift(r: (bool, Option<int>, State, nat), i: nat, t: Option<int>): (bool, Option<int>, State, nat)
  {
    (r.0, if r.1.Some? then r.1 else t, r.2, r.3 + i)
  }

  /** A failed try folds into the tries before it. */
  lemma LiftChain(whole: (bool, Option<int>, State, nat), now: (bool, Option<int>, State, nat),
                  rest: (bool, Option<int>, State, nat), i: nat, t: Option<int>, time: int)
    requires i > 0 && whole == Lift(now, i - 1, t) && now == Lift(rest, 1, Some(time))
    ensures whole == Lift(rest, i, Some(time))
  {
  }

  /** A try that trains ends the loop. */
  lemma LiftDone(whole: (bool, Option<int>, State, nat), now: (bool, Option<int>, State, nat),
                 i: nat, t: Option<int>, time: int, st: State)
    requires whole == Lift(now, i, t) && now == (true, Some(time), st, 1)
    ensures whole == (true, Some(time), st, i + 1)
  {
  }

  /** The retry loop with `n` tries left: whether a link trained, the
      `time_to_train` of the last try (None when there was no try), the
      state, and the number of tries. */
  function Attempts(env: Env, st: State, n: nat, cb: bool): (bool, Option<int>, State, nat)
    requires Ticking(env.clock)
    decreases n
  {
    if n == 0 then (false, None, st, 0)
    else
      var w := Wait(env, PulseSbr(st), LinkTimeout);
      if w.0 then (true, Some(w.1), w.2, 1)
      else Lift(Attempts(env, AddCallback(w.2, cb), n - 1, cb), 1, Some(w.1))
  }

  /** With no tries left the loop does nothing. */
  lemma AttemptsNone(env: Env, st: State, cb: bool)
    requires Ticking(env.clock)
    ensures Attempts(env, st, 0, cb) == (false, None, st, 0)
  {
  }

  /** One step of the loop: a try that trains ends it, a failed one
      leaves the rest of the loop after the callback. */
  lemma AttemptsStep(env: Env, st: State, n: nat, cb: bool)
    requires Ticking(env.clock) && n > 0
    ensures var w := Wait(env, PulseSbr(st), LinkTimeout);
      && (w.0 ==> Attempts(env, st, n, cb) == (true, Some(w.1), w.2, 1))
      && (!w.0 ==> Attempts(env, st, n, cb) == Lift(Attempts(env, AddCallback(w.2, cb), n - 1, cb), 1, Some(w.1)))
  {
  }

  /** The loop tries at most `n` times and stops at the first trained
      link: it fails only after all `n` tries, each failing with the
      timeout as its time. */
  lemma {:induction false} AttemptsTries(env: Env, st: State, n: nat, cb: bool)
    requires Ticking(env.clock)
    ensures var r := Attempts(env, st, n, cb);
      && r.3 <= n
      && (r.0 ==> r.3 >= 1)
      && (!r.0 ==> r.3 == n)
      && (r.1.None? <==> n == 0)
      && (r.1.Some? && !r.0 ==> r.1.value == LinkTimeout)
    decreases n
  {
    if n > 0 {
      var p := PulseSbr(st);
      WaitFromTime(env, p.clockReads, p.clockReads + 1, p.statusReads, LinkTimeout);
      var w := Wait(env, p, LinkTimeout);
      if !w.0 {
        AttemptsTries(env, AddCallback(w.2, cb), n - 1, cb);
      }
    }
  }

  /** The loop writes no field but the bus reset, and leaves it cleared
      after any try. */
  lemma {:induction false} AttemptsFields(env: Env, st: State, n: nat, cb: bool, f: Field)
    requires Ticking(env.clock)
    ensures f != BusReset ==> Get(Attempts(env, st, n, cb).2, f) == Get(st, f)
    ensures n > 0 && f == BusReset ==> Get(Attempts(env, st, n, cb).2, f) == 0
    decreases n
  {
    if n > 0 {
      var w := Wait(env, PulseSbr(st), LinkTimeout);
      if !w.0 {
        AttemptsFields(env, AddCallback(w.2, cb), n - 1, cb, f);
      }
    }
  }

  /** Events of the retry loop only pulse the bus reset, pause and call back. */
  predicate ResetEvents(es: seq<Event>)
  {
    forall i :: 0 <= i < |es| ==> es[i].Set? ==> es[i].field == BusReset
  }

  function CountOf(es: seq<Event>, e: Event): nat
  {
    if |es| == 0 then 0 else CountOf(es[..|es| - 1], e) + (if es[|es| - 1] == e then 1 else 0)
  }

  lemma {:induction false} CountOfAppend(a: seq<Event>, b: seq<Event>, e: Event)
    ensures CountOf(a + b, e) == CountOf(a, e) + CountOf(b, e)
    decreases |b|
  {
    if |b| > 0 {
      assert (a + b)[..|a + b| - 1] == a + b[..|b| - 1];
      CountOfAppend(a, b[..|b| - 1], e);
    } else {
      assert a + b == a;
    }
  }

  /** The events of one try. */
  function TryEvents(cb: bool): seq<Event>
  {
    [Set(BusReset, 1), Sleep(Pulse), Set(BusReset, 0)] + (if cb then [Callback] else [])
  }

  lemma TryEventsCount(cb: bool)
    ensures CountOf(TryEvents(cb), Set(BusReset, 1)) == 1
    ensures CountOf(TryEvents(cb), Callback) == (if cb then 1 else 0)
    ensures CountOf(TryEvents(false), Callback) == 0
    ensures ResetEvents(TryEvents(cb))
  {
    var pulse := [Set(BusReset, 1), Sleep(Pulse), Set(BusReset, 0)];
    var one := [Set(BusReset, 1)];
    var two := [Set(BusReset, 1), Sleep(Pulse)];
    assert one[..0] == [] && two[..1] == one && pulse[..2] == two;
    assert CountOf(one, Set(BusReset, 1)) == 1 && CountOf(one, Callback) == 0;
    assert CountOf(two, Set(BusReset, 1)) == 1 && CountOf(two, Callback) == 0;
    assert CountOf(pulse, Set(BusReset, 1)) == 1 && CountOf(pulse, Callback) == 0;
    var tail: seq<Event> := if cb then [Callback] else [];
    assert cb ==> tail[..0] == [];
    CountOfAppend(pulse, tail, Set(BusReset, 1));
    CountOfAppend(pulse, tail, Callback);
    CountOfAppend(pulse, [], Callback);
    assert pulse + [] == pulse;
  }

  lemma ResetEventsAppend(a: seq<Event>, b: seq<Event>)
    requires ResetEvents(a) && ResetEvents(b)
    ensures ResetEvents(a + b)
  {
    forall i | 0 <= i < |a + b| && (a + b)[i].Set?
      ensures (a + b)[i].field == BusReset
    {
      if i >= |a| {
        assert (a + b)[i] == b[i - |a|];
      } else {
        assert (a + b)[i] == a[i];
      }
    }
  }

  /** The loop's log facts carry over a failed try in front. */
  lemma LogStep(a: seq<Event>, mid: seq<Event>, out: seq<Event>, cb: bool, success: bool, tries: nat)
    requires mid == a + TryEvents(cb) && mid <= out
    requires ResetEvents(out[|mid|..])
    requires CountOf(out[|mid|..], Set(BusReset, 1)) == tries
    requires CountOf(out[|mid|..], Callback) == (if cb then (if success then tries - 1 else tries) else 0)
    requires success ==> tries >= 1
    ensures a <= out && ResetEvents(out[|a|..])
    ensures CountOf(out[|a|..], Set(BusReset, 1)) == tries + 1
    ensures CountOf(out[|a|..], Callback) == (if cb then (if success then tries else tries + 1) else 0)
  {
    var tail := out[|mid|..];
    assert out[|a|..] == TryEvents(cb) + tail;
    TryEventsCount(cb);
    CountOfAppend(TryEvents(cb), tail, Set(BusReset, 1));
    CountOfAppend(TryEvents(cb), tail, Callback);
    ResetEventsAppend(TryEvents(cb), tail);
  }

  /** One try's events, failed or not. */
  lemma TryLog(env: Env, st: State, cb: bool)
    requires Ticking(env.clock)
    ensures Wait(env, PulseSbr(st), LinkTimeout).2.log == st.log + TryEvents(false)
    ensures AddCallback(Wait(env, PulseSbr(st), LinkTimeout).2, cb).log == st.log + TryEvents(cb)
  {
  }

  /** The loop only appends: one reset pulse per try, and the callback
      after each failed try when there is one. */
  lemma {:induction false} AttemptsLog(env: Env, st: State, n: nat, cb: bool)
    requires Ticking(env.clock)
    ensures var r := Attempts(env, st, n, cb);
      && st.log <= r.2.log
      && ResetEvents(r.2.log[|st.log|..])
      && CountOf(r.2.log[|st.log|..], Set(BusReset, 1)) == r.3
      && CountOf(r.2.log[|st.log|..], Callback) == (if cb then (if r.0 then r.3 - 1 else r.3) else 0)
    decreases n
  {
    var r := Attempts(env, st, n, cb);
    if n == 0 {
      assert r.2.log[|st.log|..] == [];
    } else {
      var w := Wait(env, PulseSbr(st), LinkTimeout);
      TryLog(env, st, cb);
      AttemptsStep(env, st, n, cb);
      if w.0 {
        TryEventsCount(false);
        assert r.2.log[|st.log|..] == TryEvents(false);
      } else {
        var mid := AddCallback(w.2, cb);
        var rest := Attempts(env, mid, n - 1, cb);
        AttemptsLog(env, mid, n - 1, cb);
        AttemptsTries(env, mid, n - 1, cb);
        assert r.2 == rest.2 && r.3 == rest.3 + 1 && r.0 == rest.0;
        LogStep(st.log, mid.log, rest.2.log, cb, rest.0, rest.3);
      }
    }
  }

  /** What `toggle_sbr` may find on the bridge. */
  datatype BridgeCaps = BridgeCaps(hasExp: bool, slot: bool, isCx7: bool, hasAcs: bool)

  /** Slot notifications are switched off around the reset. */
  predicate SlotModified(caps: BridgeCaps)
  {
    caps.hasExp && caps.slot
  }

  /** ACS source validation is switched off around the reset: as written,
      on any ConnectX-7 port (`self.has_acs` is a bound method, always
      true); as intended, only when the port has ACS. */
  predicate AcsModified(caps: BridgeCaps, asWritten: bool)
  {
    caps.isCx7 && (asWritten || caps.hasAcs)
  }

  /** Slot notifications off, where there is a slot. */
  function SlotOff(st: State, caps: BridgeCaps): State
  {
    if SlotModified(caps) then SetF(SetF(st, Dllsce, 0), Hpie, 0) else st
  }

  /** Before the retry loop: slot notifications and then ACS source
      validation switched off. */
  function Prepare(st: State, caps: BridgeCaps): State
  {
    var st1 := SlotOff(st, caps);
    if AcsModified(caps, false) then SetF(st1, SourceValidation, 0) else st1
  }

  /** After the retry loop: with a slot, the extra sleep when training beat
      300 ms, the pending slot events cleared and the saved slot control
      written back; then the saved ACS source validation, if it was saved. */
  function Finish(st: State, caps: BridgeCaps, ttt: Option<int>, dll: nat, hpie: nat, sv: Option<nat>): State
  {
    var st1 := if SlotModified(caps) && ttt.Some? && ttt.value < 300_000 then SleepF(st, 300_000 - ttt.value) else st;
    var st2 := if SlotModified(caps) then SetF(SetF(SetF(SetF(st1, Pdc, 1), Dllsc, 1), Dllsce, dll), Hpie, hpie) else st1;
    if sv.Some? then SetF(st2, SourceValidation, sv.value) else st2
  }

  /** `toggle_sbr(retry_count, fail_callback)`, as written (`asWritten`) or
      as intended: the result and the final state. */
  function ToggleSbrSpec(env: Env, st: State, caps: BridgeCaps, retry: nat, cb: bool, asWritten: bool): (Result<bool>, State)
    requires Ticking(env.clock)
  {
    if AcsModified(caps, asWritten) && !caps.hasAcs then
      // `self.acs_ctl` exists only on ports with ACS
      (Err(AttributeError("'PciBridge' object has no attribute 'acs_ctl'")), SlotOff(st, caps))
    else
      var r := Attempts(env, Prepare(st, caps), retry, cb);
      if asWritten && SlotModified(caps) && r.1.None? then
        (Err(UnboundLocalError("local variable 'time_to_train' referenced before assignment")), r.2)
      else
        var sv := if AcsModified(caps, false) then Some(Get(st, SourceValidation)) else None;
        (Ok(r.0), Finish(r.2, caps, r.1, Get(st, Dllsce), Get(st, Hpie), sv))
  }

  /** Switching off writes zeros, so during every reset pulse the slot
      notifications and ACS source validation (where modified) are off. */
  lemma PrepareMeans(st: State, caps: BridgeCaps, f: Field)
    ensures var p := Prepare(st, caps);
      && (SlotModified(caps) ==> Get(p, Dllsce) == 0 && Get(p, Hpie) == 0)
      && (AcsModified(caps, false) ==> Get(p, SourceValidation) == 0)
      && (f != Dllsce && f != Hpie && f != SourceValidation ==> Get(p, f) == Get(st, f))
      && (!SlotModified(caps) && f != SourceValidation ==> Get(p, f) == Get(st, f))
      && (!AcsModified(caps, false) && f == SourceValidation ==> Get(p, f) == Get(st, f))
      && p.log == st.log
        + (if SlotModified(caps) then [Set(Dllsce, 0), Set(Hpie, 0)] else [])
        + (if AcsModified(caps, false) then [Set(SourceValidation, 0)] else [])
  {
  }

  /** What the finishing writes leave in each field. */
  lemma FinishMeans(st: State, caps: BridgeCaps, ttt: Option<int>, dll: nat, hpie: nat, sv: Option<nat>)
    ensures var out := Finish(st, caps, ttt, dll, hpie, sv);
      && Get(out, Dllsce) == (if SlotModified(caps) then dll else Get(st, Dllsce))
      && Get(out, Hpie) == (if SlotModified(caps) then hpie else Get(st, Hpie))
      && Get(out, Pdc) == (if SlotModified(caps) then 1 else Get(st, Pdc))
      && Get(out, Dllsc) == (if SlotModified(caps) then 1 else Get(st, Dllsc))
      && Get(out, SourceValidation) == (if sv.Some? then sv.value else Get(st, SourceValidation))
      && Get(out, BusReset) == Get(st, BusReset)
      && Get(out, LinkDisable) == Get(st, LinkDisable)
      && st.log <= out.log
  {
  }

  /** The intended `toggle_sbr` never raises and returns the retry loop's
      result; slot control and ACS source validation end as they began,
      the pending slot events are cleared where there is a slot, the bus
      reset ends cleared after any try; the log is the switching off, the
      loop's pulses and callbacks, then the restoring. */
  lemma ToggleSbrMeans(env: Env, st: State, caps: BridgeCaps, retry: nat, cb: bool)
    requires Ticking(env.clock)
    ensures var (r, out) := ToggleSbrSpec(env, st, caps, retry, cb, false);
      var loop := Attempts(env, Prepare(st, caps), retry, cb);
      && r == Ok(loop.0)
      && Get(out, Dllsce) == Get(st, Dllsce)
      && Get(out, Hpie) == Get(st, Hpie)
      && Get(out, SourceValidation) == Get(st, SourceValidation)
      && (SlotModified(caps) ==> Get(out, Pdc) == 1 && Get(out, Dllsc) == 1)
      && (!SlotModified(caps) ==> Get(out, Pdc) == Get(st, Pdc) && Get(out, Dllsc) == Get(st, Dllsc))
      && (retry > 0 ==> Get(out, BusReset) == 0)
      && Get(out, LinkDisable) == Get(st, LinkDisable)
      && Prepare(st, caps).log <= loop.2.log <= out.log
      && ResetEvents(loop.2.log[|Prepare(st, caps).log|..])
  {
    var p := Prepare(st, caps);
    var loop := Attempts(env, p, retry, cb);
    var sv := if AcsModified(caps, false) then Some(Get(st, SourceValidation)) else None;
    FinishMeans(loop.2, caps, loop.1, Get(st, Dllsce), Get(st, Hpie), sv);
    AttemptsLog(env, p, retry, cb);
    forall f: Field
      ensures f != BusReset ==> Get(loop.2, f) == Get(p, f)
      ensures retry > 0 && f == BusReset ==> Get(loop.2, f) == 0
    {
      AttemptsFields(env, p, retry, cb, f);
    }
    PrepareMeans(st, caps, Pdc);
    PrepareMeans(st, caps, Dllsc);
    PrepareMeans(st, caps, LinkDisable);
    PrepareMeans(st, caps, SourceValidation);
  }

  /** As written, a bridge with a slot and no tries at all reaches
      `time_to_train` unassigned; as intended it restores the slot and
      reports failure. */
  lemma NoTriesAsWritten(env: Env, st: State, caps: BridgeCaps, cb: bool)
    requires Ticking(env.clock) && SlotModified(caps) && !(caps.isCx7 && !caps.hasAcs)
    ensures ToggleSbrSpec(env, st, caps, 0, cb, true).0 ==
      Err(UnboundLocalError("local variable 'time_to_train' referenced before assignment"))
    ensures ToggleSbrSpec(env, st, caps, 0, cb, false).0 == Ok(false)
  {
  }

  /** As written, a ConnectX-7 port without ACS raises before any reset;
      as intended it resets without touching ACS. */
  lemma Cx7WithoutAcsAsWritten(env: Env, st: State, caps: BridgeCaps, retry: nat, cb: bool)
    requires Ticking(env.clock) && caps.isCx7 && !caps.hasAcs
    ensures ToggleSbrSpec(env, st, caps, retry, cb, true).0 ==
      Err(AttributeError("'PciBridge' object has no attribute 'acs_ctl'"))
    ensures ToggleSbrSpec(env, st, caps, retry, cb, false).0.Ok?
  {
  }

  /** Away from those two inputs the code as written does what was intended. */
  lemma AsWrittenAgrees(env: Env, st: State, caps: BridgeCaps, retry: nat, cb: bool)
    requires Ticking(env.clock)
    requires !(caps.isCx7 && !caps.hasAcs)
    requires retry > 0 || !SlotModified(caps)
    ensures ToggleSbrSpec(env, st, caps, retry, cb, true) == ToggleSbrSpec(env, st, caps, retry, cb, false)
  {
    AttemptsTries(env, Prepare(st, caps), retry, cb);
  }

  // -------------------------------------------------------------------------
  // The bridge

  class PciBridge {
    const env: Env
    const caps: BridgeCaps
    var st: State

    constructor(env: Env, caps: BridgeCaps, st: State)
      ensures this.env == env && this.caps == caps && this.st == st
    {
      this.env := env;
      this.caps := caps;
      this.st := st;
    }

    method SetField(f: Field, v: nat)
      modifies this
      ensures st == SetF(old(st), f, v)
    {
      st := SetF(st, f, v);
    }

    method SleepFor(us: nat)
      modifies this
      ensures st == SleepF(old(st), us)
    {
      st := SleepF(st, us);
    }

    /** `perf_counter()` */
    method ReadClock() returns (t: int)
      modifies this
      ensures t == env.clock(old(st).clockReads) && st == old(st).(clockReads := old(st).clockReads + 1)
    {
      t := env.clock(st.clockReads);
      st := st.(clockReads := st.clockReads + 1);
    }

    /** `link_status._read()` */
    method ReadLinkStatus() returns (s: LinkStatus)
      modifies this
      ensures s == env.status(old(st).statusReads) && st == old(st).(statusReads := old(st).statusReads + 1)
    {
      s := env.status(st.statusReads);
      st := st.(statusReads := st.statusReads + 1);
    }

    /** `toggle_link()` */
    method ToggleLink()
      modifies this
      ensures st == ToggleLinkSpec(old(st))
    {
      SetField(LinkDisable, 1);
      SleepFor(Pulse);
      SetField(LinkDisable, 0);
      SleepFor(Pulse);
    }

    /** `wait_for_link(timeout)` */
    method WaitForLink(timeout: nat) returns (ok: bool, time: int)
      requires Ticking(env.clock)
      modifies this
      ensures (ok, time, st) == Wait(env, old(st), timeout)
    {
      var start := st.clockReads;
      var linkTime := ReadClock();
      while true
        invariant start < st.clockReads && linkTime == env.clock(start)
        invariant st.fields == old(st).fields && st.log == old(st).log
        invariant WaitFrom(env, start, st.clockReads, st.statusReads, timeout)
          == WaitFrom(env, start, start + 1, old(st).statusReads, timeout)
        decreases timeout + env.clock(start) - env.clock(st.clockReads)
      {
        var now := ReadClock();
        if now - linkTime > timeout {
          return false, timeout;
        }
        var s := ReadLinkStatus();
        if s.lt == 1 {
          continue;
        }
        if s.dllla == 0 {
          continue;
        }
        var end := ReadClock();
        return true, end - linkTime;
      }
    }

    /** One try of the retry loop: a reset pulse and the wait. */
    method Try() returns (ok: bool, time: int)
      requires Ticking(env.clock)
      modifies this
      ensures (ok, time, st) == Wait(env, PulseSbr(old(st)), LinkTimeout)
    {
      SetField(BusReset, 1);
      SleepFor(Pulse);
      SetField(BusReset, 0);
      ok, time := WaitForLink(LinkTimeout);
    }

    /** The retry loop of `toggle_sbr`. */
    method RetryLoop(retry: nat, cb: bool) returns (success: bool, ttt: Option<int>)
      requires Ticking(env.clock)
      modifies this
      ensures var r := Attempts(env, old(st), retry, cb);
        success == r.0 && ttt == r.1 && st == r.2
    {
      ghost var whole := Attempts(env, st, retry, cb);
      success := false;
      ttt := None;
      var i := 0;
      while i < retry
        invariant i <= retry && !success
        invariant whole == Lift(Attempts(env, st, retry - i, cb), i, ttt)
      {
        var ok, time, next := Pass(retry, cb, i, whole, ttt);
        ttt := Some(time);
        if ok {
          success := true;
          break;
        }
        i := next;
      }
      if !success {
        AttemptsNone(env, st, cb);
      }
    }

    /** Pass `i` of the retry loop: a try, and the callback when it
        failed; `whole` is the loop's result from its start. */
    method Pass(retry: nat, cb: bool, i: nat, ghost whole: (bool, Option<int>, State, nat), ttt: Option<int>)
      returns (ok: bool, time: int, next: nat)
      requires Ticking(env.clock) && i < retry
      requires whole == Lift(Attempts(env, st, retry - i, cb), i, ttt)
      modifies this
      ensures next == i + 1
      ensures ok ==> whole == (true, Some(time), st, next)
      ensures !ok ==> whole == Lift(Attempts(env, st, retry - next, cb), next, Some(time))
    {
      next := i + 1;
      ghost var now := Attempts(env, st, retry - i, cb);
      AttemptsStep(env, st, retry - i, cb);
      ok, time := Try();
      if ok {
        LiftDone(whole, now, i, ttt, time, st);
      } else {
        if cb {
          st := st.(log := st.log + [Callback]);
        }
        LiftChain(whole, now, Attempts(env, st, retry - next, cb), next, ttt, time);
      }
    }

    /** `toggle_sbr(retry_count, fail_callback)`, as intended: `cb` says
        whether there is a callback. */
    method ToggleSbr(retry: nat, cb: bool) returns (r: Result<bool>)
      requires Ticking(env.clock)
      modifies this
      ensures (r, st) == ToggleSbrSpec(env, old(st), caps, retry, cb, false)
    {
      var savedDll := Get(st, Dllsce);
      var savedHpie := Get(st, Hpie);
      if caps.hasExp && caps.slot {
        SetField(Dllsce, 0);
        SetField(Hpie, 0);
      }
      var savedSv: Option<nat> := None;
      if caps.isCx7 && caps.hasAcs {
        savedSv := Some(Get(st, SourceValidation));
        SetField(SourceValidation, 0);
      }
      var success, ttt := RetryLoop(retry, cb);
      FinishSbr(ttt, savedDll, savedHpie, savedSv);
      r := Ok(success);
    }

    /** The end of `toggle_sbr`: the slot and ACS restoring. */
    method FinishSbr(ttt: Option<int>, dll: nat, hpie: nat, sv: Option<nat>)
      modifies this
      ensures st == Finish(old(st), caps, ttt, dll, hpie, sv)
    {
      if caps.hasExp && caps.slot {
        if ttt.Some? && ttt.value < 300_000 {
          SleepFor(300_000 - ttt.value);
        }
        SetField(Pdc, 1);
        SetField(Dllsc, 1);
        SetField(Dllsce, dll);
        SetField(Hpie, hpie);
      }
      if sv.Some? {
        SetField(SourceValidation, sv.value);
      }
    }
  }
}
