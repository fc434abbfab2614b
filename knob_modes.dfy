/**
 * The composite knob operations of nvidia_gpu_tools.py built on the PRC
 * knob calls of `FspRpc`: `set_cc_mode`, `set_ppcie_mode`,
 * `set_bar0_firewall_mode`, `query_prc_knobs` and the CC-mode register
 * decode.  Each composite operation is a fixed list of
 * `prc_knob_check_and_write` calls run in order until the first error.
 *
 * Next to the oracle of FspRpcs this module defines one concrete firmware,
 * a table of 16-bit knobs: reads answer the stored value, writes store
 * it, and a knob missing from the table answers the invalid-knob code.
 * Against it the module proves what the knobs hold after each operation,
 * and that no intermediate state ever has CCD on with CCM off.
 */
module KnobModes {
  import opened Bits
  import opened Text
  import opened GpuErrors
  import opened FspRpcs
  import Prc

  /** One `prc_knob_check_and_write(knob, value)` call. */
  datatype Assign = Assign(knob: nat, value: nat)

  /** One call as a function of the commands sent before it: its result and
      the commands sent after it. */
  type Step = (seq<Cmd>, Assign) -> (Result<()>, seq<Cmd>)

  /** `prc_knob_check_and_write` on an `FspRpc` whose firmware answers `reply`. */
  function CheckAndWriteStep(reply: Reply): Step
  {
    (s: seq<Cmd>, a: Assign) => CheckAndWrite(reply, s, a.knob, a.value)
  }

  /** Run the calls in order; the first error ends the run. */
  function RunPlan(step: Step, sent: seq<Cmd>, plan: seq<Assign>): (Result<()>, seq<Cmd>)
    decreases |plan|
  {
    if |plan| == 0 then (Ok(()), sent)
    else
      var (r, sent') := step(sent, plan[0]);
      if r.Err? then (r, sent') else RunPlan(step, sent', plan[1..])
  }

  // -----------------------------------------------------------------------
  // What a run sends, whatever the firmware answers

  /** Each call sends a read of its knob, and possibly then a write of its value. */
  ghost predicate StepShape(step: Step)
  {
    forall s: seq<Cmd>, a: Assign :: step(s, a).1 == s + [ReadCmd(a.knob)]
      || step(s, a).1 == s + [ReadCmd(a.knob), WriteCmd(a.knob, a.value)]
  }

  lemma CheckAndWriteShape(reply: Reply)
    ensures StepShape(CheckAndWriteStep(reply))
  {
    forall s: seq<Cmd>, a: Assign
      ensures CheckAndWriteStep(reply)(s, a).1 == s + [ReadCmd(a.knob)]
        || CheckAndWriteStep(reply)(s, a).1 == s + [ReadCmd(a.knob), WriteCmd(a.knob, a.value)]
    {
      CheckAndWriteMeans(reply, s, a.knob, a.value);
    }
  }

  /** The commands of one call: the read, then the write if `write`. */
  function CallCmds(a: Assign, write: bool): seq<Cmd>
  {
    [ReadCmd(a.knob)] + (if write then [WriteCmd(a.knob, a.value)] else [])
  }

  /** The commands of the first `|writes|` calls of `plan`, each call
      writing when `writes` says so. */
  function StepCmds(plan: seq<Assign>, writes: seq<bool>): seq<Cmd>
    requires |writes| <= |plan|
  {
    if |writes| == 0 then [] else CallCmds(plan[0], writes[0]) + StepCmds(plan[1..], writes[1..])
  }

  lemma StepCmdsCons(plan: seq<Assign>, w: bool, ws: seq<bool>)
    requires |ws| < |plan|
    ensures StepCmds(plan, [w] + ws) == CallCmds(plan[0], w) + StepCmds(plan[1..], ws)
  {
    assert ([w] + ws)[1..] == ws;
  }

  /** Running `p + q` is running `p`, then `q` if `p` succeeded. */
  lemma {:induction false} RunPlanAppend(step: Step, sent: seq<Cmd>, p: seq<Assign>, q: seq<Assign>)
    ensures RunPlan(step, sent, p + q) ==
      var (r1, s1) := RunPlan(step, sent, p);
      if r1.Err? then (r1, s1) else RunPlan(step, s1, q)
    decreases |p|
  {
    if |p| == 0 {
      assert p + q == q;
    } else {
      assert (p + q)[0] == p[0];
      assert (p + q)[1..] == p[1..] + q;
      var (r0, s0) := step(sent, p[0]);
      if r0.Ok? {
        RunPlanAppend(step, s0, p[1..], q);
        assert RunPlan(step, sent, p) == RunPlan(step, s0, p[1..]);
        assert RunPlan(step, sent, p + q) == RunPlan(step, s0, p[1..] + q);
      } else {
        assert RunPlan(step, sent, p) == (r0, s0);
        assert RunPlan(step, sent, p + q) == (r0, s0);
      }
    }
  }

  lemma RunPlanOne(step: Step, sent: seq<Cmd>, a: Assign)
    ensures RunPlan(step, sent, [a]) == step(sent, a)
  {
    assert [a][1..] == [];
    var (r, s1) := step(sent, a);
    if r.Ok? {
      assert RunPlan(step, s1, []) == (Ok(()), s1);
      assert r.value == ();
    }
  }

  /** A run of `[a] + rest`: the call for `a`, then the rest if it succeeded. */
  lemma RunPlanCons(step: Step, sent: seq<Cmd>, a: Assign, rest: seq<Assign>)
    ensures RunPlan(step, sent, [a] + rest) ==
      var (r1, s1) := step(sent, a);
      if r1.Err? then (r1, s1) else RunPlan(step, s1, rest)
  {
    assert ([a] + rest)[0] == a;
    assert ([a] + rest)[1..] == rest;
  }

  lemma AppendAssoc<T>(a: seq<T>, b: seq<T>, c: seq<T>)
    ensures a + b + c == a + (b + c)
  {
  }

  /** A run sends the calls' reads and writes in the order of the plan, and
      it runs every call when it succeeds. */
  lemma {:induction false} RunPlanShape(step: Step, sent: seq<Cmd>, plan: seq<Assign>)
    requires StepShape(step)
    ensures var (r, out) := RunPlan(step, sent, plan);
      exists writes: seq<bool> | |writes| <= |plan| ::
        out == sent + StepCmds(plan, writes) && (r.Ok? ==> |writes| == |plan|)
    decreases |plan|
  {
    var (r, out) := RunPlan(step, sent, plan);
    if |plan| == 0 {
      assert out == sent + StepCmds(plan, []);
    } else {
      var p := plan[0];
      var (r1, s1) := step(sent, p);
      var w := s1 != sent + [ReadCmd(p.knob)];
      assert s1 == sent + CallCmds(p, w);
      if r1.Err? {
        StepCmdsCons(plan, w, []);
        assert out == sent + StepCmds(plan, [w]);
      } else {
        RunPlanShape(step, s1, plan[1..]);
        var ws: seq<bool> :| |ws| <= |plan[1..]| && out == s1 + StepCmds(plan[1..], ws)
          && (r.Ok? ==> |ws| == |plan[1..]|);
        StepCmdsCons(plan, w, ws);
        AppendAssoc(sent, CallCmds(p, w), StepCmds(plan[1..], ws));
        assert out == sent + StepCmds(plan, [w] + ws);
      }
    }
  }

  /** A run only appends to the commands sent before it. */
  lemma {:induction false} RunPlanExtends(step: Step, sent: seq<Cmd>, plan: seq<Assign>)
    requires StepShape(step)
    ensures var out := RunPlan(step, sent, plan).1;
      |sent| <= |out| && out[..|sent|] == sent
    decreases |plan|
  {
    if |plan| != 0 {
      var (r1, s1) := step(sent, plan[0]);
      PrefixOne(sent, ReadCmd(plan[0].knob));
      PrefixPair(sent, ReadCmd(plan[0].knob), WriteCmd(plan[0].knob, plan[0].value));
      if r1.Ok? {
        RunPlanExtends(step, s1, plan[1..]);
        PrefixOfPrefix(sent, s1, RunPlan(step, s1, plan[1..]).1);
      }
    }
  }

  lemma PrefixOne<T>(s: seq<T>, x: T)
    ensures (s + [x])[..|s|] == s
  {
  }

  lemma PrefixPair<T>(s: seq<T>, x: T, y: T)
    ensures (s + [x, y])[..|s|] == s && (s + [x, y])[..|s| + 1] == s + [x]
  {
  }

  lemma PrefixOfPrefix<T>(a: seq<T>, b: seq<T>, c: seq<T>)
    requires |a| <= |b| <= |c| && b[..|a|] == a && c[..|b|] == b
    ensures c[..|a|] == a
  {
    assert c[..|a|] == c[..|b|][..|a|];
  }

  lemma Snoc2<T>(s: seq<T>, x: T, y: T)
    ensures s + [x] + [y] == s + [x, y]
  {
  }

  // -----------------------------------------------------------------------
  // A firmware that keeps its knobs in a table

  type Table = map<nat, nat>

  /** Every stored knob value fits the 16 bits a read returns. */
  predicate Table16(t: Table)
  {
    forall id :: id in t ==> t[id] < 0x1_0000
  }

  /** The knob a command reads, when it is a knob read. */
  function ReadOf(c: Cmd): Option<nat>
  {
    if c.nvdmType == PrcType && |c.data| == 1 && c.data[0] % 0x1_0000 == 0x20c
    then Some(c.data[0] / 0x1_0000) else None
  }

  /** The knob and value a command writes, when it is a knob write. */
  function WriteOf(c: Cmd): Option<Assign>
  {
    if c.nvdmType == PrcType && |c.data| == 2 && c.data[0] % 0x1_0000 == 0x20d
    then Some(Assign(c.data[0] / 0x1_0000, c.data[1])) else None
  }

  /** The firmware tells knob reads and writes apart and recovers their
      arguments from the words `prc_knob_read` and `prc_knob_write` send. */
  lemma DecodeKnobCmds(id: nat, value: nat)
    ensures ReadOf(ReadCmd(id)) == Some(id) && WriteOf(ReadCmd(id)) == None
    ensures WriteOf(WriteCmd(id, value)) == Some(Assign(id, value)) && ReadOf(WriteCmd(id, value)) == None
  {
    DivUnique(0x20c + id * 0x1_0000, 0x1_0000, id, 0x20c);
    DivUnique(0x20d + id * 0x1_0000, 0x1_0000, id, 0x20d);
  }

  /** The table after one command: a write of a known knob stores the value's
      low 16 bits; everything else leaves the table alone. */
  function Apply(t: Table, c: Cmd): Table
  {
    match WriteOf(c)
    case Some(a) => if a.knob in t then t[a.knob := a.value % 0x1_0000] else t
    case None => t
  }

  /** The table after the commands `cmds`, starting from `init`. */
  function TableAfter(init: Table, cmds: seq<Cmd>): Table
  {
    if |cmds| == 0 then init else Apply(TableAfter(init, cmds[..|cmds| - 1]), cmds[|cmds| - 1])
  }

  /** A reply to a command of NVDM type `t`: MCTP header, message header of
      NVDM type 0x15, a spare word, the echoed type, the code, the data. */
  function Response(t: nat, code: nat, data: seq<nat>): seq<nat>
  {
    [0xc000_0000, MessageWord(0x15), 0, t, code] + data
  }

  /** The firmware's reply to command `c` given the table `t`. */
  function Answer(t: Table, c: Cmd): seq<nat>
  {
    match ReadOf(c)
    case Some(id) =>
      if id in t then Response(c.nvdmType, 0, [t[id]]) else Response(c.nvdmType, InvalidKnobCode, [])
    case None =>
      match WriteOf(c)
      case Some(a) => Response(c.nvdmType, if a.knob in t then 0 else InvalidKnobCode, [])
      case None => Response(c.nvdmType, 0, [])
  }

  /** The table firmware, as a reply oracle. */
  function Firmware(init: Table): Reply
  {
    (s: seq<Cmd>) => if |s| == 0 then Ok([]) else Ok(Answer(TableAfter(init, s[..|s| - 1]), s[|s| - 1]))
  }

  /** The firmware's replies pass the checks of `send_cmd`: a zero code
      gives the data, any other code raises `FspRpcError`. */
  lemma ResponseChecks(t: nat, code: nat, data: seq<nat>)
    ensures CheckResponse(t, Response(t, code, data)) ==
      if code == 0 then Ok(data) else Err(FspRpcError(RpcName, code, Response(t, code, data)))
  {
    var m := Response(t, code, data);
    ReplyType();
    assert m[1] == MessageWord(0x15) && m[5..] == data;
  }

  lemma ReplyType()
    ensures NvdmTypeOf(MessageWord(0x15)) == 0x15
  {
    FieldIsDivMod(MessageWord(0x15), 24, 8);
    Pow2Values();
    DivUnique(MessageWord(0x15), 0x100_0000, 0x15, 0x0010_de7e);
  }

  /** The error the table firmware's invalid-knob reply raises. */
  function InvalidKnobReply(): Error
  {
    FspRpcError(RpcName, InvalidKnobCode, Response(PrcType, InvalidKnobCode, []))
  }

  lemma And16(x: nat)
    requires x < 0x1_0000
    ensures And(x, 0xffff) == x
  {
    AndLowMask(x, 16);
    Pow2Values();
    DivUnique(x, 0x1_0000, 0, x);
  }

  /** A synchronous command sent to the table firmware is answered from the
      table the earlier commands left, and only writes change the table. */
  lemma SendToTable(init: Table, sent: seq<Cmd>, c: Cmd)
    requires c.sync
    ensures Send(Firmware(init), sent, c.nvdmType, c.data, true)
      == (CheckResponse(c.nvdmType, Answer(TableAfter(init, sent), c)), sent + [c])
    ensures TableAfter(init, sent + [c]) == Apply(TableAfter(init, sent), c)
  {
    var out := sent + [c];
    assert out[..|out| - 1] == sent;
    assert Cmd(c.nvdmType, c.data, true) == c;
  }

  /** Against the table firmware a knob read sends one read and answers the
      stored value, or the invalid-knob error when the knob is not in the
      table; it changes nothing. */
  lemma KnobReadOnTable(init: Table, sent: seq<Cmd>, id: nat)
    requires Table16(TableAfter(init, sent))
    ensures KnobRead(Firmware(init), sent, id) ==
      var t := TableAfter(init, sent);
      (if id in t then Ok(t[id]) else Err(InvalidKnobReply()), sent + [ReadCmd(id)])
    ensures TableAfter(init, sent + [ReadCmd(id)]) == TableAfter(init, sent)
  {
    var t := TableAfter(init, sent);
    SendToTable(init, sent, ReadCmd(id));
    DecodeKnobCmds(id, 0);
    var m := Answer(t, ReadCmd(id));
    if id in t {
      assert m == Response(PrcType, 0, [t[id]]);
      ResponseChecks(PrcType, 0, [t[id]]);
      And16(t[id]);
    } else {
      assert m == Response(PrcType, InvalidKnobCode, []);
      ResponseChecks(PrcType, InvalidKnobCode, []);
    }
  }

  /** Against the table firmware a knob write sends one write and stores the
      value's low 16 bits when the knob exists; otherwise it fails with the
      invalid-knob error and the table is unchanged. */
  lemma KnobWriteOnTable(init: Table, sent: seq<Cmd>, id: nat, value: nat)
    ensures KnobWrite(Firmware(init), sent, id, value) ==
      (if id in TableAfter(init, sent) then Ok(()) else Err(InvalidKnobReply()), sent + [WriteCmd(id, value)])
    ensures TableAfter(init, sent + [WriteCmd(id, value)]) ==
      var t := TableAfter(init, sent);
      if id in t then t[id := value % 0x1_0000] else t
  {
    var t := TableAfter(init, sent);
    var c := WriteCmd(id, value);
    SendToTable(init, sent, c);
    DecodeKnobCmds(id, value);
    var m := Answer(t, c);
    if id in t {
      assert m == Response(PrcType, 0, []);
      ResponseChecks(PrcType, 0, []);
    } else {
      assert m == Response(PrcType, InvalidKnobCode, []);
      ResponseChecks(PrcType, InvalidKnobCode, []);
    }
  }

  /** Against the table firmware `check_and_write` reads, and writes only
      when the stored value differs; it fails with the invalid-knob error
      exactly when the knob is not in the table. */
  lemma CheckAndWriteOnTable(init: Table, sent: seq<Cmd>, id: nat, value: nat)
    requires Table16(TableAfter(init, sent))
    ensures CheckAndWrite(Firmware(init), sent, id, value) ==
      var t := TableAfter(init, sent);
      if id !in t then (Err(InvalidKnobReply()), sent + [ReadCmd(id)])
      else if t[id] != value then (Ok(()), sent + [ReadCmd(id), WriteCmd(id, value)])
      else (Ok(()), sent + [ReadCmd(id)])
  {
    var t := TableAfter(init, sent);
    KnobReadOnTable(init, sent, id);
    var s1 := sent + [ReadCmd(id)];
    if id in t && t[id] != value {
      KnobWriteOnTable(init, s1, id, value);
      Snoc2(sent, ReadCmd(id), WriteCmd(id, value));
    }
  }

  /** What `check_and_write` does against the table firmware, in terms of
      the table `t` the earlier commands left. */
  function CallOnTable(t: Table, s: seq<Cmd>, a: Assign): (Result<()>, seq<Cmd>)
  {
    if a.knob !in t then (Err(InvalidKnobReply()), s + [ReadCmd(a.knob)])
    else if t[a.knob] != a.value then (Ok(()), s + [ReadCmd(a.knob), WriteCmd(a.knob, a.value)])
    else (Ok(()), s + [ReadCmd(a.knob)])
  }

  /** The step behaves like the table firmware's `check_and_write`. */
  ghost predicate TableStep(step: Step, init: Table)
  {
    forall s: seq<Cmd>, a: Assign | Table16(TableAfter(init, s)) ::
      step(s, a) == CallOnTable(TableAfter(init, s), s, a)
  }

  lemma FirmwareStep(init: Table)
    ensures TableStep(CheckAndWriteStep(Firmware(init)), init)
  {
    forall s: seq<Cmd>, a: Assign | Table16(TableAfter(init, s))
      ensures CheckAndWriteStep(Firmware(init))(s, a) == CallOnTable(TableAfter(init, s), s, a)
    {
      CheckAndWriteOnTable(init, s, a.knob, a.value);
    }
  }

  /** The tables along one call: the table before it until its last command,
      and after it the knob holds the value when the knob exists. */
  lemma TablesAlongCall(init: Table, s: seq<Cmd>, a: Assign)
    requires Table16(TableAfter(init, s)) && a.value < 0x1_0000
    ensures var t := TableAfter(init, s);
      var out := CallOnTable(t, s, a).1;
      (TableAfter(init, out) == if a.knob in t then t[a.knob := a.value] else t)
      && (forall k | |s| <= k < |out| :: TableAfter(init, out[..k]) == t)
      && Table16(TableAfter(init, out))
  {
    var t := TableAfter(init, s);
    var r := ReadCmd(a.knob);
    var w := WriteCmd(a.knob, a.value);
    TableAfterRead(init, s, a.knob);
    PrefixOne(s, r);
    PrefixPair(s, r, w);
    if a.knob in t && t[a.knob] != a.value {
      TableAfterWrite(init, s + [r], a.knob, a.value);
      Snoc2(s, r, w);
      DivUnique(a.value, 0x1_0000, 0, a.value);
    } else if a.knob in t {
      assert t[a.knob := a.value] == t;
    }
  }

  /** A read leaves the table alone. */
  lemma TableAfterRead(init: Table, s: seq<Cmd>, id: nat)
    ensures TableAfter(init, s + [ReadCmd(id)]) == TableAfter(init, s)
  {
    DecodeKnobCmds(id, 0);
    assert (s + [ReadCmd(id)])[..|s|] == s;
  }

  /** A write stores the value's low 16 bits when the knob exists. */
  lemma TableAfterWrite(init: Table, s: seq<Cmd>, id: nat, value: nat)
    ensures TableAfter(init, s + [WriteCmd(id, value)]) ==
      var t := TableAfter(init, s);
      if id in t then t[id := value % 0x1_0000] else t
  {
    DecodeKnobCmds(id, value);
    assert (s + [WriteCmd(id, value)])[..|s|] == s;
  }

  // -----------------------------------------------------------------------
  // Runs against the table firmware

  /** The table once every call of the plan has stored its value. */
  function Update(t: Table, plan: seq<Assign>): Table
    decreases |plan|
  {
    if |plan| == 0 then t else Update(t[plan[0].knob := plan[0].value], plan[1..])
  }

  predicate Values16(plan: seq<Assign>)
  {
    forall i | 0 <= i < |plan| :: plan[i].value < 0x1_0000
  }

  /** The calls before `j` all name knobs of the table. */
  predicate AllKnown(t: Table, plan: seq<Assign>, j: nat)
    requires j <= |plan|
  {
    forall i | 0 <= i < j :: plan[i].knob in t
  }

  lemma UpdateFront(t: Table, a: Assign, rest: seq<Assign>)
    ensures Update(t, [a] + rest) == Update(t[a.knob := a.value], rest)
  {
    assert ([a] + rest)[1..] == rest;
  }

  lemma {:induction false} UpdateAppend(t: Table, a: seq<Assign>, b: seq<Assign>)
    ensures Update(t, a + b) == Update(Update(t, a), b)
    decreases |a|
  {
    if |a| != 0 {
      assert (a + b)[1..] == a[1..] + b;
      UpdateAppend(t[a[0].knob := a[0].value], a[1..], b);
    } else {
      assert a + b == b;
    }
  }

  /** Knob values the plan does not name are left as they were. */
  lemma {:induction false} UpdateOther(t: Table, plan: seq<Assign>, id: nat)
    requires forall i | 0 <= i < |plan| :: plan[i].knob != id
    ensures id in Update(t, plan) <==> id in t
    ensures id in t ==> Update(t, plan)[id] == t[id]
    decreases |plan|
  {
    if |plan| != 0 {
      UpdateOther(t[plan[0].knob := plan[0].value], plan[1..], id);
    }
  }

  lemma AllKnownFront(t: Table, plan: seq<Assign>, j: nat)
    requires |plan| != 0 && plan[0].knob in t && j < |plan|
    ensures AllKnown(t[plan[0].knob := plan[0].value], plan[1..], j) <==> AllKnown(t, plan, j + 1)
  {
  }

  /** Against the table firmware a run of check-and-write calls succeeds
      exactly when every knob it names exists, and then leaves each at its
      value; otherwise it fails with the invalid-knob error. */
  lemma {:induction false} RunPlanOnTable(step: Step, init: Table, sent: seq<Cmd>, plan: seq<Assign>)
    requires TableStep(step, init)
    requires Table16(TableAfter(init, sent)) && Values16(plan)
    ensures var (r, out) := RunPlan(step, sent, plan);
      var t := TableAfter(init, sent);
      (r.Ok? <==> AllKnown(t, plan, |plan|))
      && (r.Ok? ==> TableAfter(init, out) == Update(t, plan))
      && (r.Err? ==> r.error == InvalidKnobReply())
    decreases |plan|
  {
    var t := TableAfter(init, sent);
    if |plan| != 0 {
      var p := plan[0];
      var s1 := step(sent, p).1;
      TablesAlongCall(init, sent, p);
      if p.knob in t {
        RunPlanOnTable(step, init, s1, plan[1..]);
        AllKnownFront(t, plan, |plan| - 1);
        UpdateFront(t, p, plan[1..]);
        assert [p] + plan[1..] == plan;
      }
    }
  }

  /** Whatever holds of the table after every prefix of the plan the run
      can reach holds of every table along the run. */
  lemma {:induction false} RunPlanKeeps(step: Step, init: Table, sent: seq<Cmd>, plan: seq<Assign>, P: Table -> bool)
    requires TableStep(step, init) && StepShape(step)
    requires Table16(TableAfter(init, sent)) && Values16(plan)
    requires forall j | 0 <= j <= |plan| && AllKnown(TableAfter(init, sent), plan, j) ::
      P(Update(TableAfter(init, sent), plan[..j]))
    ensures var out := RunPlan(step, sent, plan).1;
      forall k | |sent| <= k <= |out| :: P(TableAfter(init, out[..k]))
    decreases |plan|
  {
    var t := TableAfter(init, sent);
    var out := RunPlan(step, sent, plan).1;
    assert plan[..0] == [];
    assert AllKnown(t, plan, 0) && Update(t, plan[..0]) == t;
    if |plan| == 0 {
      forall k | |sent| <= k <= |out|
        ensures P(TableAfter(init, out[..k]))
      {
        assert out[..k] == sent;
      }
    } else {
      var p := plan[0];
      var (r1, s1) := step(sent, p);
      TablesAlongCall(init, sent, p);
      RunPlanExtends(step, sent, plan);
      if p.knob !in t {
        assert out == s1;
        forall k | |sent| <= k <= |out|
          ensures P(TableAfter(init, out[..k]))
        {
          if k == |out| {
            assert out[..k] == s1;
          }
        }
      } else {
        var t1 := t[p.knob := p.value];
        RunPlanExtends(step, s1, plan[1..]);
        forall j | 0 <= j <= |plan[1..]| && AllKnown(t1, plan[1..], j)
          ensures P(Update(t1, plan[1..][..j]))
        {
          AllKnownFront(t, plan, j);
          assert plan[..j + 1] == [p] + plan[1..][..j];
          UpdateFront(t, p, plan[1..][..j]);
        }
        RunPlanKeeps(step, init, s1, plan[1..], P);
        forall k | |sent| <= k < |s1|
          ensures P(TableAfter(init, out[..k]))
        {
          assert out[..k] == s1[..k];
        }
      }
    }
  }

  // -----------------------------------------------------------------------
  // query_prc_knobs

  /** What `query_prc_knobs` reports for a knob: its value, or "invalid"
      where the firmware answers the invalid-knob code. */
  datatype KnobState = Value(value: nat) | Invalid

  /** The `PrcKnob` values in enum order. */
  function KnobIds(): (r: seq<nat>)
    ensures |r| == 46 && forall i :: 0 <= i < |r| ==> r[i] == i + 1
  {
    Prc.KnobIdsAreOneTo46();
    seq(|Prc.Knobs|, i requires 0 <= i < |Prc.Knobs| => Prc.Knobs[i].1)
  }

  /** One `prc_knob_read(id)` as a function of the commands sent before it. */
  type ReadStep = (seq<Cmd>, nat) -> (Result<nat>, seq<Cmd>)

  /** `prc_knob_read` on an `FspRpc` whose firmware answers `reply`. */
  function KnobReadStep(reply: Reply): ReadStep
  {
    (s: seq<Cmd>, id: nat) => KnobRead(reply, s, id)
  }

  /** The knobs of `ids` read in order, each reported under `name(id)`; an
      error other than invalid-knob ends the reads and is raised. */
  function QueryKnobs(read: ReadStep, name: nat -> string, sent: seq<Cmd>, ids: seq<nat>): (Result<seq<(string, KnobState)>>, seq<Cmd>)
    decreases |ids|
  {
    if |ids| == 0 then (Ok([]), sent)
    else
      var (r, s1) := QueryKnobs(read, name, sent, ids[..|ids| - 1]);
      if r.Err? then (r, s1)
      else
        var id := ids[|ids| - 1];
        var (v, s2) := read(s1, id);
        if v.Ok? then (Ok(r.value + [(name(id), Value(v.value))]), s2)
        else if IsInvalidKnob(v.error) then (Ok(r.value + [(name(id), Invalid)]), s2)
        else (Err(v.error), s2)
  }

  /** One read command per knob of `ids`, in order. */
  function Reads(ids: seq<nat>): (r: seq<Cmd>)
    ensures |r| == |ids| && forall i :: 0 <= i < |ids| ==> r[i] == ReadCmd(ids[i])
  {
    seq(|ids|, i requires 0 <= i < |ids| => ReadCmd(ids[i]))
  }

  lemma ReadsSnoc(ids: seq<nat>)
    requires |ids| != 0
    ensures Reads(ids) == Reads(ids[..|ids| - 1]) + [ReadCmd(ids[|ids| - 1])]
  {
  }

  /** Each read sends exactly the read command of its knob. */
  ghost predicate ReadShape(read: ReadStep)
  {
    forall s: seq<Cmd>, id: nat :: read(s, id).1 == s + [ReadCmd(id)]
  }

  lemma KnobReadShape(reply: Reply)
    ensures ReadShape(KnobReadStep(reply))
  {
    forall s: seq<Cmd>, id: nat
      ensures KnobReadStep(reply)(s, id).1 == s + [ReadCmd(id)]
    {
      KnobReadMeans(reply, s, id);
    }
  }

  /** Whatever the firmware answers, the query only reads: on success one
      read of each knob in order; an error ends the reads at the knob that
      raised it, and is never the invalid-knob error. */
  lemma {:induction false} QueryKnobsSends(read: ReadStep, name: nat -> string, sent: seq<Cmd>, ids: seq<nat>)
    requires ReadShape(read)
    ensures var (r, out) := QueryKnobs(read, name, sent, ids);
      (r.Ok? ==> out == sent + Reads(ids))
      && (r.Err? ==> !IsInvalidKnob(r.error) && exists k :: 0 < k <= |ids| && out == sent + Reads(ids[..k]))
    decreases |ids|
  {
    if |ids| != 0 {
      var n := |ids| - 1;
      var init := ids[..n];
      QueryKnobsSends(read, name, sent, init);
      var (r, s1) := QueryKnobs(read, name, sent, init);
      if r.Err? {
        var k :| 0 < k <= |init| && s1 == sent + Reads(init[..k]);
        assert init[..k] == ids[..k];
      } else {
        ReadsSnoc(ids);
        assert ids[..n + 1] == ids;
        assert sent + Reads(init) + [ReadCmd(ids[n])] == sent + Reads(ids);
      }
    }
  }

  /** The query of the first `i + 1` knobs: the first `i`, then knob `i`. */
  lemma QueryKnobsNext(read: ReadStep, name: nat -> string, sent: seq<Cmd>, ids: seq<nat>, i: nat)
    requires i < |ids|
    ensures QueryKnobs(read, name, sent, ids[..i + 1]) ==
      var (r, s1) := QueryKnobs(read, name, sent, ids[..i]);
      if r.Err? then (r, s1)
      else
        var (v, s2) := read(s1, ids[i]);
        if v.Ok? then (Ok(r.value + [(name(ids[i]), Value(v.value))]), s2)
        else if IsInvalidKnob(v.error) then (Ok(r.value + [(name(ids[i]), Invalid)]), s2)
        else (Err(v.error), s2)
  {
    assert ids[..i + 1][..i] == ids[..i];
  }

  /** An error ends the query: no knob after the failing one is read. */
  lemma {:induction false} QueryKnobsStops(read: ReadStep, name: nat -> string, sent: seq<Cmd>, ids: seq<nat>, k: nat)
    requires k <= |ids| && QueryKnobs(read, name, sent, ids[..k]).0.Err?
    ensures QueryKnobs(read, name, sent, ids) == QueryKnobs(read, name, sent, ids[..k])
    decreases |ids|
  {
    if k == |ids| {
      assert ids[..k] == ids;
    } else {
      var n := |ids| - 1;
      assert ids[..n][..k] == ids[..k];
      QueryKnobsStops(read, name, sent, ids[..n], k);
    }
  }

  /** A successful query has one entry per knob, in order, named by
      `name`. */
  lemma {:induction false} QueryKnobsNames(read: ReadStep, name: nat -> string, sent: seq<Cmd>, ids: seq<nat>)
    ensures var r := QueryKnobs(read, name, sent, ids).0;
      r.Ok? ==> |r.value| == |ids| && forall i :: 0 <= i < |ids| ==> r.value[i].0 == name(ids[i])
    decreases |ids|
  {
    if |ids| != 0 {
      var n := |ids| - 1;
      QueryKnobsNames(read, name, sent, ids[..n]);
      var (r, s1) := QueryKnobs(read, name, sent, ids[..n]);
      var (v, s2) := read(s1, ids[n]);
      if r.Ok? && (v.Ok? || IsInvalidKnob(v.error)) {
        var e := (name(ids[n]), if v.Ok? then Value(v.value) else Invalid);
        assert QueryKnobs(read, name, sent, ids).0 == Ok(r.value + [e]);
        forall i | 0 <= i < |ids|
          ensures (r.value + [e])[i].0 == name(ids[i])
        {
          if i < n {
            assert (r.value + [e])[i] == r.value[i];
            assert r.value[i].0 == name(ids[..n][i]);
            assert ids[..n][i] == ids[i];
          } else {
            assert (r.value + [e])[i] == e;
          }
        }
      } else {
        assert QueryKnobs(read, name, sent, ids).0.Err?;
      }
    }
  }

  /** What the query reports for knob `id` of table `t`. */
  function StateOn(t: Table, id: nat): KnobState
  {
    if id in t then Value(t[id]) else Invalid
  }

  /** Each read of the table firmware answers the stored value, or the
      invalid-knob error for a knob the table lacks. */
  ghost predicate ReadOnTable(read: ReadStep, init: Table)
  {
    forall s: seq<Cmd>, id: nat | Table16(TableAfter(init, s)) ::
      read(s, id) ==
        var t := TableAfter(init, s);
        (if id in t then Ok(t[id]) else Err(InvalidKnobReply()), s + [ReadCmd(id)])
  }

  lemma FirmwareRead(init: Table)
    ensures ReadOnTable(KnobReadStep(Firmware(init)), init)
  {
    forall s: seq<Cmd>, id: nat | Table16(TableAfter(init, s))
      ensures KnobReadStep(Firmware(init))(s, id) ==
        var t := TableAfter(init, s);
        (if id in t then Ok(t[id]) else Err(InvalidKnobReply()), s + [ReadCmd(id)])
    {
      KnobReadOnTable(init, s, id);
    }
  }

  /** On the table firmware the reads never fail: each knob reports its
      table value, or "invalid" when the firmware lacks it. */
  lemma {:induction false} QueryKnobsOnTable(read: ReadStep, name: nat -> string, init: Table, sent: seq<Cmd>, ids: seq<nat>)
    requires ReadOnTable(read, init) && Table16(TableAfter(init, sent))
    ensures var (r, out) := QueryKnobs(read, name, sent, ids);
      var t := TableAfter(init, sent);
      r.Ok? && |r.value| == |ids| && (forall i :: 0 <= i < |ids| ==> r.value[i].1 == StateOn(t, ids[i]))
      && TableAfter(init, out) == t
    decreases |ids|
  {
    if |ids| != 0 {
      var n := |ids| - 1;
      var t := TableAfter(init, sent);
      QueryKnobsOnTable(read, name, init, sent, ids[..n]);
      var (r, s1) := QueryKnobs(read, name, sent, ids[..n]);
      TableAfterRead(init, s1, ids[n]);
      assert IsInvalidKnob(InvalidKnobReply());
      var e := (name(ids[n]), StateOn(t, ids[n]));
      assert QueryKnobs(read, name, sent, ids) == (Ok(r.value + [e]), s1 + [ReadCmd(ids[n])]);
      forall i | 0 <= i < |ids|
        ensures (r.value + [e])[i].1 == StateOn(t, ids[i])
      {
        if i < n {
          assert ids[..n][i] == ids[i];
        }
      }
    }
  }
}
