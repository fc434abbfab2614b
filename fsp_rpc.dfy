/**
 * `FspRpc` (nvidia_gpu_tools.py): how a command is cut into MCTP packets,
 * how the reply is checked, and the PRC (platform reconfiguration)
 * sub-commands built on top of it.
 *
 * The transport under `FspRpc` (the EMEM queue or the MNOC mailbox, each
 * modelled in its own module) is seen here through what it carries: every
 * packet handed to `send_data` is appended to `packets`, and what
 * `receive_data` returns is an oracle, `reply`, of every command sent so
 * far.  An `Err` reply stands for a transport failure such as a timeout.
 */
module FspRpcs {
  import opened Bits
  import opened Text
  import opened GpuErrors
  import opened IntsToBytes
  import opened NiceStructs
  import opened FspMctp

  function Min(a: nat, b: nat): nat
  {
    if a < b then a else b
  }

  /** `s[n:]` in Python: empty once `n` is past the end. */
  function Drop<T>(s: seq<T>, n: nat): seq<T>
  {
    if n <= |s| then s[n..] else []
  }

  // -----------------------------------------------------------------------
  // The two header words

  /** `MctpHeader.to_int()` of a header that differs from the default only in
      start of message, end of message and sequence number: bit 31 is `som`,
      bit 30 `eom`, bits 29:28 `seq`. */
  function HeaderWord(som: nat, eom: nat, sq: nat): nat
  {
    (if sq % 4 == 0 then 0 else if sq % 4 == 1 then 0x1000_0000 else if sq % 4 == 2 then 0x2000_0000 else 0x3000_0000)
    + (if eom % 2 == 1 then 0x4000_0000 else 0) + (if som % 2 == 1 then 0x8000_0000 else 0)
  }

  /** `MctpMessageHeader.to_int()` of the default header with NVDM type `t`. */
  function MessageWord(t: nat): nat
  {
    0x0010_de7e + (t % 0x100) * 0x100_0000
  }

  /** The transport header `send_cmd` builds is the default `MctpHeader` with
      `seid` zeroed and `som`, `eom`, `seq` assigned; `to_int()` of it is
      `HeaderWord`. */
  lemma HeaderWordIsToInt(a: map<string, Value>, som: nat, eom: nat, sq: nat)
    requires DefaultMctpHeader(a)
    ensures var h := a["seid" := IntVal(0)]["som" := IntVal(som)]["eom" := IntVal(eom)]["seq" := IntVal(sq)];
      SingleInt(MctpHeaderFields, [IntFmt(4)], h, false, 4) == Ok(HeaderWord(som, eom, sq))
  {
    var h := a["seid" := IntVal(0)]["som" := IntVal(som)]["eom" := IntVal(eom)]["seq" := IntVal(sq)];
    HeaderWordValue(a, som, eom, sq);
    MctpHeaderToInt(h);
  }

  lemma HeaderWordValue(a: map<string, Value>, som: nat, eom: nat, sq: nat)
    requires DefaultMctpHeader(a)
    ensures var h := a["seid" := IntVal(0)]["som" := IntVal(som)]["eom" := IntVal(eom)]["seq" := IntVal(sq)];
      MctpHeaderInts(h) && MctpHeaderWord(h) == HeaderWord(som, eom, sq)
  {
  }

  /** `to_int()` of the message header with `nvdm_type` assigned is `MessageWord`. */
  lemma MessageWordIsToInt(a: map<string, Value>, t: nat)
    requires DefaultMessageHeader(a, 0)
    ensures SingleInt(MctpMessageHeaderFields, [IntFmt(4)], a["nvdm_type" := IntVal(t)], false, 4) == Ok(MessageWord(t))
  {
    MessageWordValue(a, t);
    MctpMessageHeaderToInt(a["nvdm_type" := IntVal(t)]);
  }

  lemma MessageWordValue(a: map<string, Value>, t: nat)
    requires DefaultMessageHeader(a, 0)
    ensures MctpMessageHeaderInts(a["nvdm_type" := IntVal(t)])
    ensures MctpMessageHeaderWord(a["nvdm_type" := IntVal(t)]) == MessageWord(t)
  {
  }

  /** The header word keeps the three fields apart: each reads back from its bits. */
  lemma HeaderWordFields(som: nat, eom: nat, sq: nat)
    requires som < 2 && eom < 2 && sq < 4
    ensures HeaderWord(som, eom, sq) < 0x1_0000_0000
    ensures HeaderWord(som, eom, sq) / 0x8000_0000 == som
    ensures HeaderWord(som, eom, sq) / 0x4000_0000 % 2 == eom
    ensures HeaderWord(som, eom, sq) / 0x1000_0000 % 4 == sq
    ensures HeaderWord(som, eom, sq) % 0x1000_0000 == 0
  {
  }

  // -----------------------------------------------------------------------
  // Cutting a command into packets

  /** The first packet: both headers and as much of the payload as fits in
      `max` words; end of message is set when everything fits. */
  function FirstPacket(t: nat, data: seq<nat>, max: nat): seq<nat>
    requires max >= 2
  {
    var eom := if |data| + 2 > max then 0 else 1;
    var all := [HeaderWord(1, eom, 0), MessageWord(t)] + data;
    all[..Min(|all|, max)]
  }

  /** The continuation packets for the words `rest`, the first of them with
      sequence counter `n`. */
  function Continuations(rest: seq<nat>, n: nat, max: nat): seq<seq<nat>>
    requires max >= 2
    decreases |rest|
  {
    if |rest| == 0 then []
    else
      var eom := if |rest| + 1 <= max then 1 else 0;
      var p := [HeaderWord(0, eom, n % 4)] + rest;
      var cut := Min(|p|, max);
      [p[..cut]] + Continuations(p[cut..], n + 1, max)
  }

  /** Every packet `send_cmd` hands to the transport for NVDM type `t` and
      payload `data`, with packets of at most `max` words. */
  function Packets(t: nat, data: seq<nat>, max: nat): seq<seq<nat>>
    requires max >= 2
  {
    [FirstPacket(t, data, max)] + Continuations(Drop([0, 0] + data, max), 1, max)
  }

  /** The payload words of continuation packets: each packet without its header. */
  function Bodies(ps: seq<seq<nat>>): seq<nat>
  {
    if |ps| == 0 then [] else Drop(ps[0], 1) + Bodies(ps[1..])
  }

  /** What a receiver reassembles: the first packet without its two headers,
      then every continuation without its header. */
  function Payload(ps: seq<seq<nat>>): seq<nat>
  {
    if |ps| == 0 then [] else Drop(ps[0], 2) + Bodies(ps[1..])
  }

  /** The continuations carry `rest` and end once it is used up; each has a
      header and at least one word; only the last has end of message set;
      sequence numbers count up modulo 4; all but the last are full. */
  lemma ContinuationsShape(rest: seq<nat>, n: nat, max: nat)
    requires max >= 2
    ensures var cs := Continuations(rest, n, max);
      Bodies(cs) == rest
      && (|cs| == 0 <==> |rest| == 0)
      && (forall i :: 0 <= i < |cs| ==> 2 <= |cs[i]| <= max)
      && (forall i :: 0 <= i < |cs| ==> cs[i][0] == HeaderWord(0, if i == |cs| - 1 then 1 else 0, (n + i) % 4))
      && (forall i :: 0 <= i < |cs| - 1 ==> |cs[i]| == max)
  {
    ContinuationsBodies(rest, n, max);
    ContinuationsSizes(rest, n, max);
    ContinuationsHeaders(rest, n, max);
  }

  /** The continuations' bodies are `rest`, and there are none exactly when it is empty. */
  lemma {:induction false} ContinuationsBodies(rest: seq<nat>, n: nat, max: nat)
    requires max >= 2
    ensures var cs := Continuations(rest, n, max);
      Bodies(cs) == rest && (|cs| == 0 <==> |rest| == 0)
    decreases |rest|
  {
    if |rest| > 0 {
      var eom := if |rest| + 1 <= max then 1 else 0;
      var p := [HeaderWord(0, eom, n % 4)] + rest;
      var cut := Min(|p|, max);
      ContinuationsBodies(p[cut..], n + 1, max);
      var cs := Continuations(rest, n, max);
      assert cs[1..] == Continuations(p[cut..], n + 1, max);
      assert Drop(p[..cut], 1) + p[cut..] == rest;
    }
  }

  /** Every continuation has a header and a word, and at most `max` words;
      all but the last have exactly `max`. */
  lemma {:induction false} ContinuationsSizes(rest: seq<nat>, n: nat, max: nat)
    requires max >= 2
    ensures var cs := Continuations(rest, n, max);
      (forall i :: 0 <= i < |cs| ==> 2 <= |cs[i]| <= max)
      && (forall i :: 0 <= i < |cs| - 1 ==> |cs[i]| == max)
    decreases |rest|
  {
    if |rest| > 0 {
      var eom := if |rest| + 1 <= max then 1 else 0;
      var p := [HeaderWord(0, eom, n % 4)] + rest;
      var cut := Min(|p|, max);
      ContinuationsSizes(p[cut..], n + 1, max);
      ContinuationsBodies(p[cut..], n + 1, max);
      var tail := Continuations(p[cut..], n + 1, max);
      var cs := Continuations(rest, n, max);
      assert cs == [p[..cut]] + tail;
      forall i | 0 <= i < |cs|
        ensures 2 <= |cs[i]| <= max
      {
        if i > 0 {
          assert cs[i] == tail[i - 1];
        }
      }
      forall i | 0 <= i < |cs| - 1
        ensures |cs[i]| == max
      {
        if i > 0 {
          assert cs[i] == tail[i - 1];
        }
      }
    }
  }

  /** Continuation `i` has start of message clear, sequence `(n + i) mod 4`,
      and end of message exactly when it is the last. */
  lemma ContinuationsHeaders(rest: seq<nat>, n: nat, max: nat)
    requires max >= 2
    ensures var cs := Continuations(rest, n, max);
      forall i :: 0 <= i < |cs| ==> |cs[i]| > 0 && cs[i][0] == HeaderWord(0, if i == |cs| - 1 then 1 else 0, (n + i) % 4)
  {
    var cs := Continuations(rest, n, max);
    forall i | 0 <= i < |cs|
      ensures |cs[i]| > 0 && cs[i][0] == HeaderWord(0, if i == |cs| - 1 then 1 else 0, (n + i) % 4)
    {
      ContinuationHeaderAt(rest, n, max, i);
    }
  }

  lemma {:induction false} ContinuationHeaderAt(rest: seq<nat>, n: nat, max: nat, i: nat)
    requires max >= 2 && i < |Continuations(rest, n, max)|
    ensures var cs := Continuations(rest, n, max);
      |cs[i]| > 0 && cs[i][0] == HeaderWord(0, if i == |cs| - 1 then 1 else 0, (n + i) % 4)
    decreases |rest|
  {
    var eom := if |rest| + 1 <= max then 1 else 0;
    var p := [HeaderWord(0, eom, n % 4)] + rest;
    var cut := Min(|p|, max);
    ContinuationsBodies(p[cut..], n + 1, max);
    var tail := Continuations(p[cut..], n + 1, max);
    var cs := Continuations(rest, n, max);
    assert cs == [p[..cut]] + tail;
    if i == 0 {
      assert |tail| == 0 <==> eom == 1;
    } else {
      ContinuationHeaderAt(p[cut..], n + 1, max, i - 1);
      assert cs[i] == tail[i - 1];
      assert n + 1 + (i - 1) == n + i;
    }
  }

  /** The packets of a command: none is longer than `max` words; the first
      starts with the transport header (start of message, sequence 0, end of
      message exactly when it is the only packet) and the message header;
      continuation `i` has start of message clear, sequence `i mod 4` and end
      of message exactly when it is the last; every packet but the last is
      full; and stripping the headers gives back the payload. */
  lemma PacketsShape(t: nat, data: seq<nat>, max: nat)
    requires max >= 2
    ensures var ps := Packets(t, data, max);
      Payload(ps) == data
      && |ps| >= 1
      && (forall i :: 0 <= i < |ps| ==> |ps[i]| <= max)
      && 2 <= |ps[0]|
      && ps[0][0] == HeaderWord(1, if |ps| == 1 then 1 else 0, 0)
      && ps[0][1] == MessageWord(t)
      && (forall i :: 1 <= i < |ps| ==> 2 <= |ps[i]|)
      && (forall i :: 1 <= i < |ps| ==> ps[i][0] == HeaderWord(0, if i == |ps| - 1 then 1 else 0, i % 4))
      && (forall i :: 0 <= i < |ps| - 1 ==> |ps[i]| == max)
  {
    PacketsPayload(t, data, max);
    PacketsFirst(t, data, max);
    PacketsSizes(t, data, max);
    PacketsHeaders(t, data, max);
  }

  lemma PacketsPayload(t: nat, data: seq<nat>, max: nat)
    requires max >= 2
    ensures Payload(Packets(t, data, max)) == data
  {
    var rest: seq<nat> := Drop([0, 0] + data, max);
    ContinuationsBodies(rest, 1, max);
    var ps := Packets(t, data, max);
    assert ps[1..] == Continuations(rest, 1, max);
    assert Drop(FirstPacket(t, data, max), 2) + rest == data;
  }

  lemma PacketsFirst(t: nat, data: seq<nat>, max: nat)
    requires max >= 2
    ensures var ps := Packets(t, data, max);
      2 <= |ps[0]| <= max && ps[0][1] == MessageWord(t)
      && ps[0][0] == HeaderWord(1, if |ps| == 1 then 1 else 0, 0)
  {
    var rest: seq<nat> := Drop([0, 0] + data, max);
    ContinuationsBodies(rest, 1, max);
    var ps := Packets(t, data, max);
    assert ps[1..] == Continuations(rest, 1, max);
  }

  lemma PacketsSizes(t: nat, data: seq<nat>, max: nat)
    requires max >= 2
    ensures var ps := Packets(t, data, max);
      (forall i :: 1 <= i < |ps| ==> 2 <= |ps[i]| <= max)
      && (forall i :: 0 <= i < |ps| - 1 ==> |ps[i]| == max)
  {
    var rest: seq<nat> := Drop([0, 0] + data, max);
    ContinuationsBodies(rest, 1, max);
    ContinuationsSizes(rest, 1, max);
    var cs := Continuations(rest, 1, max);
    var ps := Packets(t, data, max);
    assert ps[1..] == cs;
    forall i | 1 <= i < |ps|
      ensures 2 <= |ps[i]| <= max
    {
      assert ps[i] == cs[i - 1];
    }
    forall i | 0 <= i < |ps| - 1
      ensures |ps[i]| == max
    {
      if i > 0 {
        assert ps[i] == cs[i - 1];
      }
    }
  }

  lemma PacketsHeaders(t: nat, data: seq<nat>, max: nat)
    requires max >= 2
    ensures var ps := Packets(t, data, max);
      forall i :: 1 <= i < |ps| ==> |ps[i]| > 0 && ps[i][0] == HeaderWord(0, if i == |ps| - 1 then 1 else 0, i % 4)
  {
    var ps := Packets(t, data, max);
    forall i | 1 <= i < |ps|
      ensures |ps[i]| > 0 && ps[i][0] == HeaderWord(0, if i == |ps| - 1 then 1 else 0, i % 4)
    {
      PacketHeaderAt(t, data, max, i);
    }
  }

  lemma PacketHeaderAt(t: nat, data: seq<nat>, max: nat, i: nat)
    requires max >= 2 && 1 <= i < |Packets(t, data, max)|
    ensures var ps := Packets(t, data, max);
      |ps[i]| > 0 && ps[i][0] == HeaderWord(0, if i == |ps| - 1 then 1 else 0, i % 4)
  {
    var rest: seq<nat> := Drop([0, 0] + data, max);
    PacketsAfterFirst(t, data, max, i);
    ContinuationHeaderAt(rest, 1, max, i - 1);
  }

  /** Past the first, the packets are the continuations. */
  lemma PacketsAfterFirst(t: nat, data: seq<nat>, max: nat, i: nat)
    requires max >= 2 && 1 <= i < |Packets(t, data, max)|
    ensures var cs := Continuations(Drop([0, 0] + data, max), 1, max);
      i - 1 < |cs| && Packets(t, data, max)[i] == cs[i - 1]
  {
  }

  /** The packing loop of `send_cmd`, with the transport header's `som`,
      `eom` and `seq` kept in local variables. */
  method SplitPackets(t: nat, data: seq<nat>, max: nat) returns (packets: seq<seq<nat>>)
    requires max >= 2
    ensures packets == Packets(t, data, max)
  {
    var som, eom, sq := 1, 1, 0;
    var totalSize := |data| + 1 + 1;
    if totalSize > max {
      eom := 0;
    }
    var pdata := [HeaderWord(som, eom, sq), MessageWord(t)] + data;
    var remaining := Drop(pdata, max);
    pdata := pdata[..Min(|pdata|, max)];
    packets := [pdata];
    assert remaining == Drop([0, 0] + data, max);
    while |remaining| != 0
      invariant |packets| >= 1 && sq == (|packets| - 1) % 4 && som < 2 && eom < 2
      invariant |remaining| != 0 ==> eom == 0
      invariant packets + Continuations(remaining, |packets|, max) == Packets(t, data, max)
      decreases |remaining|
    {
      som := 0;
      NextSeq(|packets| - 1);
      sq := (sq + 1) % 4;
      if |remaining| + 1 <= max {
        eom := 1;
      }
      PacketStep(packets, remaining, max);
      pdata := [HeaderWord(som, eom, sq)] + remaining;
      remaining := Drop(pdata, max);
      pdata := pdata[..Min(|pdata|, max)];
      packets := packets + [pdata];
    }
  }

  /** One turn of the packing loop: the next continuation is cut off the
      remaining words. */
  lemma PacketStep(packets: seq<seq<nat>>, remaining: seq<nat>, max: nat)
    requires max >= 2 && |remaining| != 0
    ensures var eom := if |remaining| + 1 <= max then 1 else 0;
      var p := [HeaderWord(0, eom, |packets| % 4)] + remaining;
      packets + Continuations(remaining, |packets|, max)
      == (packets + [p[..Min(|p|, max)]]) + Continuations(Drop(p, max), |packets| + 1, max)
  {
  }

  lemma NextSeq(x: nat)
    ensures (x % 4 + 1) % 4 == (x + 1) % 4
  {
  }

  // -----------------------------------------------------------------------
  // The reply

  /** The name an `FspRpcError` raised by `send_cmd` carries. */
  const RpcName: string := "FSP-RPC"

  /** `nvdm_type` of a message header word, bits 31:24. */
  function NvdmTypeOf(w: nat): nat
  {
    Field(w, 24, 8)
  }

  /** The checks `send_cmd` makes on the reply `mdata` to a command of NVDM
      type `t`, and the words it returns. */
  function CheckResponse(t: nat, mdata: seq<nat>): Result<seq<nat>>
  {
    if |mdata| * 4 < 5 * 4 then Err(GpuError("response size " + Dec(|mdata| * 4) + " is smaller than expected"))
    else if NvdmTypeOf(mdata[1]) != 0x15 then Err(GpuError("message wrong nvdm_type"))
    else if mdata[3] != t then
      Err(GpuError("message request type " + Hex(mdata[3]) + " not matching the command " + Hex(t)))
    else if mdata[4] != 0 then Err(FspRpcError(RpcName, mdata[4], mdata))
    else Ok(mdata[5..])
  }

  /** A reply is accepted exactly when it has at least 5 words, its message
      header says NVDM type 0x15, word 3 echoes the command's type and word 4
      is zero; the result is then everything after word 4.  A nonzero word 4
      raises `FspRpcError` with that code and the whole reply; every other
      failure is a plain `GpuError`. */
  lemma CheckResponseMeans(t: nat, mdata: seq<nat>)
    ensures CheckResponse(t, mdata).Ok? <==>
      |mdata| >= 5 && (mdata[1] / 0x100_0000) % 0x100 == 0x15 && mdata[3] == t && mdata[4] == 0
    ensures CheckResponse(t, mdata).Ok? ==> mdata == mdata[..5] + CheckResponse(t, mdata).value
    ensures CheckResponse(t, mdata).Err? ==> IsGpuError(CheckResponse(t, mdata).error)
    ensures CheckResponse(t, mdata).Err? && CheckResponse(t, mdata).error.FspRpcError? <==>
      |mdata| >= 5 && (mdata[1] / 0x100_0000) % 0x100 == 0x15 && mdata[3] == t && mdata[4] != 0
    ensures CheckResponse(t, mdata).Err? && CheckResponse(t, mdata).error.FspRpcError? ==>
      CheckResponse(t, mdata).error == FspRpcError(RpcName, mdata[4], mdata)
  {
    if |mdata| >= 5 {
      FieldIsDivMod(mdata[1], 24, 8);
      Pow2Values();
    }
  }

  // -----------------------------------------------------------------------
  // Commands and the firmware

  /** A command given to `send_cmd`. */
  datatype Cmd = Cmd(nvdmType: nat, data: seq<nat>, sync: bool)

  /** The transport's answer to the last of the commands sent so far. */
  type Reply = seq<Cmd> -> Result<seq<nat>>

  /** `send_cmd(t, data, sync=sync)` after the commands `sent`: the result and
      the commands sent by then.  An asynchronous command returns without
      looking at any reply (modelled as an empty result). */
  function Send(reply: Reply, sent: seq<Cmd>, t: nat, data: seq<nat>, sync: bool): (Result<seq<nat>>, seq<Cmd>)
  {
    var sent' := sent + [Cmd(t, data, sync)];
    if !sync then (Ok([]), sent')
    else
      match reply(sent')
      case Err(e) => (Err(e), sent')
      case Ok(mdata) => (CheckResponse(t, mdata), sent')
  }

  /** NVDM type of a PRC command. */
  const PrcType: nat := 0x13

  /** `prc_cmd(data)` followed by the check that the reply is empty, which
      every PRC command but the knob read makes. */
  function PrcNoData(reply: Reply, sent: seq<Cmd>, data: seq<nat>): (Result<()>, seq<Cmd>)
  {
    var (r, sent') := Send(reply, sent, PrcType, data, true);
    if r.Err? then (Err(r.error), sent')
    else if |r.value| != 0 then (Err(GpuError("RPC wrong response size " + Dec(|r.value|))), sent')
    else (Ok(()), sent')
  }

  // -----------------------------------------------------------------------
  // PRC sub-command words

  /** `sub | flags << 8 | arg << 16` */
  function PrcWord(sub: nat, flags: nat, arg: nat): nat
  {
    Or(Or(sub, Shl(flags, 8)), Shl(arg, 16))
  }

  /** With a sub-message below 256 and flags below 256, the three parts do not
      overlap and the word is their sum. */
  lemma PrcWordValue(sub: nat, flags: nat, arg: nat)
    requires sub < 0x100 && flags < 0x100
    ensures PrcWord(sub, flags, arg) == sub + flags * 0x100 + arg * 0x1_0000
    ensures Field(PrcWord(sub, flags, arg), 0, 8) == sub
    ensures Field(PrcWord(sub, flags, arg), 8, 8) == flags
    ensures Shr(PrcWord(sub, flags, arg), 16) == arg
  {
    PrcWordSum(sub, flags, arg);
    PrcWordParts(sub, flags, arg);
  }

  lemma PrcWordSum(sub: nat, flags: nat, arg: nat)
    requires sub < 0x100 && flags < 0x100
    ensures PrcWord(sub, flags, arg) == sub + flags * 0x100 + arg * 0x1_0000
  {
    Pow2Values();
    AndShlDisjoint(sub, flags, 8);
    var low := sub + flags * 0x100;
    AndShlDisjoint(low, arg, 16);
  }

  lemma PrcWordParts(sub: nat, flags: nat, arg: nat)
    requires sub < 0x100 && flags < 0x100
    ensures var w := sub + flags * 0x100 + arg * 0x1_0000;
      Field(w, 0, 8) == sub && Field(w, 8, 8) == flags && Shr(w, 16) == arg
  {
    var w := sub + flags * 0x100 + arg * 0x1_0000;
    Pow2Values();
    FieldIsDivMod(w, 0, 8);
    FieldIsDivMod(w, 8, 8);
    ShrIsDiv(w, 16);
    DivUnique(w, 0x100, flags + arg * 0x100, sub);
    DivUnique(flags + arg * 0x100, 0x100, arg, flags);
    DivUnique(w, 0x1_0000, arg, sub + flags * 0x100);
  }

  /** `prc_knob_read`: sub-message 0xc, flags 2, the knob id above, that is
      `0xc | 0x2 << 8 | id << 16`; the parts do not overlap, so the word is
      their sum (`KnobWordsArePrcWords`). */
  function KnobReadWord(id: nat): nat
  {
    0x20c + id * 0x1_0000
  }

  /** `prc_knob_write`: sub-message 0xd, flags 2, the knob id above, then the value. */
  function KnobWriteWords(id: nat, value: nat): seq<nat>
  {
    [0x20d + id * 0x1_0000, value]
  }

  /** The knob words are the PRC words `prc_knob_read` and `prc_knob_write` build. */
  lemma KnobWordsArePrcWords(id: nat, value: nat)
    ensures KnobReadWord(id) == PrcWord(0xc, 0x2, id)
    ensures KnobWriteWords(id, value) == [PrcWord(0xd, 0x2, id), value]
  {
    PrcWordValue(0xc, 0x2, id);
    PrcWordValue(0xd, 0x2, id);
  }

  /** `prc_ecc`: sub-message 1, flags 3 when persistent else 1, bit 16 set to enable. */
  function EccWord(enable: bool, persistent: bool): nat
  {
    PrcWord(0x1, if persistent then 0x3 else 0x1, if enable then 0x1 else 0x0)
  }

  /** `prc_couple_reset`: sub-message 4, one-shot flag 1, argument 1. */
  function CoupleResetWord(): nat
  {
    PrcWord(0x4, 0x1, 0x1)
  }

  lemma PrcWordConstants(enable: bool, persistent: bool)
    ensures EccWord(enable, persistent) == 0x1 + (if persistent then 0x300 else 0x100) + (if enable then 0x1_0000 else 0)
    ensures CoupleResetWord() == 0x1_0104
  {
    PrcWordValue(0x1, if persistent then 0x3 else 0x1, if enable then 0x1 else 0x0);
    PrcWordValue(0x4, 0x1, 0x1);
  }

  /** The 64-bit link mask: the OR of `1 << link` over the links. */
  function LinkMask(links: seq<nat>): nat
  {
    if |links| == 0 then 0 else Or(LinkMask(links[..|links| - 1]), Pow2(links[|links| - 1]))
  }

  /** Bit `i` of the mask is set exactly for the links in the list. */
  lemma {:induction false} LinkMaskBits(links: seq<nat>, i: nat)
    ensures Bit(LinkMask(links), i) == 1 <==> i in links
  {
    if |links| == 0 {
      BitOfZero(i);
    } else {
      var init := links[..|links| - 1];
      LinkMaskBits(init, i);
      BitOr(LinkMask(init), Pow2(links[|links| - 1]), i);
      BitPow2(links[|links| - 1], i);
      BitRange(LinkMask(init), i);
      assert links == init + [links[|links| - 1]];
    }
  }

  /** The loop of `prc_block_nvlinks` that builds the mask. */
  method ComputeLinkMask(links: seq<nat>) returns (mask: nat)
    ensures mask == LinkMask(links)
  {
    mask := 0;
    var k := 0;
    while k < |links|
      invariant k <= |links| && mask == LinkMask(links[..k])
    {
      assert links[..k + 1][..k] == links[..k];
      mask := Or(mask, Shl(1, links[k]));
      k := k + 1;
    }
    assert links[..k] == links;
  }

  /** `prc_block_nvlinks`: the first word carries the low 16 mask bits, the
      second the next 32, and the last 16 go in a third word only on devices
      with 64 links (NVSwitch and Hopper); elsewhere they must be zero. */
  function BlockNvlinksWords(links: seq<nat>, persistent: bool, wide: bool): Result<seq<nat>>
  {
    var mask := LinkMask(links);
    var w0 := PrcWord(0xa, if persistent then 0x3 else 0x1, And(mask, 0xffff));
    var w1 := And(Shr(mask, 16), 0xffff_ffff);
    var w2 := Shr(mask, 48);
    if wide then Ok([w0, w1, w2])
    else if w2 != 0 then Err(GpuError("prc_2 is not 0 for non-hopper device"))
    else Ok([w0, w1])
  }

  /** A device without the third word rejects exactly the lists naming a link
      of 48 or more; the words always give back the mask, and a link is in the
      list exactly when its bit is set in the words. */
  lemma BlockNvlinksMeans(links: seq<nat>, persistent: bool, wide: bool)
    ensures BlockNvlinksWords(links, persistent, wide).Err? <==> !wide && exists l :: l in links && l >= 48
    ensures BlockNvlinksWords(links, persistent, wide).Ok? ==>
      var w := BlockNvlinksWords(links, persistent, wide).value;
      var w2 := if wide then w[2] else 0;
      Shr(w[0], 16) + w[1] * 0x1_0000 + w2 * 0x1_0000_0000_0000 == LinkMask(links)
      && Field(w[0], 0, 8) == 0xa && Field(w[0], 8, 8) == (if persistent then 3 else 1)
  {
    var mask := LinkMask(links);
    PrcWordValue(0xa, if persistent then 0x3 else 0x1, And(mask, 0xffff));
    MaskPieces(mask);
    HighLinks(links);
  }

  /** The three pieces of a mask put back together give the mask. */
  lemma MaskPieces(mask: nat)
    ensures And(mask, 0xffff) + And(Shr(mask, 16), 0xffff_ffff) * 0x1_0000 + Shr(mask, 48) * 0x1_0000_0000_0000 == mask
  {
    Pow2Values();
    var lo := And(mask, 0xffff);
    AndLowMask(mask, 16);
    assert lo == mask % 0x1_0000;
    ShrIsDiv(mask, 16);
    ShrIsDiv(mask, 48);
    AndLowMask(Shr(mask, 16), 32);
    var w1 := And(Shr(mask, 16), 0xffff_ffff);
    assert w1 == (mask / 0x1_0000) % 0x1_0000_0000;
    DivDiv(mask, 0x1_0000, 0x1_0000_0000);
    assert Shr(mask, 48) == (mask / 0x1_0000) / 0x1_0000_0000;
  }

  /** The mask has bits from 48 up exactly when some link is 48 or above. */
  lemma HighLinks(links: seq<nat>)
    ensures Shr(LinkMask(links), 48) != 0 <==> exists l :: l in links && l >= 48
  {
    var mask := LinkMask(links);
    Pow2Values();
    ShrIsDiv(mask, 48);
    if exists l :: l in links && l >= 48 {
      var l :| l in links && l >= 48;
      LinkMaskBits(links, l);
      if Shr(mask, 48) == 0 {
        BitAbove(mask, 48, l);
      }
    } else {
      forall i: nat | 48 <= i
        ensures Bit(mask, i) == 0
      {
        LinkMaskBits(links, i);
        BitRange(mask, i);
      }
      BelowPow2(mask, 48);
    }
  }

  // -----------------------------------------------------------------------
  // InfoROM messages

  /** `int.from_bytes(b, 'little')` over consecutive 4-byte pieces, the last
      one possibly shorter. */
  function ChunkWords(b: seq<u8>): seq<nat>
    decreases |b|
  {
    if |b| == 0 then [] else [LeValue(b[..Min(4, |b|)])] + ChunkWords(b[Min(4, |b|)..])
  }

  /** `struct.pack("<BB3sHH", op, 0xFF, name, size, offset)` with the name
      truncated or zero-padded to 3 bytes; `H` rejects values of 2**16 and above. */
  function InforomHeader(op: u8, name: seq<u8>, size: nat, offset: nat): Result<seq<u8>>
  {
    if size >= 0x1_0000 || offset >= 0x1_0000 then Err(StructError("ushort format requires 0 <= number <= 65535"))
    else Ok([op, 0xFF] + PadTo(name, 3) + LeBytes(size, 2) + LeBytes(offset, 2))
  }

  /** `inforom_read`: the 9-byte header in 4-byte words, the last word one byte. */
  function InforomReadWords(name: seq<u8>, size: nat, offset: nat): Result<seq<nat>>
  {
    var h :- InforomHeader(0x03, name, size, offset);
    Ok([LeValue(h[0..4]), LeValue(h[4..8]), LeValue(h[8..9])])
  }

  /** `b''.join(struct.pack("<I", d) for d in data)` */
  function DataBytes(data: seq<nat>): Result<seq<u8>>
  {
    if |data| == 0 then Ok([])
    else if data[0] >= 0x1_0000_0000 then Err(OutOfRange)
    else Prepend(LeBytes(data[0], 4), DataBytes(data[1..]))
  }

  /** `inforom_write`: the first 8 header bytes as two words, then the last
      header byte followed by 3 data bytes, then the rest of the data 4 bytes
      at a time. */
  function InforomWriteWords(name: seq<u8>, size: nat, offset: nat, data: seq<nat>): Result<seq<nat>>
  {
    var h :- InforomHeader(0x04, name, size, offset);
    var d :- DataBytes(data);
    Ok([LeValue(h[0..4]), LeValue(h[4..8]), LeValue([h[8]] + d[..Min(3, |d|)])] + ChunkWords(Drop(d, 3)))
  }

  lemma InforomHeaderLength(op: u8, name: seq<u8>, size: nat, offset: nat)
    ensures InforomHeader(op, name, size, offset).Ok? ==> |InforomHeader(op, name, size, offset).value| == 9
  {
  }

  /** `inforom_read` sends the header cut into 4-byte little-endian words. */
  lemma InforomReadIsChunked(name: seq<u8>, size: nat, offset: nat)
    ensures InforomReadWords(name, size, offset).Ok? <==> size < 0x1_0000 && offset < 0x1_0000
    ensures InforomReadWords(name, size, offset).Ok? ==>
      InforomReadWords(name, size, offset).value == ChunkWords(InforomHeader(0x03, name, size, offset).value)
  {
    var hr := InforomHeader(0x03, name, size, offset);
    if hr.Ok? {
      var h := hr.value;
      assert |h| == 9;
      assert h[4..][..4] == h[4..8] && h[4..][4..] == h[8..];
      assert h[8..][..1] == h[8..9] && h[8..][1..] == [];
      assert h[..4] == h[0..4];
      assert ChunkWords(h[8..]) == [LeValue(h[8..9])] + ChunkWords([]);
      assert ChunkWords(h[4..]) == [LeValue(h[4..8])] + ChunkWords(h[8..]);
    }
  }

  /** The data words of `inforom_write` are the header followed by the data
      bytes, cut into 4-byte little-endian words; so the receiver sees the
      message as one byte stream. */
  lemma InforomWriteIsChunked(name: seq<u8>, size: nat, offset: nat, data: seq<nat>)
    ensures InforomWriteWords(name, size, offset, data).Ok? ==>
      InforomWriteWords(name, size, offset, data).value
        == ChunkWords(InforomHeader(0x04, name, size, offset).value + DataBytes(data).value)
  {
    var hr := InforomHeader(0x04, name, size, offset);
    var dr := DataBytes(data);
    if hr.Ok? && dr.Ok? {
      InforomHeaderLength(0x04, name, size, offset);
      ChunkAfterNine(hr.value, dr.value);
    }
  }

  /** Cutting nine bytes and then more into words: two words of the first
      eight, one of the ninth and up to three more, then the rest. */
  lemma ChunkAfterNine(h: seq<u8>, d: seq<u8>)
    requires |h| == 9
    ensures ChunkWords(h + d)
      == [LeValue(h[0..4]), LeValue(h[4..8]), LeValue([h[8]] + d[..Min(3, |d|)])] + ChunkWords(Drop(d, 3))
  {
    var tail := [h[8]] + d;
    NineSlices(h, d);
    ChunkFront(h[0..4], h[4..8] + tail);
    ChunkFront(h[4..8], tail);
    ChunkNinth(h[8], d);
  }

  lemma NineSlices(h: seq<u8>, d: seq<u8>)
    requires |h| == 9
    ensures h + d == h[0..4] + (h[4..8] + ([h[8]] + d))
  {
    assert h == h[0..4] + h[4..8] + [h[8]];
  }

  /** A full word's bytes come off the front as one word. */
  lemma ChunkFront(a: seq<u8>, b: seq<u8>)
    requires |a| == 4
    ensures ChunkWords(a + b) == [LeValue(a)] + ChunkWords(b)
  {
    assert (a + b)[..4] == a && (a + b)[4..] == b;
  }

  /** A lone byte takes up to three more with it. */
  lemma ChunkNinth(x: u8, d: seq<u8>)
    ensures ChunkWords([x] + d) == [LeValue([x] + d[..Min(3, |d|)])] + ChunkWords(Drop(d, 3))
  {
    var b := [x] + d;
    var k := Min(3, |d|);
    ChunkAt(b, k + 1);
    ConsSlices(x, d, k);
  }

  lemma ConsSlices(x: u8, d: seq<u8>, k: nat)
    requires k == Min(3, |d|)
    ensures ([x] + d)[..k + 1] == [x] + d[..k]
    ensures ([x] + d)[k + 1..] == Drop(d, 3)
  {
    assert ([x] + d)[k + 1..] == d[k..];
  }

  /** One step of the cutting, with the cut named. */
  lemma ChunkAt(b: seq<u8>, m: nat)
    requires |b| > 0 && m == Min(4, |b|)
    ensures ChunkWords(b) == [LeValue(b[..m])] + ChunkWords(b[m..])
  {
  }

  // -----------------------------------------------------------------------
  // The PRC operations as functions of the reply oracle

  /** `prc_knob_read(id)`: the low 16 bits of the one reply word. */
  function KnobRead(reply: Reply, sent: seq<Cmd>, id: nat): (Result<nat>, seq<Cmd>)
  {
    var (r, sent') := Send(reply, sent, PrcType, [KnobReadWord(id)], true);
    if r.Err? then (Err(r.error), sent')
    else if |r.value| != 1 then (Err(GpuError("RPC wrong response size " + Dec(|r.value|))), sent')
    else (Ok(And(r.value[0], 0xffff)), sent')
  }

  /** `prc_knob_write(id, value)` */
  function KnobWrite(reply: Reply, sent: seq<Cmd>, id: nat, value: nat): (Result<()>, seq<Cmd>)
  {
    PrcNoData(reply, sent, KnobWriteWords(id, value))
  }

  /** `prc_knob_check_and_write(id, value)`: read, and write only on a difference. */
  function CheckAndWrite(reply: Reply, sent: seq<Cmd>, id: nat, value: nat): (Result<()>, seq<Cmd>)
  {
    var (r, sent') := KnobRead(reply, sent, id);
    if r.Err? then (Err(r.error), sent')
    else if r.value != value then KnobWrite(reply, sent', id, value)
    else (Ok(()), sent')
  }

  /** The commands a read of `id` sends, and the ones a write sends. */
  function ReadCmd(id: nat): Cmd
  {
    Cmd(PrcType, [KnobReadWord(id)], true)
  }

  function WriteCmd(id: nat, value: nat): Cmd
  {
    Cmd(PrcType, KnobWriteWords(id, value), true)
  }

  /** The value a knob read returns is 16 bits: the reply's low half. */
  lemma KnobReadMeans(reply: Reply, sent: seq<Cmd>, id: nat)
    ensures KnobRead(reply, sent, id).1 == sent + [ReadCmd(id)]
    ensures KnobRead(reply, sent, id).0.Ok? <==>
      reply(sent + [ReadCmd(id)]).Ok? && CheckResponse(PrcType, reply(sent + [ReadCmd(id)]).value).Ok?
      && |CheckResponse(PrcType, reply(sent + [ReadCmd(id)]).value).value| == 1
    ensures KnobRead(reply, sent, id).0.Ok? ==>
      KnobRead(reply, sent, id).0.value == reply(sent + [ReadCmd(id)]).value[5] % 0x1_0000
  {
    var r := reply(sent + [ReadCmd(id)]);
    if r.Ok? && CheckResponse(PrcType, r.value).Ok? && |CheckResponse(PrcType, r.value).value| == 1 {
      CheckResponseMeans(PrcType, r.value);
      AndLowMask(r.value[5], 16);
      Pow2Values();
    }
  }

  /** `check_and_write` always reads first, and sends the write exactly when
      the read succeeded with a value other than the one wanted. */
  lemma CheckAndWriteMeans(reply: Reply, sent: seq<Cmd>, id: nat, value: nat)
    ensures var (r, out) := CheckAndWrite(reply, sent, id, value);
      var read := KnobRead(reply, sent, id).0;
      out[..|sent| + 1] == sent + [ReadCmd(id)]
      && (out == sent + [ReadCmd(id), WriteCmd(id, value)] <==> read.Ok? && read.value != value)
      && (out == sent + [ReadCmd(id)] <==> !(read.Ok? && read.value != value))
      && (read.Err? ==> r == Err(read.error))
      && (read.Ok? && read.value == value ==> r == Ok(()))
  {
    var read := KnobRead(reply, sent, id);
    assert (sent + [ReadCmd(id)] + [WriteCmd(id, value)])[..|sent| + 1] == sent + [ReadCmd(id)];
    assert sent + [ReadCmd(id)] + [WriteCmd(id, value)] == sent + [ReadCmd(id), WriteCmd(id, value)];
    assert |sent + [ReadCmd(id)]| != |sent + [ReadCmd(id), WriteCmd(id, value)]|;
  }

  // -----------------------------------------------------------------------
  // The object

  class FspRpc {
    /** `transport.max_packet_size_bytes // 4` */
    const maxWords: nat
    /** What `transport.receive_data` returns, given the commands sent. */
    const reply: Reply
    /** Every packet handed to `transport.send_data`, oldest first. */
    var packets: seq<seq<nat>>
    /** Every command given to `send_cmd`, oldest first. */
    var sent: seq<Cmd>

    constructor(maxPacketBytes: nat, reply: Reply)
      ensures maxWords == maxPacketBytes / 4 && this.reply == reply && packets == [] && sent == []
    {
      maxWords := maxPacketBytes / 4;
      this.reply := reply;
      packets := [];
      sent := [];
    }

    /** `send_cmd(nvdm_type, data, sync=sync)`. A transport whose packets
        hold fewer than two words would make the source loop forever. */
    method SendCmd(t: nat, data: seq<nat>, sync: bool) returns (r: Result<seq<nat>>)
      requires maxWords >= 2
      modifies this
      ensures (r, sent) == Send(reply, old(sent), t, data, sync)
      ensures packets == old(packets) + Packets(t, data, maxWords)
    {
      var ps := SplitPackets(t, data, maxWords);
      packets := packets + ps;
      sent := sent + [Cmd(t, data, sync)];
      if !sync {
        return Ok([]);
      }
      var mdata := reply(sent);
      if mdata.Err? {
        return Err(mdata.error);
      }
      r := CheckResponse(t, mdata.value);
    }

    /** `prc_cmd(data)` with the empty-reply check of the callers. */
    method PrcCmdNoData(data: seq<nat>) returns (r: Result<()>)
      requires maxWords >= 2
      modifies this
      ensures (r, sent) == PrcNoData(reply, old(sent), data)
      ensures packets == old(packets) + Packets(PrcType, data, maxWords)
    {
      var d := SendCmd(PrcType, data, true);
      if d.Err? {
        return Err(d.error);
      }
      if |d.value| != 0 {
        return Err(GpuError("RPC wrong response size " + Dec(|d.value|)));
      }
      r := Ok(());
    }

    /** `prc_ecc(enable_ecc, persistent)` */
    method PrcEcc(enable: bool, persistent: bool) returns (r: Result<()>)
      requires maxWords >= 2
      modifies this
      ensures (r, sent) == PrcNoData(reply, old(sent), [EccWord(enable, persistent)])
      ensures packets == old(packets) + Packets(PrcType, [EccWord(enable, persistent)], maxWords)
    {
      r := PrcCmdNoData([EccWord(enable, persistent)]);
    }

    /** `prc_couple_reset()` */
    method PrcCoupleReset() returns (r: Result<()>)
      requires maxWords >= 2
      modifies this
      ensures (r, sent) == PrcNoData(reply, old(sent), [CoupleResetWord()])
      ensures packets == old(packets) + Packets(PrcType, [CoupleResetWord()], maxWords)
    {
      r := PrcCmdNoData([CoupleResetWord()]);
    }

    /** `prc_block_nvlinks(links, persistent)`; `wide` is "NVSwitch, or a
        Hopper GPU".  A mask that does not fit is rejected before anything is sent. */
    method PrcBlockNvlinks(links: seq<nat>, persistent: bool, wide: bool) returns (r: Result<()>)
      requires maxWords >= 2
      modifies this
      ensures BlockNvlinksWords(links, persistent, wide).Err? ==>
        r == Err(BlockNvlinksWords(links, persistent, wide).error) && sent == old(sent) && packets == old(packets)
      ensures BlockNvlinksWords(links, persistent, wide).Ok? ==>
        && (r, sent) == PrcNoData(reply, old(sent), BlockNvlinksWords(links, persistent, wide).value)
        && packets == old(packets) + Packets(PrcType, BlockNvlinksWords(links, persistent, wide).value, maxWords)
    {
      var mask := ComputeLinkMask(links);
      var prc := PrcWord(0xa, if persistent then 0x3 else 0x1, And(mask, 0xffff));
      var prc1 := And(Shr(mask, 16), 0xffff_ffff);
      var prc2 := Shr(mask, 48);
      var prcData := [prc, prc1];
      if wide {
        prcData := prcData + [prc2];
        assert prcData == [prc, prc1, prc2];
      } else if prc2 != 0 {
        return Err(GpuError("prc_2 is not 0 for non-hopper device"));
      }
      assert BlockNvlinksWords(links, persistent, wide) == Ok(prcData);
      r := PrcCmdNoData(prcData);
    }

    /** `prc_knob_read(knob_id)` */
    method PrcKnobRead(id: nat) returns (r: Result<nat>)
      requires maxWords >= 2
      modifies this
      ensures (r, sent) == KnobRead(reply, old(sent), id)
      ensures packets == old(packets) + Packets(PrcType, [KnobReadWord(id)], maxWords)
    {
      var d := SendCmd(PrcType, [KnobReadWord(id)], true);
      if d.Err? {
        return Err(d.error);
      }
      if |d.value| != 1 {
        return Err(GpuError("RPC wrong response size " + Dec(|d.value|)));
      }
      r := Ok(And(d.value[0], 0xffff));
    }

    /** `prc_knob_write(knob_id, value)` */
    method PrcKnobWrite(id: nat, value: nat) returns (r: Result<()>)
      requires maxWords >= 2
      modifies this
      ensures (r, sent) == KnobWrite(reply, old(sent), id, value)
      ensures packets == old(packets) + Packets(PrcType, KnobWriteWords(id, value), maxWords)
    {
      r := PrcCmdNoData(KnobWriteWords(id, value));
    }

    /** `prc_knob_check_and_write(knob_id, value)` */
    method PrcKnobCheckAndWrite(id: nat, value: nat) returns (r: Result<()>)
      requires maxWords >= 2
      modifies this
      ensures (r, sent) == CheckAndWrite(reply, old(sent), id, value)
      ensures var rd := KnobRead(reply, old(sent), id).0;
        packets == old(packets) + Packets(PrcType, [KnobReadWord(id)], maxWords)
                   + (if rd.Ok? && rd.value != value then Packets(PrcType, KnobWriteWords(id, value), maxWords) else [])
    {
      var old_value := PrcKnobRead(id);
      if old_value.Err? {
        return Err(old_value.error);
      }
      if old_value.value != value {
        r := PrcKnobWrite(id, value);
      } else {
        r := Ok(());
      }
    }

    /** `fbdma_enable()` / `fbdma_disable()`: NVDM type 0x22 with 1 or 0; the
        reply words are dropped. */
    method Fbdma(enable: bool) returns (r: Result<()>)
      requires maxWords >= 2
      modifies this
      ensures var (d, s) := Send(reply, old(sent), 0x22, [if enable then 1 else 0], true);
        sent == s && (d.Err? ==> r == Err(d.error)) && (d.Ok? ==> r == Ok(()))
      ensures packets == old(packets) + Packets(0x22, [if enable then 1 else 0], maxWords)
    {
      var d := SendCmd(0x22, [if enable then 1 else 0], true);
      r := if d.Err? then Err(d.error) else Ok(());
    }

    /** `inforom_read(name, size, offset)` */
    method InforomRead(name: seq<u8>, size: nat, offset: nat) returns (r: Result<seq<nat>>)
      requires maxWords >= 2
      modifies this
      ensures InforomReadWords(name, size, offset).Err? ==>
        r == Err(InforomReadWords(name, size, offset).error) && sent == old(sent) && packets == old(packets)
      ensures InforomReadWords(name, size, offset).Ok? ==>
        && (r, sent) == Send(reply, old(sent), 0x17, InforomReadWords(name, size, offset).value, true)
        && packets == old(packets) + Packets(0x17, InforomReadWords(name, size, offset).value, maxWords)
    {
      var words := InforomReadWords(name, size, offset);
      if words.Err? {
        return Err(words.error);
      }
      r := SendCmd(0x17, words.value, true);
    }

    /** `inforom_write(name, size, offset, data)`; the reply words are dropped. */
    method InforomWrite(name: seq<u8>, size: nat, offset: nat, data: seq<nat>) returns (r: Result<()>)
      requires maxWords >= 2
      modifies this
      ensures InforomWriteWords(name, size, offset, data).Err? ==>
        r == Err(InforomWriteWords(name, size, offset, data).error) && sent == old(sent) && packets == old(packets)
      ensures InforomWriteWords(name, size, offset, data).Ok? ==>
        var (d, s) := Send(reply, old(sent), 0x17, InforomWriteWords(name, size, offset, data).value, true);
        && sent == s && (d.Err? ==> r == Err(d.error)) && (d.Ok? ==> r == Ok(()))
        && packets == old(packets) + Packets(0x17, InforomWriteWords(name, size, offset, data).value, maxWords)
    {
      var words := InforomWriteWords(name, size, offset, data);
      if words.Err? {
        return Err(words.error);
      }
      var d := SendCmd(0x17, words.value, true);
      r := if d.Err? then Err(d.error) else Ok(());
    }

    /** `recreate_inforom_fs()`: NVDM type 0x17 with sub-command 5. */
    method RecreateInforomFs() returns (r: Result<()>)
      requires maxWords >= 2
      modifies this
      ensures var (d, s) := Send(reply, old(sent), 0x17, [0x5], true);
        sent == s && (d.Err? ==> r == Err(d.error)) && (d.Ok? ==> r == Ok(()))
      ensures packets == old(packets) + Packets(0x17, [0x5], maxWords)
    {
      var d := SendCmd(0x17, [0x5], true);
      r := if d.Err? then Err(d.error) else Ok(());
    }
  }
}
