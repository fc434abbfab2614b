/*
 * The MCTP headers the FSP RPC layer puts in front of every message, as
 * NiceStruct layouts.  The transport header is the one of DMTF DSP0236
 * section 8.1 (MCTP packet fields), packed least significant bit first into
 * one 32-bit word; the message header carries message type 0x7E ("Vendor
 * Defined - PCI", DMTF DSP0239 Table 1) with NVIDIA's PCI vendor id.
 */
module FspMctp {
  import opened Bits
  import opened GpuErrors
  import opened IntsToBytes
  import opened NiceStructs
  import opened Text

  const IanaNvidia: nat := 0x1647
  const DownloadLogCommand: nat := 0x06
  const VendorDefinedIana: nat := 0x7F

  // -----------------------------------------------------------------------
  // Layouts

  const MctpHeaderFields: seq<FieldDecl> := [
    BitField("version", 4, 4),
    BitField("rsvd0", 4, 4),
    BitField("deid", 4, 8),
    BitField("seid", 4, 8),
    BitField("tag", 4, 3),
    BitField("to", 4, 1),
    BitField("seq", 4, 2),
    BitField("eom", 4, 1),
    BitField("som", 4, 1)
  ]

  const MctpMessageHeaderFields: seq<FieldDecl> := [
    BitField("type", 4, 7),
    BitField("ic", 4, 1),
    BitField("vendor_id", 4, 16),
    BitField("nvdm_type", 4, 8)
  ]

  const VdmIanaReqHeaderFields: seq<FieldDecl> := [
    BitField("messageType", 1, 7),
    BitField("ic", 1, 1),
    Plain("iana", IntFmt(4)),
    BitField("instanceId", 1, 5),
    BitField("rsvd", 1, 1),
    BitField("d", 1, 1),
    BitField("rq", 1, 1),
    Plain("vendorMessageType", IntFmt(1)),
    Plain("commandCode", IntFmt(1)),
    Plain("messageVersion", IntFmt(1))
  ]

  const VdmIanaRspHdrFields: seq<FieldDecl> := [
    BitField("messageType", 1, 7),
    BitField("ic", 1, 1),
    Plain("iana", IntFmt(4)),
    BitField("instanceId", 1, 5),
    BitField("rsvd", 1, 1),
    BitField("d", 1, 1),
    BitField("rq", 1, 1),
    Plain("vendorMessageType", IntFmt(1)),
    Plain("commandCode", IntFmt(1)),
    Plain("messageVersion", IntFmt(1)),
    Plain("completionCode", IntFmt(1))
  ]

  const DownloadLogFields: seq<FieldDecl> := [Plain("sessionId", IntFmt(1))]

  const DownloadLogResponseFields: seq<FieldDecl> := [
    Plain("sessionId", IntFmt(1)),
    Plain("length", IntFmt(1)),
    Plain("data", BytesFmt(52))
  ]

  // -----------------------------------------------------------------------
  // The two one-word headers

  lemma Pow2Table()
    ensures Pow2(1) == 2 && Pow2(2) == 4 && Pow2(3) == 8 && Pow2(4) == 16 && Pow2(7) == 0x80 && Pow2(8) == 0x100
    ensures Pow2(16) == 0x1_0000 && Pow2(24) == 0x100_0000 && Pow2(27) == 0x800_0000 && Pow2(28) == 0x1000_0000
    ensures Pow2(30) == 0x4000_0000 && Pow2(31) == 0x8000_0000
  {
    Pow2Of16();
    Pow2Add(16, 8);
    Pow2Add(24, 3);
    Pow2Add(24, 4);
    Pow2Of32();
  }

  /** The transport header's fields fill one 32-bit word, bit 0 upwards. */
  lemma MctpHeaderIsWord()
    ensures WordRun(MctpHeaderFields, 4) && BitsSum(MctpHeaderFields) == 32 && UniqueNames(MctpHeaderFields)
    ensures Format(MctpHeaderFields) == Ok([IntFmt(4)])
  {
    MctpHeaderRun();
    MctpHeaderBits();
    MctpHeaderNames();
    RunFormat(MctpHeaderFields, 4, 0, None);
  }

  lemma MctpHeaderRun()
    ensures WordRun(MctpHeaderFields, 4)
  {
    var f := MctpHeaderFields;
    forall k | 0 <= k < |f| ensures f[k].BitField? && f[k].container == 4 && f[k].bits > 0 {
      if k == 0 { } else if k == 1 { } else if k == 2 { } else if k == 3 { } else if k == 4 { }
      else if k == 5 { } else if k == 6 { } else if k == 7 { } else { }
    }
  }

  lemma MctpHeaderBits()
    ensures BitsSum(MctpHeaderFields) == 32
  {
    var f := MctpHeaderFields;
    assert BitsSum(f[8..]) == 1;
    assert BitsSum(f[7..]) == 2;
    assert BitsSum(f[6..]) == 4;
    assert BitsSum(f[5..]) == 5;
    assert BitsSum(f[4..]) == 8;
    assert BitsSum(f[3..]) == 16;
    assert BitsSum(f[2..]) == 24;
    assert BitsSum(f[1..]) == 28;
  }

  lemma MctpHeaderNames()
    ensures UniqueNames(MctpHeaderFields)
  {
    var f := MctpHeaderFields;
    forall i, j | 0 <= i < j < |f| ensures f[i].name != f[j].name {
      if i == 0 { } else if i == 1 { } else if i == 2 { } else if i == 3 { } else if i == 4 { }
      else if i == 5 { } else if i == 6 { } else { }
    }
  }

  lemma MctpMessageHeaderIsWord()
    ensures WordRun(MctpMessageHeaderFields, 4) && BitsSum(MctpMessageHeaderFields) == 32
    ensures UniqueNames(MctpMessageHeaderFields)
    ensures Format(MctpMessageHeaderFields) == Ok([IntFmt(4)])
  {
    MctpMessageHeaderShape();
    RunFormat(MctpMessageHeaderFields, 4, 0, None);
  }

  lemma MctpMessageHeaderShape()
    ensures WordRun(MctpMessageHeaderFields, 4) && BitsSum(MctpMessageHeaderFields) == 32
    ensures UniqueNames(MctpMessageHeaderFields)
  {
    var f := MctpMessageHeaderFields;
    assert BitsSum(f[3..]) == 8;
    assert BitsSum(f[2..]) == 24;
    assert BitsSum(f[1..]) == 25;
  }

  /** Every transport-header field has an integer value. */
  predicate MctpHeaderInts(a: map<string, Value>)
  {
    "version" in a && a["version"].IntVal? && "rsvd0" in a && a["rsvd0"].IntVal? &&
    "deid" in a && a["deid"].IntVal? && "seid" in a && a["seid"].IntVal? &&
    "tag" in a && a["tag"].IntVal? && "to" in a && a["to"].IntVal? && "seq" in a && a["seq"].IntVal? &&
    "eom" in a && a["eom"].IntVal? && "som" in a && a["som"].IntVal?
  }

  /** Every message-header field has an integer value. */
  predicate MctpMessageHeaderInts(a: map<string, Value>)
  {
    "type" in a && a["type"].IntVal? && "ic" in a && a["ic"].IntVal? &&
    "vendor_id" in a && a["vendor_id"].IntVal? && "nvdm_type" in a && a["nvdm_type"].IntVal?
  }

  lemma MctpHeaderIntAttrs(a: map<string, Value>)
    ensures MctpHeaderInts(a) <==> IntAttrs(MctpHeaderFields, a)
  {
    var f := MctpHeaderFields;
    if IntAttrs(f, a) {
      assert f[0].name in a && f[1].name in a && f[2].name in a && f[3].name in a && f[4].name in a;
      assert f[5].name in a && f[6].name in a && f[7].name in a && f[8].name in a;
    }
  }

  lemma MctpMessageHeaderIntAttrs(a: map<string, Value>)
    ensures MctpMessageHeaderInts(a) <==> IntAttrs(MctpMessageHeaderFields, a)
  {
    var f := MctpMessageHeaderFields;
    if IntAttrs(f, a) {
      assert f[0].name in a && f[1].name in a && f[2].name in a && f[3].name in a;
    }
  }

  /** The transport header word as DSP0236 lays it out: version in bits 3:0,
      rsvd0 in 7:4, destination endpoint id in 15:8, source endpoint id in
      23:16, message tag in 26:24, tag owner in 27, packet sequence number in
      29:28, end of message in 30 and start of message in 31. */
  function MctpHeaderWord(a: map<string, Value>): nat
    requires MctpHeaderInts(a)
  {
    a["version"].n % 0x10 + (a["rsvd0"].n % 0x10) * 0x10 + (a["deid"].n % 0x100) * 0x100 +
    (a["seid"].n % 0x100) * 0x1_0000 + (a["tag"].n % 8) * 0x100_0000 + (a["to"].n % 2) * 0x800_0000 +
    (a["seq"].n % 4) * 0x1000_0000 + (a["eom"].n % 2) * 0x4000_0000 + (a["som"].n % 2) * 0x8000_0000
  }

  /** The message header word: message type in bits 6:0, integrity check in 7,
      PCI vendor id in 23:8 and the NVDM type in 31:24. */
  function MctpMessageHeaderWord(a: map<string, Value>): nat
    requires MctpMessageHeaderInts(a)
  {
    a["type"].n % 0x80 + (a["ic"].n % 2) * 0x80 + (a["vendor_id"].n % 0x1_0000) * 0x100 +
    (a["nvdm_type"].n % 0x100) * 0x100_0000
  }

  /** The word of a transport header, field by field. */
  lemma MctpHeaderWordValue(a: map<string, Value>)
    requires MctpHeaderInts(a)
    ensures IntAttrs(MctpHeaderFields, a)
    ensures RunValue(MctpHeaderFields, a, 0) == MctpHeaderWord(a)
  {
    MctpHeaderIntAttrs(a);
    MctpHeaderLow(a);
    MctpHeaderMiddle(a);
    MctpHeaderHigh(a);
  }

  /** Version, reserved bits and destination endpoint id. */
  lemma MctpHeaderLow(a: map<string, Value>)
    requires MctpHeaderInts(a) && IntAttrs(MctpHeaderFields, a)
    ensures IntAttrs(MctpHeaderFields[3..], a)
    ensures RunValue(MctpHeaderFields, a, 0)
         == a["version"].n % 0x10 + (a["rsvd0"].n % 0x10) * 0x10 + (a["deid"].n % 0x100) * 0x100
            + RunValue(MctpHeaderFields[3..], a, 16)
  {
    Pow2Table();
    var f := MctpHeaderFields;
    assert f[0..] == f;
    RunValueAt(f, 0, a, 0);
    RunValueAt(f, 1, a, 4);
    RunValueAt(f, 2, a, 8);
  }

  /** Source endpoint id, message tag and tag owner. */
  lemma MctpHeaderMiddle(a: map<string, Value>)
    requires MctpHeaderInts(a) && IntAttrs(MctpHeaderFields, a)
    ensures IntAttrs(MctpHeaderFields[3..], a) && IntAttrs(MctpHeaderFields[6..], a)
    ensures RunValue(MctpHeaderFields[3..], a, 16)
         == (a["seid"].n % 0x100) * 0x1_0000 + (a["tag"].n % 8) * 0x100_0000 + (a["to"].n % 2) * 0x800_0000
            + RunValue(MctpHeaderFields[6..], a, 28)
  {
    Pow2Table();
    var f := MctpHeaderFields;
    RunValueAt(f, 3, a, 16);
    RunValueAt(f, 4, a, 24);
    RunValueAt(f, 5, a, 27);
  }

  /** Packet sequence number, end and start of message. */
  lemma MctpHeaderHigh(a: map<string, Value>)
    requires MctpHeaderInts(a) && IntAttrs(MctpHeaderFields, a)
    ensures IntAttrs(MctpHeaderFields[6..], a)
    ensures RunValue(MctpHeaderFields[6..], a, 28)
         == (a["seq"].n % 4) * 0x1000_0000 + (a["eom"].n % 2) * 0x4000_0000 + (a["som"].n % 2) * 0x8000_0000
  {
    Pow2Table();
    var f := MctpHeaderFields;
    RunValueAt(f, 6, a, 28);
    RunValueAt(f, 7, a, 30);
    RunValueAt(f, 8, a, 31);
    assert f[9..] == [];
  }

  /** One field of a run: its value cut to its width, at its offset. */
  lemma RunValueAt(f: seq<FieldDecl>, k: nat, a: map<string, Value>, off: nat)
    requires k < |f| && f[k].BitField? && IntAttrs(f, a)
    ensures IntAttrs(f[k..], a) && IntAttrs(f[k + 1..], a)
    ensures RunValue(f[k..], a, off) == (a[f[k].name].n % Pow2(f[k].bits)) * Pow2(off) + RunValue(f[k + 1..], a, off + f[k].bits)
  {
    assert f[k..][0] == f[k];
    assert f[k..][1..] == f[k + 1..];
  }

  /** The word of a message header, field by field. */
  lemma MctpMessageHeaderWordValue(a: map<string, Value>)
    requires MctpMessageHeaderInts(a)
    ensures IntAttrs(MctpMessageHeaderFields, a)
    ensures RunValue(MctpMessageHeaderFields, a, 0) == MctpMessageHeaderWord(a)
  {
    MctpMessageHeaderIntAttrs(a);
    Pow2Table();
    var f := MctpMessageHeaderFields;
    var r3 := RunValue(f[3..], a, 24);
    assert r3 == (a["nvdm_type"].n % 0x100) * 0x100_0000 by {
      assert f[3..][0] == f[3] == BitField("nvdm_type", 4, 8);
      assert f[3..][1..] == [];
      assert RunValue(f[3..][1..], a, 32) == 0;
      assert r3 == (a["nvdm_type"].n % Pow2(8)) * Pow2(24) + RunValue(f[3..][1..], a, 32);
    }
    var r2 := RunValue(f[2..], a, 8);
    assert r2 == (a["vendor_id"].n % 0x1_0000) * 0x100 + r3 by {
      assert f[2..][0] == f[2];
      assert f[2..][1..] == f[3..];
    }
    var r1 := RunValue(f[1..], a, 7);
    assert r1 == (a["ic"].n % 2) * 0x80 + r2 by {
      assert f[1..][0] == f[1];
      assert f[1..][1..] == f[2..];
    }
    assert RunValue(f, a, 0) == a["type"].n % 0x80 + r1;
  }

  lemma MctpHeaderSingleInt(a: map<string, Value>)
    requires MctpHeaderInts(a)
    ensures IntAttrs(MctpHeaderFields, a)
    ensures SingleInt(MctpHeaderFields, [IntFmt(4)], a, false, 4) == Ok(RunValue(MctpHeaderFields, a, 0))
    ensures RunValue(MctpHeaderFields, a, 0) < 0x1_0000_0000
  {
    MctpHeaderIsWord();
    MctpHeaderIntAttrs(a);
    WordToInt(MctpHeaderFields, a, false);
  }

  lemma MctpMessageHeaderSingleInt(a: map<string, Value>)
    requires MctpMessageHeaderInts(a)
    ensures IntAttrs(MctpMessageHeaderFields, a)
    ensures SingleInt(MctpMessageHeaderFields, [IntFmt(4)], a, false, 4) == Ok(RunValue(MctpMessageHeaderFields, a, 0))
    ensures RunValue(MctpMessageHeaderFields, a, 0) < 0x1_0000_0000
  {
    MctpMessageHeaderIsWord();
    MctpMessageHeaderIntAttrs(a);
    WordToInt(MctpMessageHeaderFields, a, false);
  }

  /** `MctpHeader.to_int()` is the DSP0236 header word, each value cut to its width. */
  lemma MctpHeaderToInt(a: map<string, Value>)
    requires MctpHeaderInts(a)
    ensures SingleInt(MctpHeaderFields, [IntFmt(4)], a, false, 4) == Ok(MctpHeaderWord(a))
  {
    MctpHeaderSingleInt(a);
    MctpHeaderWordValue(a);
  }

  /** `MctpMessageHeader.to_int()` is the message header word. */
  lemma MctpMessageHeaderToInt(a: map<string, Value>)
    requires MctpMessageHeaderInts(a)
    ensures SingleInt(MctpMessageHeaderFields, [IntFmt(4)], a, false, 4) == Ok(MctpMessageHeaderWord(a))
  {
    MctpMessageHeaderSingleInt(a);
    MctpMessageHeaderWordValue(a);
  }

  /** The attributes of a default transport header: start and end of message set, the rest zero. */
  predicate DefaultMctpHeader(a: map<string, Value>)
  {
    MctpHeaderInts(a) && a["som"] == IntVal(1) && a["eom"] == IntVal(1) &&
    a["version"] == a["rsvd0"] == a["deid"] == a["seid"] == IntVal(0) &&
    a["tag"] == a["to"] == a["seq"] == IntVal(0)
  }

  /** `MctpHeader()`: a zeroed header with start and end of message set. */
  method NewMctpHeader() returns (h: NiceStruct)
    ensures fresh(h) && h.Valid() && h.fields == MctpHeaderFields && h.fmts == [IntFmt(4)] && !h.hasName
    ensures DefaultMctpHeader(h.attrs)
  {
    MctpHeaderIsWord();
    h := new NiceStruct(MctpHeaderFields, false);
    ghost var a0 := h.attrs;
    MctpHeaderZeros(a0);
    h.SetAttr("som", IntVal(1));
    h.SetAttr("eom", IntVal(1));
  }

  lemma MctpHeaderZeros(a: map<string, Value>)
    requires forall k :: 0 <= k < |MctpHeaderFields| ==>
      MctpHeaderFields[k].name in a && a[MctpHeaderFields[k].name] == ZeroOf(MctpHeaderFields[k])
    ensures DefaultMctpHeader(a["som" := IntVal(1)]["eom" := IntVal(1)])
  {
    var f := MctpHeaderFields;
    assert a[f[0].name] == a[f[1].name] == a[f[2].name] == a[f[3].name] == IntVal(0);
    assert a[f[4].name] == a[f[5].name] == a[f[6].name] == IntVal(0);
  }

  /** `MctpMessageHeader()`: type 0x7E, vendor 0x10de, the rest zero. */
  method NewMctpMessageHeader() returns (h: NiceStruct)
    ensures fresh(h) && h.Valid() && h.fields == MctpMessageHeaderFields && h.fmts == [IntFmt(4)] && !h.hasName
    ensures DefaultMessageHeader(h.attrs, 0)
  {
    MctpMessageHeaderIsWord();
    h := new NiceStruct(MctpMessageHeaderFields, false);
    ghost var a0 := h.attrs;
    MctpMessageHeaderZeros(a0);
    h.SetAttr("type", IntVal(0x7e));
    h.SetAttr("vendor_id", IntVal(0x10de));
  }

  lemma MctpMessageHeaderZeros(a: map<string, Value>)
    requires forall k :: 0 <= k < |MctpMessageHeaderFields| ==>
      MctpMessageHeaderFields[k].name in a && a[MctpMessageHeaderFields[k].name] == ZeroOf(MctpMessageHeaderFields[k])
    ensures DefaultMessageHeader(a["type" := IntVal(0x7e)]["vendor_id" := IntVal(0x10de)], 0)
  {
    var f := MctpMessageHeaderFields;
    assert a[f[0].name].IntVal? && a[f[2].name].IntVal?;
    assert a[f[1].name] == a[f[3].name] == IntVal(0);
  }

  /** The attributes of a message header with the defaults and NVDM type `t`. */
  predicate DefaultMessageHeader(a: map<string, Value>, t: nat)
  {
    MctpMessageHeaderInts(a) && a["type"] == IntVal(0x7e) && a["vendor_id"] == IntVal(0x10de) &&
    a["ic"] == IntVal(0) && a["nvdm_type"] == IntVal(t)
  }

  /** The default transport header packs to 0xC0000000. */
  lemma DefaultMctpHeaderWord(a: map<string, Value>)
    requires DefaultMctpHeader(a)
    ensures SingleInt(MctpHeaderFields, [IntFmt(4)], a, false, 4) == Ok(0xC000_0000)
  {
    MctpHeaderToInt(a);
    DefaultMctpHeaderValue(a);
  }

  lemma DefaultMctpHeaderValue(a: map<string, Value>)
    requires DefaultMctpHeader(a)
    ensures MctpHeaderWord(a) == 0xC000_0000
  {
  }

  /** The default message header with NVDM type `t` packs to `0x0010de7e | t << 24`. */
  lemma DefaultMessageHeaderWord(a: map<string, Value>, t: nat)
    requires DefaultMessageHeader(a, t) && t < 0x100
    ensures SingleInt(MctpMessageHeaderFields, [IntFmt(4)], a, false, 4) == Ok(0x0010_de7e + t * 0x100_0000)
  {
    MctpMessageHeaderToInt(a);
    DefaultMessageHeaderValue(a, t);
  }

  lemma DefaultMessageHeaderValue(a: map<string, Value>, t: nat)
    requires DefaultMessageHeader(a, t) && t < 0x100
    ensures MctpMessageHeaderWord(a) == 0x0010_de7e + t * 0x100_0000
  {
  }

  /** `from_int(to_int())` on a transport header sets every field to its old
      value cut to its width. */
  lemma MctpHeaderRoundTrip(a: map<string, Value>, m: map<string, Value>, k: nat)
    requires MctpHeaderInts(a) && k < |MctpHeaderFields|
    ensures var w := SingleInt(MctpHeaderFields, [IntFmt(4)], a, false, 4);
            var f := MctpHeaderFields[k];
            w.Ok? && w.value < 0x1_0000_0000 &&
            var d := DecodeBytes(MctpHeaderFields, [IntFmt(4)], LeBytes(w.value, 4), m);
            f.name in a && d.status == Ok(()) && f.name in d.attrs && d.attrs[f.name] == Masked(f, a[f.name])
  {
    MctpHeaderIsWord();
    MctpHeaderSingleInt(a);
    WordFieldsRestored(MctpHeaderFields, a, m, k);
  }

  /** ... and so on a message header. */
  lemma MctpMessageHeaderRoundTrip(a: map<string, Value>, m: map<string, Value>, k: nat)
    requires MctpMessageHeaderInts(a) && k < |MctpMessageHeaderFields|
    ensures var w := SingleInt(MctpMessageHeaderFields, [IntFmt(4)], a, false, 4);
            var f := MctpMessageHeaderFields[k];
            w.Ok? && w.value < 0x1_0000_0000 &&
            var d := DecodeBytes(MctpMessageHeaderFields, [IntFmt(4)], LeBytes(w.value, 4), m);
            f.name in a && d.status == Ok(()) && f.name in d.attrs && d.attrs[f.name] == Masked(f, a[f.name])
  {
    MctpMessageHeaderIsWord();
    MctpMessageHeaderSingleInt(a);
    WordFieldsRestored(MctpMessageHeaderFields, a, m, k);
  }

  // -----------------------------------------------------------------------
  // The vendor-defined (IANA) request header

  /** The attributes `MctpVdmIanaReqHeader()` sets: message type 0x7F,
      NVIDIA's IANA enterprise number, a request (rq = 1) of vendor message
      type 1, every other field 0. */
  predicate DefaultReqHeader(a: map<string, Value>)
  {
    "messageType" in a && a["messageType"] == IntVal(0x7F) && "ic" in a && a["ic"] == IntVal(0) &&
    "iana" in a && a["iana"] == IntVal(IanaNvidia) && "instanceId" in a && a["instanceId"] == IntVal(0) &&
    "rsvd" in a && a["rsvd"] == IntVal(0) && "d" in a && a["d"] == IntVal(0) && "rq" in a && a["rq"] == IntVal(1) &&
    "vendorMessageType" in a && a["vendorMessageType"] == IntVal(1) &&
    "commandCode" in a && a["commandCode"] == IntVal(0) && "messageVersion" in a && a["messageVersion"] == IntVal(0)
  }

  /** `MctpVdmIanaReqHeader()`. */
  method NewVdmIanaReqHeader() returns (h: NiceStruct)
    ensures fresh(h) && h.Valid() && h.fields == VdmIanaReqHeaderFields && !h.hasName
    ensures h.size == 9
    ensures DefaultReqHeader(h.attrs)
  {
    ReqHdrLayout();
    h := new NiceStruct(VdmIanaReqHeaderFields, false);
    ghost var a0 := h.attrs;
    SetReqDefaults(h);
    DefaultReqHeaderSet(a0);
  }

  /** The assignments of `MctpVdmIanaReqHeader.__init__`, in order. */
  method SetReqDefaults(h: NiceStruct)
    modifies h
    ensures h.attrs == old(h.attrs)["messageType" := IntVal(0x7F)]["ic" := IntVal(0)]["iana" := IntVal(IanaNvidia)]
      ["instanceId" := IntVal(0)]["rsvd" := IntVal(0)]["d" := IntVal(0)]["rq" := IntVal(1)]
      ["vendorMessageType" := IntVal(1)]["commandCode" := IntVal(0)]["messageVersion" := IntVal(0)]
  {
    assert And(VendorDefinedIana, 0x7F) == 0x7F by {
      AndLowMask(0x7F, 7);
      Pow2Table();
    }
    h.SetAttr("messageType", IntVal(And(VendorDefinedIana, 0x7F)));
    h.SetAttr("ic", IntVal(0));
    h.SetAttr("iana", IntVal(IanaNvidia));
    h.SetAttr("instanceId", IntVal(0));
    h.SetAttr("rsvd", IntVal(0));
    h.SetAttr("d", IntVal(0));
    h.SetAttr("rq", IntVal(1));
    h.SetAttr("vendorMessageType", IntVal(1));
    h.SetAttr("commandCode", IntVal(0));
    h.SetAttr("messageVersion", IntVal(0));
  }

  lemma DefaultReqHeaderSet(a: map<string, Value>)
    ensures DefaultReqHeader(a["messageType" := IntVal(0x7F)]["ic" := IntVal(0)]["iana" := IntVal(IanaNvidia)]
      ["instanceId" := IntVal(0)]["rsvd" := IntVal(0)]["d" := IntVal(0)]["rq" := IntVal(1)]
      ["vendorMessageType" := IntVal(1)]["commandCode" := IntVal(0)]["messageVersion" := IntVal(0)])
  {
  }

  /** `set_commandCode(c)`: only the low 8 bits are kept. */
  method SetCommandCode(h: NiceStruct, c: nat)
    modifies h
    ensures h.attrs == old(h.attrs)["commandCode" := IntVal(c % 0x100)]
  {
    LowByte(c);
    h.SetAttr("commandCode", IntVal(And(c, 0xFF)));
  }

  /** `set_messageVersion(v)`: only the low 8 bits are kept. */
  method SetMessageVersion(h: NiceStruct, v: nat)
    modifies h
    ensures h.attrs == old(h.attrs)["messageVersion" := IntVal(v % 0x100)]
  {
    LowByte(v);
    h.SetAttr("messageVersion", IntVal(And(v, 0xFF)));
  }

  lemma LowByte(x: nat)
    ensures And(x, 0xFF) == x % 0x100
  {
    AndLowMask(x, 8);
    Pow2Table();
  }

  /** The request header packs as `<BIBBBB`: nine bytes, with the message type
      and integrity check sharing the first byte and instance id, rsvd, d and rq
      sharing the sixth. */
  lemma ReqHdrLayout()
    ensures Format(VdmIanaReqHeaderFields) == Ok([IntFmt(1), IntFmt(4), IntFmt(1), IntFmt(1), IntFmt(1), IntFmt(1)])
    ensures NoEmptyBitfield(VdmIanaReqHeaderFields) && UniqueNames(VdmIanaReqHeaderFields)
    ensures CalcSize([IntFmt(1), IntFmt(4), IntFmt(1), IntFmt(1), IntFmt(1), IntFmt(1)]) == 9
  {
    ReqHdrFormat();
    ReqHdrNames();
  }

  lemma ReqHdrNames()
    ensures NoEmptyBitfield(VdmIanaReqHeaderFields) && UniqueNames(VdmIanaReqHeaderFields)
  {
    var f := VdmIanaReqHeaderFields;
    forall i, j | 0 <= i < j < |f| ensures f[i].name != f[j].name {
      if i == 0 { } else if i == 1 { } else if i == 2 { } else if i == 3 { } else if i == 4 { }
      else if i == 5 { } else if i == 6 { } else if i == 7 { } else if i == 8 { } else { }
    }
  }

  lemma ReqHdrFormat()
    ensures Format(VdmIanaReqHeaderFields) == Ok([IntFmt(1), IntFmt(4), IntFmt(1), IntFmt(1), IntFmt(1), IntFmt(1)])
  {
    ReqHdrFormatOf(VdmIanaReqHeaderFields);
  }

  lemma ReqHdrFormatOf(f: seq<FieldDecl>)
    requires f == VdmIanaReqHeaderFields
    ensures FormatFrom(f, 0, None) == Ok([IntFmt(1), IntFmt(4), IntFmt(1), IntFmt(1), IntFmt(1), IntFmt(1)])
  {
    var b := IntFmt(1);
    ReqHdrAfterType();
    FormatStep(f, 1, 7, Some(1));
    assert [b] + [IntFmt(4), b, b, b, b] == [b, IntFmt(4), b, b, b, b];
    assert FormatFrom(f[1..], 7, Some(1)) == Ok([b, IntFmt(4), b, b, b, b]);
    FormatStep(f, 0, 0, None);
    assert f[0..] == f;
  }

  lemma ReqHdrAfterType()
    ensures FormatFrom(VdmIanaReqHeaderFields[2..], 0, None) == Ok([IntFmt(4), IntFmt(1), IntFmt(1), IntFmt(1), IntFmt(1)])
  {
    var f := VdmIanaReqHeaderFields;
    var b := IntFmt(1);
    ReqHdrBody();
    FormatStep(f, 2, 0, None);
    assert [IntFmt(4)] + [b, b, b, b] == [IntFmt(4), b, b, b, b];
  }

  lemma ReqHdrBody()
    ensures FormatFrom(VdmIanaReqHeaderFields[3..], 0, None) == Ok([IntFmt(1), IntFmt(1), IntFmt(1), IntFmt(1)])
  {
    var f := VdmIanaReqHeaderFields;
    var b := IntFmt(1);
    ReqHdrTail();
    FormatStep(f, 6, 7, Some(1));
    assert [b] + [b, b, b] == [b, b, b, b];
    assert FormatFrom(f[6..], 7, Some(1)) == Ok([b, b, b, b]);
    FormatStep(f, 5, 6, Some(1));
    assert FormatFrom(f[5..], 6, Some(1)) == Ok([b, b, b, b]);
    FormatStep(f, 4, 5, Some(1));
    assert FormatFrom(f[4..], 5, Some(1)) == Ok([b, b, b, b]);
    FormatStep(f, 3, 0, None);
  }

  lemma ReqHdrTail()
    ensures FormatFrom(VdmIanaReqHeaderFields[7..], 0, None) == Ok([IntFmt(1), IntFmt(1), IntFmt(1)])
  {
    var f := VdmIanaReqHeaderFields;
    var b := IntFmt(1);
    FormatStep(f, 9, 0, None);
    assert f[10..] == [];
    assert [b] + [] == [b];
    assert FormatFrom(f[9..], 0, None) == Ok([b]);
    FormatStep(f, 8, 0, None);
    assert [b] + [b] == [b, b];
    assert FormatFrom(f[8..], 0, None) == Ok([b, b]);
    FormatStep(f, 7, 0, None);
    assert [b] + [b, b] == [b, b, b];
  }

  /** The response header is the request header plus a completion code byte. */
  lemma RspHdrLayout()
    ensures Format(VdmIanaRspHdrFields) ==
      Ok([IntFmt(1), IntFmt(4), IntFmt(1), IntFmt(1), IntFmt(1), IntFmt(1), IntFmt(1)])
    ensures NoEmptyBitfield(VdmIanaRspHdrFields) && UniqueNames(VdmIanaRspHdrFields)
    ensures CalcSize([IntFmt(1), IntFmt(4), IntFmt(1), IntFmt(1), IntFmt(1), IntFmt(1), IntFmt(1)]) == 10
  {
    RspHdrFormat();
    RspHdrNames();
  }

  lemma RspHdrNames()
    ensures NoEmptyBitfield(VdmIanaRspHdrFields) && UniqueNames(VdmIanaRspHdrFields)
  {
    var f := VdmIanaRspHdrFields;
    forall i, j | 0 <= i < j < |f| ensures f[i].name != f[j].name {
      if i == 0 { } else if i == 1 { } else if i == 2 { } else if i == 3 { } else if i == 4 { }
      else if i == 5 { } else if i == 6 { } else if i == 7 { } else if i == 8 { } else { }
    }
  }

  lemma RspHdrFormat()
    ensures Format(VdmIanaRspHdrFields) ==
      Ok([IntFmt(1), IntFmt(4), IntFmt(1), IntFmt(1), IntFmt(1), IntFmt(1), IntFmt(1)])
  {
    RspHdrFormatOf(VdmIanaRspHdrFields);
  }

  lemma RspHdrFormatOf(f: seq<FieldDecl>)
    requires f == VdmIanaRspHdrFields
    ensures FormatFrom(f, 0, None) == Ok([IntFmt(1), IntFmt(4), IntFmt(1), IntFmt(1), IntFmt(1), IntFmt(1), IntFmt(1)])
  {
    var b := IntFmt(1);
    RspHdrAfterType();
    FormatStep(f, 1, 7, Some(1));
    assert [b] + [IntFmt(4), b, b, b, b, b] == [b, IntFmt(4), b, b, b, b, b];
    assert FormatFrom(f[1..], 7, Some(1)) == Ok([b, IntFmt(4), b, b, b, b, b]);
    FormatStep(f, 0, 0, None);
    assert f[0..] == f;
  }

  lemma RspHdrAfterType()
    ensures FormatFrom(VdmIanaRspHdrFields[2..], 0, None)
         == Ok([IntFmt(4), IntFmt(1), IntFmt(1), IntFmt(1), IntFmt(1), IntFmt(1)])
  {
    var f := VdmIanaRspHdrFields;
    var b := IntFmt(1);
    RspHdrBody();
    FormatStep(f, 2, 0, None);
    assert [IntFmt(4)] + [b, b, b, b, b] == [IntFmt(4), b, b, b, b, b];
  }

  lemma RspHdrBody()
    ensures FormatFrom(VdmIanaRspHdrFields[3..], 0, None) == Ok([IntFmt(1), IntFmt(1), IntFmt(1), IntFmt(1), IntFmt(1)])
  {
    var f := VdmIanaRspHdrFields;
    var b := IntFmt(1);
    RspHdrTail();
    FormatStep(f, 6, 7, Some(1));
    assert [b] + [b, b, b, b] == [b, b, b, b, b];
    assert FormatFrom(f[6..], 7, Some(1)) == Ok([b, b, b, b, b]);
    FormatStep(f, 5, 6, Some(1));
    assert FormatFrom(f[5..], 6, Some(1)) == Ok([b, b, b, b, b]);
    FormatStep(f, 4, 5, Some(1));
    assert FormatFrom(f[4..], 5, Some(1)) == Ok([b, b, b, b, b]);
    FormatStep(f, 3, 0, None);
  }

  lemma RspHdrTail()
    ensures FormatFrom(VdmIanaRspHdrFields[7..], 0, None) == Ok([IntFmt(1), IntFmt(1), IntFmt(1), IntFmt(1)])
  {
    var f := VdmIanaRspHdrFields;
    var b := IntFmt(1);
    FormatStep(f, 10, 0, None);
    assert f[11..] == [];
    assert [b] + [] == [b];
    assert FormatFrom(f[10..], 0, None) == Ok([b]);
    FormatStep(f, 9, 0, None);
    assert [b] + [b] == [b, b];
    assert FormatFrom(f[9..], 0, None) == Ok([b, b]);
    FormatStep(f, 8, 0, None);
    assert [b] + [b, b] == [b, b, b];
    assert FormatFrom(f[8..], 0, None) == Ok([b, b, b]);
    FormatStep(f, 7, 0, None);
    assert [b] + [b, b, b] == [b, b, b, b];
  }

  // -----------------------------------------------------------------------
  // Download log

  lemma DownloadLogLayout()
    ensures Format(DownloadLogFields) == Ok([IntFmt(1)]) && CalcSize([IntFmt(1)]) == 1
    ensures NoEmptyBitfield(DownloadLogFields) && UniqueNames(DownloadLogFields)
  {
    var f := DownloadLogFields;
    FormatStep(f, 0, 0, None);
    assert f[1..] == [] && f[0..] == f;
    assert [IntFmt(1)] + [] == [IntFmt(1)];
    assert [IntFmt(1)][1..] == [];
  }

  /** The download-log response packs as `<BB52s`: 54 bytes. */
  lemma DownloadLogResponseLayout()
    ensures Format(DownloadLogResponseFields) == Ok([IntFmt(1), IntFmt(1), BytesFmt(52)])
    ensures CalcSize([IntFmt(1), IntFmt(1), BytesFmt(52)]) == 54
    ensures NoEmptyBitfield(DownloadLogResponseFields) && UniqueNames(DownloadLogResponseFields)
  {
    var f := DownloadLogResponseFields;
    FormatStep(f, 2, 0, None);
    assert f[3..] == [];
    assert [BytesFmt(52)] + [] == [BytesFmt(52)];
    FormatStep(f, 1, 0, None);
    assert [IntFmt(1)] + [BytesFmt(52)] == [IntFmt(1), BytesFmt(52)];
    FormatStep(f, 0, 0, None);
    assert [IntFmt(1)] + [IntFmt(1), BytesFmt(52)] == [IntFmt(1), IntFmt(1), BytesFmt(52)];
    assert f[0..] == f;
  }

  /** `MctpVdmIanaDownloadLog()`: session id 0xFF. */
  method NewDownloadLog() returns (h: NiceStruct)
    ensures fresh(h) && h.Valid() && h.fields == DownloadLogFields && h.size == 1
    ensures h.attrs == map["sessionId" := IntVal(0xFF)]
  {
    DownloadLogLayout();
    h := new NiceStruct(DownloadLogFields, false);
    assert h.attrs == map["sessionId" := IntVal(0)] by {
      assert DownloadLogFields[1..] == [];
    }
    h.SetAttr("sessionId", IntVal(0xFF));
  }

  /** `set_sessionId(s)`: only the low 8 bits are kept. */
  method SetSessionId(h: NiceStruct, s: nat)
    modifies h
    ensures h.attrs == old(h.attrs)["sessionId" := IntVal(s % 0x100)]
  {
    LowByte(s);
    h.SetAttr("sessionId", IntVal(And(s, 0xFF)));
  }

  /** `MctpVdmIanaDownloadLogResponse()`: a zero session id and length and 52 zero bytes. */
  method NewDownloadLogResponse() returns (h: NiceStruct)
    ensures fresh(h) && h.Valid() && h.fields == DownloadLogResponseFields && h.size == 54
    ensures h.fmts == [IntFmt(1), IntFmt(1), BytesFmt(52)]
    ensures h.attrs == map["sessionId" := IntVal(0), "length" := IntVal(0), "data" := BytesVal(Zeros(52))]
  {
    DownloadLogResponseLayout();
    h := new NiceStruct(DownloadLogResponseFields, false);
    h.SetAttr("sessionId", IntVal(0));
    h.SetAttr("length", IntVal(0));
    h.SetAttr("data", BytesVal(Zeros(52)));
    assert h.attrs.Keys == {"sessionId", "length", "data"} by {
      var f := DownloadLogResponseFields;
      var z := ZeroAll(f);
      assert f[1..][1..] == f[2..] && f[2..][1..] == [];
      assert z[1..][1..] == z[2..];
      var m := map["sessionId" := z[0], "length" := z[1], "data" := z[2]];
      assert Assign(f[2..], z[2..], map["sessionId" := z[0], "length" := z[1]]) == m;
      assert Assign(f[1..], z[1..], map["sessionId" := z[0]]) == m;
      assert Assign(f, z, map[]) == m;
    }
  }

  /** The attributes of a download-log response holding session id `s`,
      length `l` and data `d`. */
  predicate DownloadLogResponseAttrs(a: map<string, Value>, s: nat, l: nat, d: seq<u8>)
  {
    a == map["sessionId" := IntVal(s), "length" := IntVal(l), "data" := BytesVal(d)]
  }

  /** The items the `to_bytes` loop collects for a download-log response:
      the data bytes are spread one int per byte. */
  lemma DownloadLogResponseItemsAsWritten(a: map<string, Value>, s: nat, l: nat, d: seq<u8>)
    requires DownloadLogResponseAttrs(a, s, l, d)
    ensures EncodeFrom(DownloadLogResponseFields, a, 0, 0, None, false) == Ok([IntVal(s), IntVal(l)] + ByteInts(d))
  {
    var f := DownloadLogResponseFields;
    var items := ByteInts(d);
    EncodeStep(f, 2, a, 0, 0, None, false);
    assert f[3..] == [];
    assert EncodeFrom(f[2..], a, 0, 0, None, false) == Ok(items + []);
    EncodeStep(f, 1, a, 0, 0, None, false);
    assert EncodeFrom(f[1..], a, 0, 0, None, false) == Ok([IntVal(l)] + (items + []));
    EncodeStep(f, 0, a, 0, 0, None, false);
    assert f[0..] == f;
    assert [IntVal(s)] + ([IntVal(l)] + (items + [])) == [IntVal(s), IntVal(l)] + items;
  }

  /** With the data packed as one bytes item, the loop collects three items. */
  lemma DownloadLogResponseItemsIntended(a: map<string, Value>, s: nat, l: nat, d: seq<u8>)
    requires DownloadLogResponseAttrs(a, s, l, d)
    ensures EncodeFrom(DownloadLogResponseFields, a, 0, 0, None, true) == Ok([IntVal(s), IntVal(l), BytesVal(d)])
  {
    var f := DownloadLogResponseFields;
    var items := [BytesVal(d)];
    EncodeStep(f, 2, a, 0, 0, None, true);
    assert f[3..] == [];
    assert EncodeFrom(f[2..], a, 0, 0, None, true) == Ok(items + []);
    EncodeStep(f, 1, a, 0, 0, None, true);
    assert EncodeFrom(f[1..], a, 0, 0, None, true) == Ok([IntVal(l)] + (items + []));
    EncodeStep(f, 0, a, 0, 0, None, true);
    assert f[0..] == f;
    assert [IntVal(s)] + ([IntVal(l)] + (items + [])) == [IntVal(s), IntVal(l), BytesVal(d)];
  }

  /** As written, `to_bytes()` of a download-log response spreads the data
      bytes into separate ints, so `struct.pack` raises whatever the response
      holds: with |d| != 1 the item count is not 3, and with one data byte the
      third item is an int where `52s` needs bytes. */
  lemma DownloadLogResponseToBytesFails(a: map<string, Value>, s: nat, l: nat, d: seq<u8>)
    requires DownloadLogResponseAttrs(a, s, l, d)
    ensures EncodeBytes(DownloadLogResponseFields, [IntFmt(1), IntFmt(1), BytesFmt(52)], a).Err?
    ensures EncodeBytes(DownloadLogResponseFields, [IntFmt(1), IntFmt(1), BytesFmt(52)], a).error.StructError?
  {
    DownloadLogResponseItemsAsWritten(a, s, l, d);
    if |d| == 1 {
      // three items, but the third is an int where `52s` needs bytes
      var fmts := [IntFmt(1), IntFmt(1), BytesFmt(52)];
      var vals := [IntVal(s), IntVal(l)] + ByteInts(d);
      assert vals[2] == IntVal(d[0]);
      assert PackAll(fmts[2..], vals[2..]).Err? by {
        assert fmts[2..][0] == BytesFmt(52) && vals[2..][0] == IntVal(d[0]);
      }
      assert PackAll(fmts[1..], vals[1..]).Err? by {
        assert fmts[1..][1..] == fmts[2..] && vals[1..][1..] == vals[2..];
      }
    }
  }

  /** Packing the data field as one bytes item, a response with byte-sized
      session id and length packs to those two bytes followed by the data
      truncated or zero-padded to 52 bytes. */
  lemma DownloadLogResponseToBytesIntended(a: map<string, Value>, s: nat, l: nat, d: seq<u8>)
    requires DownloadLogResponseAttrs(a, s, l, d) && s < 0x100 && l < 0x100
    ensures EncodeBytesIntended(DownloadLogResponseFields, [IntFmt(1), IntFmt(1), BytesFmt(52)], a)
         == Ok([s as u8, l as u8] + PadTo(d, 52))
  {
    var fmts := [IntFmt(1), IntFmt(1), BytesFmt(52)];
    var vals := [IntVal(s), IntVal(l), BytesVal(d)];
    DownloadLogResponseItemsIntended(a, s, l, d);
    assert PackAll(fmts[2..], vals[2..]) == Ok(PadTo(d, 52) + []) by {
      assert fmts[2..][1..] == [] && vals[2..][1..] == [];
      assert fmts[2..][0] == BytesFmt(52) && vals[2..][0] == BytesVal(d);
    }
    assert LeBytes(l, 1) == [l as u8];
    assert PackAll(fmts[1..], vals[1..]) == Ok([l as u8] + (PadTo(d, 52) + [])) by {
      assert fmts[1..][1..] == fmts[2..] && vals[1..][1..] == vals[2..];
    }
    assert LeBytes(s, 1) == [s as u8];
    assert PackAll(fmts, vals) == Ok([s as u8] + ([l as u8] + (PadTo(d, 52) + [])));
    assert [s as u8] + ([l as u8] + (PadTo(d, 52) + [])) == [s as u8, l as u8] + PadTo(d, 52);
  }

  /** The response `MctpVdmIanaDownloadLogResponse()` builds cannot be
      serialised as written, while the intended packing gives 54 zero bytes. */
  lemma DefaultDownloadLogResponseBytes(a: map<string, Value>)
    requires DownloadLogResponseAttrs(a, 0, 0, Zeros(52))
    ensures EncodeBytes(DownloadLogResponseFields, [IntFmt(1), IntFmt(1), BytesFmt(52)], a).Err?
    ensures EncodeBytesIntended(DownloadLogResponseFields, [IntFmt(1), IntFmt(1), BytesFmt(52)], a) == Ok(Zeros(54))
  {
    var z := Zeros(52);
    DownloadLogResponseToBytesFails(a, 0, 0, z);
    DownloadLogResponseToBytesIntended(a, 0, 0, z);
    assert PadTo(z, 52) == z;
    ZerosAppend(2, 52);
    assert [0 as u8, 0 as u8] == Zeros(2);
  }
}
