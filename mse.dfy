/*
 * The MSE client: a four-word `MseHeader` in front of every command, sent
 * and received over the MSE's MNOC mailbox (port 1 at 0x2c01e00).  Commands
 * carry a context id that grows by one per command; replies are recognised
 * by the header's `flags_type` bit, and requests the MSE sends in between
 * are dropped.
 */
module Mse {
  import opened Bits
  import opened Text
  import opened GpuErrors
  import opened IntsToBytes
  import opened NiceStructs
  import opened WordRuns
  import opened Devices
  import opened Mnocs
  import FspMctp
  import opened Falcons

  // -----------------------------------------------------------------------
  // The header layout, one run of bitfields per 32-bit word

  const Word0: seq<FieldDecl> := [
    BitField("version", 4, 8),
    BitField("status", 4, 6),
    BitField("rsvd0", 4, 2),
    BitField("ssid", 4, 8),
    BitField("dsid", 4, 8)
  ]

  const Word1: seq<FieldDecl> := [
    BitField("ctxid", 4, 16),
    BitField("cmd_opcode", 4, 12),
    BitField("cmd_class", 4, 4)
  ]

  const Word2: seq<FieldDecl> := [
    BitField("credit", 4, 11),
    BitField("credit_priority", 4, 2),
    BitField("credit_reset", 4, 1),
    BitField("rsvd1", 4, 2),
    BitField("flags_type", 4, 1),
    BitField("flags_final", 4, 1),
    BitField("flags_reset", 4, 1),
    BitField("flags_rsvd", 4, 3),
    BitField("priority", 4, 2),
    BitField("endpoint_specific", 4, 8)
  ]

  const Word3: seq<FieldDecl> := [BitField("rsvd3", 4, 32)]

  const MseHeaderRuns: seq<seq<FieldDecl>> := [Word0, Word1, Word2, Word3]

  /** `MseHeader._fields_` */
  const MseHeaderFields: seq<FieldDecl> := Word0 + Word1 + Word2 + Word3

  lemma MseHeaderFlat()
    ensures Flatten(MseHeaderRuns) == MseHeaderFields
  {
    var r := MseHeaderRuns;
    assert r[1..][1..][1..][1..] == [];
    assert Flatten(r[1..][1..][1..]) == Word3;
    assert Flatten(r[1..][1..]) == Word2 + Word3;
    assert Flatten(r[1..]) == Word1 + (Word2 + Word3);
  }

  lemma MseHeaderWordRuns()
    ensures WordRuns.WordRuns(MseHeaderRuns)
  {
    Word0Run();
    Word1Run();
    Word2Run();
    Word2Bits();
    Word3Run();
    FourWordRuns(MseHeaderRuns);
  }

  lemma FourWordRuns(r: seq<seq<FieldDecl>>)
    requires |r| == 4
    requires |r[0]| > 0 && WordRun(r[0], 4) && BitsSum(r[0]) == 32
    requires |r[1]| > 0 && WordRun(r[1], 4) && BitsSum(r[1]) == 32
    requires |r[2]| > 0 && WordRun(r[2], 4) && BitsSum(r[2]) == 32
    requires |r[3]| > 0 && WordRun(r[3], 4) && BitsSum(r[3]) == 32
    ensures WordRuns.WordRuns(r)
  {
  }

  lemma Word3Run()
    ensures WordRun(Word3, 4) && BitsSum(Word3) == 32
  {
    assert BitsSum(Word3[1..]) == 0;
  }

  lemma Word0Run()
    ensures WordRun(Word0, 4) && BitsSum(Word0) == 32
  {
    var f := Word0;
    assert BitsSum(f[4..]) == 8;
    assert BitsSum(f[3..]) == 16;
    assert BitsSum(f[2..]) == 18;
    assert BitsSum(f[1..]) == 24;
  }

  lemma Word1Run()
    ensures WordRun(Word1, 4) && BitsSum(Word1) == 32
  {
    var f := Word1;
    assert BitsSum(f[2..]) == 4;
    assert BitsSum(f[1..]) == 16;
  }

  lemma Word2Run()
    ensures WordRun(Word2, 4)
  {
    var f := Word2;
    forall k | 0 <= k < |f| ensures f[k].BitField? && f[k].container == 4 && f[k].bits > 0 {
      if k < 5 { } else { }
    }
  }

  lemma Word2Bits()
    ensures BitsSum(Word2) == 32
  {
    var f := Word2;
    assert BitsSum(f[9..]) == 8;
    assert BitsSum(f[8..]) == 10;
    assert BitsSum(f[7..]) == 13;
    assert BitsSum(f[6..]) == 14;
    assert BitsSum(f[5..]) == 15;
    assert BitsSum(f[4..]) == 16;
    assert BitsSum(f[3..]) == 18;
    assert BitsSum(f[2..]) == 19;
    assert BitsSum(f[1..]) == 21;
  }

  lemma MseHeaderNames()
    ensures UniqueNames(MseHeaderFields)
  {
    var f := MseHeaderFields;
    forall i, j | 0 <= i < j < |f| ensures f[i].name != f[j].name {
      if i == 0 { } else if i == 1 { } else if i == 2 { } else if i == 3 { } else if i == 4 { }
      else if i == 5 { } else if i == 6 { } else if i == 7 { } else if i == 8 { } else if i == 9 { }
      else if i == 10 { } else if i == 11 { } else if i == 12 { } else if i == 13 { } else if i == 14 { }
      else if i == 15 { } else if i == 16 { } else { }
    }
  }

  /** `class MseHeader(NiceStruct)` is accepted: four words, `"<IIII"`,
      sixteen bytes. */
  lemma MseHeaderLayout()
    ensures WordRuns.WordRuns(MseHeaderRuns) && UniqueNames(MseHeaderFields) && NoEmptyBitfield(MseHeaderFields)
    ensures Format(MseHeaderFields) == Ok(WordFmts(4)) && CalcSize(WordFmts(4)) == 16
  {
    MseHeaderWordRuns();
    MseHeaderFlat();
    MseHeaderNames();
    WordRunsFormat(MseHeaderRuns);
    var f := MseHeaderFields;
    forall k | 0 <= k < |f| ensures f[k].BitField? && f[k].bits > 0 {
      if k < 5 { assert f[k] == Word0[k]; }
      else if k < 8 { assert f[k] == Word1[k - 5]; }
      else if k < 18 { assert f[k] == Word2[k - 8]; }
      else { assert f[k] == Word3[k - 18]; }
    }
  }

  // -----------------------------------------------------------------------
  // The header of a command

  /** The attributes `send_cmd` leaves on a fresh header: the context id,
      class and opcode it was given, credit 8, source id 9, destination id 4,
      `flags_reset` set exactly when `reset`, every other field zero. */
  predicate CmdAttrs(a: map<string, Value>, ctx: nat, cls: nat, opc: nat, reset: bool)
  {
    Word0Cmd(a) && Word1Cmd(a, ctx, cls, opc) && Word2Cmd(a, reset) && Word3Cmd(a)
  }

  predicate Word0Cmd(a: map<string, Value>)
  {
    "version" in a && "status" in a && "rsvd0" in a && "ssid" in a && "dsid" in a &&
    a["version"] == a["status"] == a["rsvd0"] == IntVal(0) && a["ssid"] == IntVal(9) && a["dsid"] == IntVal(4)
  }

  predicate Word1Cmd(a: map<string, Value>, ctx: nat, cls: nat, opc: nat)
  {
    "ctxid" in a && "cmd_opcode" in a && "cmd_class" in a &&
    a["ctxid"] == IntVal(ctx) && a["cmd_opcode"] == IntVal(opc) && a["cmd_class"] == IntVal(cls)
  }

  predicate Word2Cmd(a: map<string, Value>, reset: bool)
  {
    "credit" in a && "credit_priority" in a && "credit_reset" in a && "rsvd1" in a && "flags_type" in a &&
    "flags_final" in a && "flags_reset" in a && "flags_rsvd" in a && "priority" in a && "endpoint_specific" in a &&
    a["credit"] == IntVal(8) && a["credit_priority"] == a["credit_reset"] == a["rsvd1"] == IntVal(0) &&
    a["flags_type"] == a["flags_final"] == IntVal(0) && a["flags_reset"] == IntVal(if reset then 1 else 0) &&
    a["flags_rsvd"] == a["priority"] == a["endpoint_specific"] == IntVal(0)
  }

  predicate Word3Cmd(a: map<string, Value>)
  {
    "rsvd3" in a && a["rsvd3"] == IntVal(0)
  }

  /** The powers of two at the header's field boundaries. */
  lemma MsePow2()
    ensures Pow2(0) == 1 && Pow2(1) == 2 && Pow2(2) == 4 && Pow2(3) == 8 && Pow2(4) == 0x10 && Pow2(6) == 0x40
    ensures Pow2(8) == 0x100 && Pow2(11) == 0x800 && Pow2(12) == 0x1000 && Pow2(13) == 0x2000
    ensures Pow2(14) == 0x4000 && Pow2(16) == 0x1_0000 && Pow2(17) == 0x2_0000 && Pow2(18) == 0x4_0000
    ensures Pow2(19) == 0x8_0000 && Pow2(22) == 0x40_0000 && Pow2(24) == 0x100_0000 && Pow2(28) == 0x1000_0000
    ensures Pow2(32) == 0x1_0000_0000
  {
    Pow2Values();
    assert Pow2(3) == 8 && Pow2(2) == 4 && Pow2(1) == 2;
    Pow2Add(4, 2);
    Pow2Add(8, 3);
    Pow2Add(12, 1);
    Pow2Add(12, 2);
    Pow2Add(16, 1);
    Pow2Add(16, 2);
    Pow2Add(16, 3);
    Pow2Add(16, 6);
  }

  /** The four header words of a command.  Word 0 carries source id 9 in bits
      23:16 and destination id 4 in bits 31:24; word 1 the context id in bits
      15:0, the opcode in 27:16 and the class in 31:28, each cut to its
      width; word 2 a credit of 8 in bits 10:0 and `flags_reset` in bit 18;
      word 3 is reserved. */
  function CmdHeaderWords(ctx: nat, cls: nat, opc: nat, reset: bool): (r: seq<u32>)
    ensures |r| == 4
  {
    CmdWord1Fields(ctx % 0x1_0000, opc % 0x1000, cls % 0x10);
    [0x0409_0000,
     ctx % 0x1_0000 + (opc % 0x1000) * 0x1_0000 + (cls % 0x10) * 0x1000_0000,
     8 + (if reset then 0x4_0000 else 0),
     0]
  }

  lemma CmdAttrsInts(a: map<string, Value>, ctx: nat, cls: nat, opc: nat, reset: bool)
    requires CmdAttrs(a, ctx, cls, opc, reset)
    ensures IntAttrs(Word0, a) && IntAttrs(Word1, a) && IntAttrs(Word2, a) && IntAttrs(Word3, a)
  {
    assert IntAttrs(Word0, a);
    assert IntAttrs(Word1, a);
    assert IntAttrs(Word2, a) by {
      forall k | 0 <= k < |Word2| ensures Word2[k].name in a && a[Word2[k].name].IntVal? {
        if k < 5 { } else { }
      }
    }
    assert IntAttrs(Word3, a);
  }

  lemma FourIntRuns(r: seq<seq<FieldDecl>>, a: map<string, Value>)
    requires |r| == 4 && IntAttrs(r[0], a) && IntAttrs(r[1], a) && IntAttrs(r[2], a) && IntAttrs(r[3], a)
    ensures RunsIntAttrs(r, a)
  {
  }

  /** `RunWords` of four runs, spelled out. */
  lemma RunWordsFour(r: seq<seq<FieldDecl>>, a: map<string, Value>)
    requires |r| == 4 && RunsIntAttrs(r, a)
    ensures IntAttrs(r[0], a) && IntAttrs(r[1], a) && IntAttrs(r[2], a) && IntAttrs(r[3], a)
    ensures RunWords(r, a) == [RunValue(r[0], a, 0), RunValue(r[1], a, 0), RunValue(r[2], a, 0), RunValue(r[3], a, 0)]
  {
    RunWordsAt(r, a, 0);
    RunWordsAt(r, a, 1);
    RunWordsAt(r, a, 2);
    RunWordsAt(r, a, 3);
  }

  lemma CmdWord0(f: seq<FieldDecl>, a: map<string, Value>)
    requires f == Word0 && Word0Cmd(a) && IntAttrs(f, a)
    ensures RunValue(f, a, 0) == 0x0409_0000
  {
    MsePow2();
    assert f[0..] == f;
    FspMctp.RunValueAt(f, 0, a, 0);
    FspMctp.RunValueAt(f, 1, a, 8);
    FspMctp.RunValueAt(f, 2, a, 14);
    FspMctp.RunValueAt(f, 3, a, 16);
    FspMctp.RunValueAt(f, 4, a, 24);
    assert f[5..] == [];
  }

  lemma CmdWord1(f: seq<FieldDecl>, a: map<string, Value>, ctx: nat, cls: nat, opc: nat)
    requires f == Word1 && Word1Cmd(a, ctx, cls, opc) && IntAttrs(f, a)
    ensures RunValue(f, a, 0) == ctx % 0x1_0000 + (opc % 0x1000) * 0x1_0000 + (cls % 0x10) * 0x1000_0000
  {
    MsePow2();
    assert f[0..] == f;
    FspMctp.RunValueAt(f, 0, a, 0);
    FspMctp.RunValueAt(f, 1, a, 16);
    FspMctp.RunValueAt(f, 2, a, 28);
    assert f[3..] == [];
  }

  lemma CmdWord2(a: map<string, Value>, reset: bool)
    requires Word2Cmd(a, reset) && IntAttrs(Word2, a)
    ensures RunValue(Word2, a, 0) == 8 + (if reset then 0x4_0000 else 0)
  {
    CmdWord2Low(Word2, a, reset);
    CmdWord2High(Word2, a, reset);
  }

  lemma CmdWord2Low(f: seq<FieldDecl>, a: map<string, Value>, reset: bool)
    requires f == Word2 && Word2Cmd(a, reset) && IntAttrs(f, a)
    ensures IntAttrs(f[6..], a)
    ensures RunValue(f, a, 0) == 8 + RunValue(f[6..], a, 18)
  {
    assert f[0..] == f;
    MsePow2();
    FspMctp.RunValueAt(f, 0, a, 0);
    FspMctp.RunValueAt(f, 1, a, 11);
    FspMctp.RunValueAt(f, 2, a, 13);
    CmdWord2Middle(f, a, reset);
  }

  lemma CmdWord2Middle(f: seq<FieldDecl>, a: map<string, Value>, reset: bool)
    requires f == Word2 && Word2Cmd(a, reset) && IntAttrs(f, a)
    ensures IntAttrs(f[3..], a) && IntAttrs(f[6..], a)
    ensures RunValue(f[3..], a, 14) == RunValue(f[6..], a, 18)
  {
    MsePow2();
    FspMctp.RunValueAt(f, 3, a, 14);
    FspMctp.RunValueAt(f, 4, a, 16);
    FspMctp.RunValueAt(f, 5, a, 17);
  }

  lemma CmdWord2High(f: seq<FieldDecl>, a: map<string, Value>, reset: bool)
    requires f == Word2 && Word2Cmd(a, reset) && IntAttrs(f, a)
    ensures IntAttrs(f[6..], a)
    ensures RunValue(f[6..], a, 18) == if reset then 0x4_0000 else 0
  {
    MsePow2();
    FspMctp.RunValueAt(f, 6, a, 18);
    FspMctp.RunValueAt(f, 7, a, 19);
    FspMctp.RunValueAt(f, 8, a, 22);
    FspMctp.RunValueAt(f, 9, a, 24);
    assert f[10..] == [];
  }

  lemma CmdWord3(a: map<string, Value>)
    requires Word3Cmd(a) && IntAttrs(Word3, a)
    ensures RunValue(Word3, a, 0) == 0
  {
    Pow2Of32();
    assert Word3[1..] == [];
    assert RunValue(Word3[1..], a, 32) == 0;
  }

  /** `to_int_list()` of a command header is `CmdHeaderWords`. */
  lemma CmdHeaderIntList(a: map<string, Value>, ctx: nat, cls: nat, opc: nat, reset: bool)
    requires CmdAttrs(a, ctx, cls, opc, reset)
    ensures IntList(MseHeaderFields, WordFmts(4), a, 4) == Ok(CmdHeaderWords(ctx, cls, opc, reset))
  {
    MseHeaderWordRuns();
    MseHeaderFlat();
    CmdRunWords(a, ctx, cls, opc, reset);
    WordRunsIntList(MseHeaderRuns, a);
  }

  lemma CmdRunWords(a: map<string, Value>, ctx: nat, cls: nat, opc: nat, reset: bool)
    requires CmdAttrs(a, ctx, cls, opc, reset)
    ensures RunsIntAttrs(MseHeaderRuns, a)
    ensures RunWords(MseHeaderRuns, a) == CmdHeaderWords(ctx, cls, opc, reset)
  {
    CmdAttrsInts(a, ctx, cls, opc, reset);
    FourIntRuns(MseHeaderRuns, a);
    RunWordsFour(MseHeaderRuns, a);
    CmdWord0(Word0, a);
    CmdWord1(Word1, a, ctx, cls, opc);
    CmdWord2(a, reset);
    CmdWord3(a);
  }

  /** Bits 15:0, 27:16 and 31:28 of word 1 give back its three parts. */
  lemma CmdWord1Fields(c: nat, o: nat, k: nat)
    requires c < 0x1_0000 && o < 0x1000 && k < 0x10
    ensures c + o * 0x1_0000 + k * 0x1000_0000 < 0x1_0000_0000
    ensures Field(c + o * 0x1_0000 + k * 0x1000_0000, 0, 16) == c
    ensures Field(c + o * 0x1_0000 + k * 0x1000_0000, 16, 12) == o
    ensures Field(c + o * 0x1_0000 + k * 0x1000_0000, 28, 4) == k
  {
    Word1Low(c, o, k);
    Word1Middle(c, o, k);
    Word1High(c, o, k);
  }

  lemma Word1Low(c: nat, o: nat, k: nat)
    requires c < 0x1_0000 && o < 0x1000 && k < 0x10
    ensures c + o * 0x1_0000 + k * 0x1000_0000 < 0x1_0000_0000
    ensures (c + o * 0x1_0000 + k * 0x1000_0000) / 0x1_0000 == o + k * 0x1000
    ensures Field(c + o * 0x1_0000 + k * 0x1000_0000, 0, 16) == c
  {
    var x := c + o * 0x1_0000 + k * 0x1000_0000;
    MsePow2();
    FieldIsDivMod(x, 0, 16);
    assert x == 0x1_0000 * (o + k * 0x1000) + c;
    DivUnique(x, 0x1_0000, o + k * 0x1000, c);
  }

  lemma Word1Middle(c: nat, o: nat, k: nat)
    requires c < 0x1_0000 && o < 0x1000 && k < 0x10
    ensures Field(c + o * 0x1_0000 + k * 0x1000_0000, 16, 12) == o
  {
    Word1Low(c, o, k);
    Pow2Of12And16();
    MiddleField(c + o * 0x1_0000 + k * 0x1000_0000, 16, 12, o, k);
  }

  /** Bits `lo .. lo + w - 1` of `x` when `x / 2^lo` is `o + k * 2^w`. */
  lemma MiddleField(x: nat, lo: nat, w: nat, o: nat, k: nat)
    requires o < Pow2(w) && x / Pow2(lo) == o + k * Pow2(w)
    ensures Field(x, lo, w) == o
  {
    FieldIsDivMod(x, lo, w);
    ModOfMultiple(o, k, Pow2(w));
  }

  lemma ModOfMultiple(o: nat, k: nat, d: nat)
    requires o < d
    ensures (o + k * d) % d == o
  {
    DivUnique(o + k * d, d, k, o);
  }

  lemma Pow2Of12And16()
    ensures Pow2(12) == 0x1000 && Pow2(16) == 0x1_0000
  {
    MsePow2();
  }

  lemma Word1High(c: nat, o: nat, k: nat)
    requires c < 0x1_0000 && o < 0x1000 && k < 0x10
    ensures Field(c + o * 0x1_0000 + k * 0x1000_0000, 28, 4) == k
  {
    var x := c + o * 0x1_0000 + k * 0x1000_0000;
    MsePow2();
    FieldIsDivMod(x, 28, 4);
    assert x == 0x1000_0000 * k + (c + o * 0x1_0000);
    DivUnique(x, 0x1000_0000, k, c + o * 0x1_0000);
  }

  /** Bits 10:0, 16 and 18 of word 2: the credit, `flags_type` and `flags_reset`. */
  lemma CmdWord2Fields(f: nat)
    requires f < 2
    ensures Field(8 + f * 0x4_0000, 0, 11) == 8
    ensures Field(8 + f * 0x4_0000, 16, 1) == 0
    ensures Field(8 + f * 0x4_0000, 18, 1) == f
  {
    var y := 8 + f * 0x4_0000;
    MsePow2();
    FieldIsDivMod(y, 0, 11);
    FieldIsDivMod(y, 16, 1);
    FieldIsDivMod(y, 18, 1);
    DivUnique(y, 0x800, f * 0x80, 8);
    DivUnique(y, 0x1_0000, f * 4, 8);
    DivUnique(y, 0x4_0000, f, 8);
  }

  // -----------------------------------------------------------------------
  // Reading a header back

  /** The fields a command's reply is told apart by, and the ones a command
      sets, as the bits of the words they were read from. */
  predicate HeaderFieldsOf(a: map<string, Value>, ws: seq<nat>)
    requires |ws| == 4
  {
    "ssid" in a && a["ssid"] == IntVal(Field(ws[0], 16, 8)) &&
    "dsid" in a && a["dsid"] == IntVal(Field(ws[0], 24, 8)) &&
    "ctxid" in a && a["ctxid"] == IntVal(Field(ws[1], 0, 16)) &&
    "cmd_opcode" in a && a["cmd_opcode"] == IntVal(Field(ws[1], 16, 12)) &&
    "cmd_class" in a && a["cmd_class"] == IntVal(Field(ws[1], 28, 4)) &&
    "credit" in a && a["credit"] == IntVal(Field(ws[2], 0, 11)) &&
    "flags_type" in a && a["flags_type"] == IntVal(Field(ws[2], 16, 1)) &&
    "flags_reset" in a && a["flags_reset"] == IntVal(Field(ws[2], 18, 1))
  }

  /** Where `ssid` and `dsid` sit in word 0, and that no later field repeats their names. */
  lemma Word0Facts(r: seq<seq<FieldDecl>>)
    requires r == MseHeaderRuns
    ensures |r| == 4 && |r[0]| == 5 && r[0][3] == BitField("ssid", 4, 8) && r[0][4] == BitField("dsid", 4, 8)
    ensures BitsSum(r[0][..3]) == 16 && BitsSum(r[0][..4]) == 24
    ensures forall i, j :: 0 < i < |r| && 0 <= j < |r[i]| ==> r[i][j].name != "ssid" && r[i][j].name != "dsid"
  {
    var f := r[0];
    assert f == Word0;
    assert BitsSum(f[2..3]) == 2 && BitsSum(f[1..3]) == 8 && BitsSum(f[..3]) == 16 by {
      assert f[2..3][1..] == [] && f[1..3][1..] == f[2..3] && f[..3][1..] == f[1..3];
    }
    assert BitsSum(f[3..4]) == 8 && BitsSum(f[2..4]) == 10 && BitsSum(f[1..4]) == 16 && BitsSum(f[..4]) == 24 by {
      assert f[3..4][1..] == [] && f[2..4][1..] == f[3..4] && f[1..4][1..] == f[2..4] && f[..4][1..] == f[1..4];
    }
    forall i, j | 0 < i < |r| && 0 <= j < |r[i]| ensures r[i][j].name != "ssid" && r[i][j].name != "dsid" {
      if i == 1 { } else if i == 2 { if j < 5 { } else { } } else { }
    }
  }

  /** Where `ctxid`, `cmd_opcode` and `cmd_class` sit in word 1, and that no
      later field repeats their names. */
  lemma Word1Facts(r: seq<seq<FieldDecl>>)
    requires r == MseHeaderRuns
    ensures |r| == 4 && |r[1]| == 3 && r[1][0] == BitField("ctxid", 4, 16)
    ensures r[1][1] == BitField("cmd_opcode", 4, 12) && r[1][2] == BitField("cmd_class", 4, 4)
    ensures BitsSum(r[1][..0]) == 0 && BitsSum(r[1][..1]) == 16 && BitsSum(r[1][..2]) == 28
    ensures forall i, j :: 1 < i < |r| && 0 <= j < |r[i]| ==>
      r[i][j].name != "ctxid" && r[i][j].name != "cmd_opcode" && r[i][j].name != "cmd_class"
  {
    var f := r[1];
    assert f == Word1;
    assert f[..0] == [];
    assert f[..1][1..] == [] && f[1..2][1..] == [] && f[..2][1..] == f[1..2];
    forall i, j | 1 < i < |r| && 0 <= j < |r[i]|
      ensures r[i][j].name != "ctxid" && r[i][j].name != "cmd_opcode" && r[i][j].name != "cmd_class"
    {
      if i == 2 { if j < 5 { } else { } } else { }
    }
  }

  /** Where `credit`, `flags_type` and `flags_reset` sit in word 2, and that
      no later field repeats their names. */
  lemma Word2Facts(r: seq<seq<FieldDecl>>)
    requires r == MseHeaderRuns
    ensures |r| == 4 && |r[2]| == 10 && r[2][0] == BitField("credit", 4, 11)
    ensures r[2][4] == BitField("flags_type", 4, 1) && r[2][6] == BitField("flags_reset", 4, 1)
    ensures forall j :: 0 < j < |r[2]| ==> r[2][j].name != "credit"
    ensures forall j :: 4 < j < |r[2]| ==> r[2][j].name != "flags_type"
    ensures forall j :: 6 < j < |r[2]| ==> r[2][j].name != "flags_reset"
    ensures forall i, j :: 2 < i < |r| && 0 <= j < |r[i]| ==>
      r[i][j].name != "credit" && r[i][j].name != "flags_type" && r[i][j].name != "flags_reset"
  {
    var f := r[2];
    assert f == Word2;
    forall j | 0 < j < |f| ensures f[j].name != "credit" && (4 < j ==> f[j].name != "flags_type") && (6 < j ==> f[j].name != "flags_reset") {
      if j < 5 { } else { }
    }
  }

  lemma Word2Offsets(r: seq<seq<FieldDecl>>)
    requires r == MseHeaderRuns
    ensures |r| == 4 && BitsSum(r[2][..0]) == 0 && BitsSum(r[2][..4]) == 16 && BitsSum(r[2][..6]) == 18
  {
    var f := r[2];
    assert f == Word2;
    assert f[..0] == [];
    assert BitsSum(f[5..6]) == 1 && BitsSum(f[4..6]) == 2 by {
      assert f[5..6][1..] == [] && f[4..6][1..] == f[5..6];
    }
    assert BitsSum(f[3..6]) == 4 && BitsSum(f[3..4]) == 2 by {
      assert f[3..6][1..] == f[4..6] && f[3..4][1..] == [];
    }
    assert BitsSum(f[2..6]) == 5 && BitsSum(f[2..4]) == 3 by {
      assert f[2..6][1..] == f[3..6] && f[2..4][1..] == f[3..4];
    }
    assert BitsSum(f[1..6]) == 7 && BitsSum(f[1..4]) == 5 by {
      assert f[1..6][1..] == f[2..6] && f[1..4][1..] == f[2..4];
    }
    assert f[..6][1..] == f[1..6] && f[..4][1..] == f[1..4];
  }

  lemma Word0After(r: seq<seq<FieldDecl>>, ws: seq<nat>, attrs: map<string, Value>)
    requires r == MseHeaderRuns && |ws| == 4
    ensures var m := RunsAssign(r, ws, attrs);
            "ssid" in m && m["ssid"] == IntVal(Field(ws[0], 16, 8)) &&
            "dsid" in m && m["dsid"] == IntVal(Field(ws[0], 24, 8))
  {
    Word0Facts(r);
    RunsAssignAt(r, ws, attrs, 0, 3);
    RunsAssignAt(r, ws, attrs, 0, 4);
  }

  lemma Word1After(r: seq<seq<FieldDecl>>, ws: seq<nat>, attrs: map<string, Value>)
    requires r == MseHeaderRuns && |ws| == 4
    ensures var m := RunsAssign(r, ws, attrs);
            "ctxid" in m && m["ctxid"] == IntVal(Field(ws[1], 0, 16)) &&
            "cmd_opcode" in m && m["cmd_opcode"] == IntVal(Field(ws[1], 16, 12)) &&
            "cmd_class" in m && m["cmd_class"] == IntVal(Field(ws[1], 28, 4))
  {
    Word1Facts(r);
    RunsAssignAt(r, ws, attrs, 1, 0);
    RunsAssignAt(r, ws, attrs, 1, 1);
    RunsAssignAt(r, ws, attrs, 1, 2);
  }

  lemma Word2After(r: seq<seq<FieldDecl>>, ws: seq<nat>, attrs: map<string, Value>)
    requires r == MseHeaderRuns && |ws| == 4
    ensures var m := RunsAssign(r, ws, attrs);
            "credit" in m && m["credit"] == IntVal(Field(ws[2], 0, 11)) &&
            "flags_type" in m && m["flags_type"] == IntVal(Field(ws[2], 16, 1)) &&
            "flags_reset" in m && m["flags_reset"] == IntVal(Field(ws[2], 18, 1))
  {
    Word2Facts(r);
    Word2Offsets(r);
    RunsAssignAt(r, ws, attrs, 2, 0);
    RunsAssignAt(r, ws, attrs, 2, 4);
    RunsAssignAt(r, ws, attrs, 2, 6);
  }

  lemma HeaderFieldsAfter(r: seq<seq<FieldDecl>>, ws: seq<nat>, attrs: map<string, Value>)
    requires r == MseHeaderRuns && |ws| == 4
    ensures HeaderFieldsOf(RunsAssign(r, ws, attrs), ws)
  {
    Word0After(r, ws, attrs);
    Word1After(r, ws, attrs);
    Word2After(r, ws, attrs);
  }

  /** `from_ints(ws)` on a header: four words set every field to its bits of
      its word; fewer are too few bytes, and the header keeps its old values. */
  lemma MseHeaderFromInts(ws: seq<u32>, attrs: map<string, Value>)
    requires |ws| <= 4
    ensures BytearrayViewFromInts(ws) == Ok(EncodeAll(ws, 4))
    ensures var d := DecodeBytes(MseHeaderFields, WordFmts(4), EncodeAll(ws, 4), attrs);
            if |ws| == 4 then d.status == Ok(()) && HeaderFieldsOf(d.attrs, ws)
            else d == Decoded(attrs, Err(BufferTooSmall))
  {
    MseHeaderFlat();
    HeaderFromInts(MseHeaderRuns, Flatten(MseHeaderRuns), ws, attrs);
  }

  lemma HeaderFromInts(r: seq<seq<FieldDecl>>, f: seq<FieldDecl>, ws: seq<u32>, attrs: map<string, Value>)
    requires r == MseHeaderRuns && f == Flatten(r) && |ws| <= 4
    ensures BytearrayViewFromInts(ws) == Ok(EncodeAll(ws, 4))
    ensures var d := DecodeBytes(f, WordFmts(4), EncodeAll(ws, 4), attrs);
            if |ws| == 4 then d.status == Ok(()) && HeaderFieldsOf(d.attrs, ws)
            else d == Decoded(attrs, Err(BufferTooSmall))
  {
    MseHeaderWordRuns();
    WordRunsFromInts(r, ws, attrs);
    if |ws| == 4 {
      HeaderFieldsAfter(r, ws, attrs);
    }
  }

  /** Reading back a command's header gives the context id, opcode and class
      cut to their widths, the credit, the ids and the reset flag, and a
      `flags_type` of 0: a command is never taken for a reply. */
  lemma CmdHeaderRoundTrip(ctx: nat, cls: nat, opc: nat, reset: bool, attrs: map<string, Value>)
    ensures var d := DecodeBytes(MseHeaderFields, WordFmts(4), EncodeAll(CmdHeaderWords(ctx, cls, opc, reset), 4), attrs);
            d.status == Ok(()) &&
            "ctxid" in d.attrs && d.attrs["ctxid"] == IntVal(ctx % 0x1_0000) &&
            "cmd_opcode" in d.attrs && d.attrs["cmd_opcode"] == IntVal(opc % 0x1000) &&
            "cmd_class" in d.attrs && d.attrs["cmd_class"] == IntVal(cls % 0x10) &&
            "credit" in d.attrs && d.attrs["credit"] == IntVal(8) &&
            "ssid" in d.attrs && d.attrs["ssid"] == IntVal(9) && "dsid" in d.attrs && d.attrs["dsid"] == IntVal(4) &&
            "flags_reset" in d.attrs && d.attrs["flags_reset"] == IntVal(if reset then 1 else 0) &&
            "flags_type" in d.attrs && d.attrs["flags_type"] == IntVal(0)
  {
    var ws := CmdHeaderWords(ctx, cls, opc, reset);
    MseHeaderFromInts(ws, attrs);
    CmdWordsFields(ws, ctx, cls, opc, reset);
  }

  /** The fields of the command words, one by one. */
  lemma CmdWordsFields(ws: seq<u32>, ctx: nat, cls: nat, opc: nat, reset: bool)
    requires ws == CmdHeaderWords(ctx, cls, opc, reset)
    ensures Field(ws[0], 16, 8) == 9 && Field(ws[0], 24, 8) == 4
    ensures Field(ws[1], 0, 16) == ctx % 0x1_0000 && Field(ws[1], 16, 12) == opc % 0x1000
    ensures Field(ws[1], 28, 4) == cls % 0x10
    ensures Field(ws[2], 0, 11) == 8 && Field(ws[2], 16, 1) == 0 && Field(ws[2], 18, 1) == if reset then 1 else 0
  {
    var c, o, k := ctx % 0x1_0000, opc % 0x1000, cls % 0x10;
    var f := if reset then 1 else 0;
    assert ws[1] == c + o * 0x1_0000 + k * 0x1000_0000;
    assert ws[2] == 8 + f * 0x4_0000;
    CmdWord1Fields(c, o, k);
    CmdWord2Fields(f);
    CmdWord0Fields(ws[0]);
  }

  lemma CmdWord0Fields(x: nat)
    requires x == 0x0409_0000
    ensures Field(x, 16, 8) == 9 && Field(x, 24, 8) == 4
  {
    MsePow2();
    FieldIsDivMod(x, 16, 8);
    FieldIsDivMod(x, 24, 8);
    DivUnique(x, 0x1_0000, 0x409, 0);
    DivUnique(0x409, 0x100, 4, 9);
    DivUnique(x, 0x100_0000, 4, 0x9_0000);
    DivUnique(4, 0x100, 0, 4);
  }

  // -----------------------------------------------------------------------
  // Receiving: `process_incoming`

  /** The mailbox `__init__` opens: port 1 of the MNOC at 0x2c00000 + 0x1e00. */
  function MseMailbox(devName: string): (mb: Mailbox)
    ensures mb.base == 0x2c0_1e00 && mb.port == 1
  {
    Mailbox(devName + " MSE MNOC port 1", 0x2c0_0000 + 0x1e00, 1)
  }

  /** `receive_data()`'s default timeout. */
  const DefaultTimeout: nat := 1

  /** `MseHeader.is_response` of the header decoded from `ws[..4]`. */
  predicate IsResponse(ws: seq<u32>)
    requires |ws| >= 4
  {
    FlagsType(ws[2]) == 1
  }

  /** `flags_type`, bit 16 of the third header word. */
  function FlagsType(w: nat): nat
  {
    w / 0x1_0000 % 2
  }

  lemma FlagsTypeIsField(w: nat)
    ensures Field(w, 16, 1) == FlagsType(w)
  {
    FieldIsDivMod(w, 16, 1);
    MsePow2();
  }

  /** Whether `process_incoming` leaves its loop at the message `m`: the
      receive raised, the message is too short for `from_ints` to decode a
      header, or it is a response. */
  predicate Stops(m: Result<seq<u32>>)
  {
    m.Err? || |m.value| < 4 || IsResponse(m.value)
  }

  /** What `process_incoming` returns or raises at a message it stops at. */
  function Outcome(m: Result<seq<u32>>): (r: Result<seq<u32>>)
    requires Stops(m)
    ensures m.Err? ==> r == m
    ensures m.Ok? && |m.value| < 4 ==> r == Err(BufferTooSmall)
    ensures m.Ok? && |m.value| >= 4 ==> r.Ok? && m.value == m.value[..4] + r.value
  {
    if m.Err? then m
    else if |m.value| < 4 then Err(BufferTooSmall)
    else Ok(m.value[4..])
  }

  /** One `receive_data()`, from the access log it starts at to the message
      and the log after it. */
  type Receiver = seq<Access> -> (Result<seq<u32>>, seq<Access>)

  /** `self.mnoc.receive_data()` */
  function MseReceive(mb: Mailbox, bar0: (seq<Access>, nat) -> u32): Receiver
  {
    log => Receive(mb, bar0, log, DefaultTimeout)
  }

  /** `recv` is `receive_data()` on the mailbox `mb`. */
  ghost predicate ReceivesBy(recv: Receiver, mb: Mailbox, bar0: (seq<Access>, nat) -> u32)
  {
    forall log {:trigger Receive(mb, bar0, log, DefaultTimeout)} :: recv(log) == Receive(mb, bar0, log, DefaultTimeout)
  }

  /** `process_incoming()` reading at most `fuel` messages; `None` when every
      one of them was a request. */
  function Incoming(recv: Receiver, log: seq<Access>, fuel: nat): (Option<Result<seq<u32>>>, seq<Access>)
    decreases fuel
  {
    if fuel == 0 then (None, log)
    else
      var (m, log1) := recv(log);
      if Stops(m) then (Some(Outcome(m)), log1) else Incoming(recv, log1, fuel - 1)
  }

  /** One message into `process_incoming`: it either stops there, or goes on
      from the log after it. */
  lemma IncomingStep(recv: Receiver, log: seq<Access>, fuel: nat, o: Option<Result<seq<u32>>>,
                     m: Result<seq<u32>>, log1: seq<Access>)
    requires fuel > 0 && (m, log1) == recv(log) && o == (if Stops(m) then Some(Outcome(m)) else None)
    ensures o.Some? ==> (o, log1) == Incoming(recv, log, fuel)
    ensures o.None? ==> Incoming(recv, log1, fuel - 1) == Incoming(recv, log, fuel)
  {
  }

  /** The first `n` messages the mailbox delivers, one `receive_data()` after
      another, regardless of their kind. */
  function Messages(recv: Receiver, log: seq<Access>, n: nat): (r: (seq<Result<seq<u32>>>, seq<Access>))
    ensures |r.0| == n
    decreases n
  {
    if n == 0 then ([], log)
    else
      var (m, log1) := recv(log);
      var (rest, out) := Messages(recv, log1, n - 1);
      ([m] + rest, out)
  }

  /** `process_incoming` waits on exactly when none of the first `fuel`
      messages makes it stop. */
  lemma {:induction false} IncomingNoneIffNoStop(recv: Receiver, log: seq<Access>, fuel: nat)
    ensures var ms := Messages(recv, log, fuel).0;
      Incoming(recv, log, fuel).0.None? <==> forall i :: 0 <= i < fuel ==> !Stops(ms[i])
    decreases fuel
  {
    if fuel > 0 {
      var (m, log1) := recv(log);
      var ms := Messages(recv, log, fuel).0;
      var rest := Messages(recv, log1, fuel - 1).0;
      MessagesCons(recv, log, fuel);
      if !Stops(m) {
        IncomingNoneIffNoStop(recv, log1, fuel - 1);
        assert (forall i :: 0 <= i < fuel ==> !Stops(ms[i])) <==> (forall i :: 0 <= i < fuel - 1 ==> !Stops(rest[i])) by {
          if forall i :: 0 <= i < fuel - 1 ==> !Stops(rest[i]) {
            forall i | 0 <= i < fuel ensures !Stops(ms[i]) {
              if i > 0 { assert ms[i] == rest[i - 1]; }
            }
          }
          if forall i :: 0 <= i < fuel ==> !Stops(ms[i]) {
            forall i | 0 <= i < fuel - 1 ensures !Stops(rest[i]) {
              assert ms[i + 1] == rest[i];
            }
          }
        }
      } else {
        assert Stops(ms[0]);
      }
    }
  }

  /** Message `i` of `ms` is the first that makes `process_incoming` stop,
      and its outcome is `o`. */
  predicate FirstStopAt(ms: seq<Result<seq<u32>>>, i: nat, o: Result<seq<u32>>)
  {
    i < |ms| && Stops(ms[i]) && o == Outcome(ms[i]) && forall j :: 0 <= j < i ==> !Stops(ms[j])
  }

  /** A first stop after a message that does not stop moves one place on. */
  lemma FirstStopShift(ms: seq<Result<seq<u32>>>, i: nat, o: Result<seq<u32>>)
    requires |ms| > 0 && !Stops(ms[0]) && FirstStopAt(ms[1..], i, o)
    ensures FirstStopAt(ms, i + 1, o)
  {
    forall j | 0 <= j < i + 1 ensures !Stops(ms[j]) {
      if j > 0 { assert ms[j] == ms[1..][j - 1]; }
    }
  }

  /** When `process_incoming` stops, it returns the outcome of the first
      message that makes it stop, every message before it being a dropped
      request. */
  lemma {:induction false} IncomingIsFirstStop(recv: Receiver, log: seq<Access>, fuel: nat)
    requires Incoming(recv, log, fuel).0.Some?
    ensures exists i: nat :: FirstStopAt(Messages(recv, log, fuel).0, i, Incoming(recv, log, fuel).0.value)
    decreases fuel
  {
    var (m, log1) := recv(log);
    var ms := Messages(recv, log, fuel).0;
    MessagesCons(recv, log, fuel);
    if !Stops(m) {
      IncomingIsFirstStop(recv, log1, fuel - 1);
      var i: nat :| FirstStopAt(Messages(recv, log1, fuel - 1).0, i, Incoming(recv, log1, fuel - 1).0.value);
      FirstStopShift(ms, i, Incoming(recv, log, fuel).0.value);
    } else {
      assert FirstStopAt(ms, 0, Incoming(recv, log, fuel).0.value);
    }
  }

  lemma MessagesCons(recv: Receiver, log: seq<Access>, n: nat)
    requires n > 0
    ensures var (m, log1) := recv(log);
      var ms := Messages(recv, log, n).0;
      ms[0] == m && ms[1..] == Messages(recv, log1, n - 1).0
  {
  }

  /** A request `process_incoming` drops is a well-formed header whose
      `flags_type` is 0. */
  lemma DroppedIsRequest(m: Result<seq<u32>>)
    requires !Stops(m)
    ensures m.Ok? && |m.value| >= 4 && Field(m.value[2], 16, 1) == 0
  {
    FlagsTypeIsField(m.value[2]);
  }

  /** `process_incoming` only reads the mailbox. */
  lemma {:induction false} IncomingOnlyReads(mb: Mailbox, bar0: (seq<Access>, nat) -> u32, log: seq<Access>, fuel: nat)
    ensures var out := Incoming(MseReceive(mb, bar0), log, fuel).1;
      log <= out && Writes(out[|log|..]) == []
      && (fuel > 0 ==> log < out)
    decreases fuel
  {
    if fuel > 0 {
      var (m, log1) := Receive(mb, bar0, log, DefaultTimeout);
      ReceiveOnlyReads(mb, bar0, log, DefaultTimeout);
      if !Stops(m) {
        IncomingOnlyReads(mb, bar0, log1, fuel - 1);
        var out := Incoming(MseReceive(mb, bar0), log1, fuel - 1).1;
        WritesSplit(log, log1, out);
      }
    }
  }

  // -----------------------------------------------------------------------
  // Sending: `send_cmd`

  /** `send_cmd(cmd_class, cmd_opcode, cmd_data, reset)` with context id
      `ctx`: the header words and the data go out in one message, a send
      error is raised, and otherwise the reply is awaited. */
  function SendCmdSpec(mb: Mailbox, bar0: (seq<Access>, nat) -> u32, log: seq<Access>, ctx: nat, cls: nat, opc: nat,
                       data: seq<u32>, reset: bool, fuel: nat): (Option<Result<seq<u32>>>, seq<Access>)
  {
    var (s, log1) := Send(mb, bar0, log, CmdHeaderWords(ctx, cls, opc, reset) + data);
    if s.Err? then (Some(Err(s.error)), log1) else Incoming(MseReceive(mb, bar0), log1, fuel)
  }

  /** A command that goes out is the header words followed by the data, in
      one message of `16 + 4 * |data|` bytes. */
  lemma SendCmdWrites(mb: Mailbox, bar0: (seq<Access>, nat) -> u32, log: seq<Access>, ctx: nat, cls: nat, opc: nat,
                      data: seq<u32>, reset: bool)
    ensures var (s, out) := Send(mb, bar0, log, CmdHeaderWords(ctx, cls, opc, reset) + data);
      log < out
      && (s.Ok? ==> Writes(out[|log|..]) == [Wr(mb.Offset(InfoReceive), Metadata(16 + 4 * |data|))]
                                             + DataWrites(mb.Offset(WdataReceive), CmdHeaderWords(ctx, cls, opc, reset) + data))
  {
    HeaderThenData(mb, bar0, log, CmdHeaderWords(ctx, cls, opc, reset), data);
  }

  lemma HeaderThenData(mb: Mailbox, bar0: (seq<Access>, nat) -> u32, log: seq<Access>, hw: seq<u32>, data: seq<u32>)
    requires |hw| == 4
    ensures var (s, out) := Send(mb, bar0, log, hw + data);
      log < out
      && (s.Ok? ==> Writes(out[|log|..]) == [Wr(mb.Offset(InfoReceive), Metadata(16 + 4 * |data|))]
                                             + DataWrites(mb.Offset(WdataReceive), hw + data))
  {
    assert 4 * |hw + data| == 16 + 4 * |data|;
    SendWrites(mb, bar0, log, hw + data);
  }

  /** The error `send_cmd` raises as written: `MseHeader` has no
      `to_int_array`. */
  const NoToIntArray: Error := AttributeError("'MseHeader' object has no attribute 'to_int_array'")

  /** `send_cmd` as written: it takes the context id and then raises before
      anything reaches the mailbox. */
  function SendCmdAsWrittenSpec(log: seq<Access>): (Result<seq<u32>>, seq<Access>)
  {
    (Err(NoToIntArray), log)
  }

  /** As written, no command is ever sent: the MSE never sees a header, so
      `_negotiate()` and with it `MseRpc(device)` always raise.  With the
      header packed by `to_int_list`, the command does reach the mailbox. */
  lemma SendCmdAsWrittenNeverSends(mb: Mailbox, bar0: (seq<Access>, nat) -> u32, log: seq<Access>, ctx: nat,
                                   cls: nat, opc: nat, data: seq<u32>, reset: bool, fuel: nat)
    ensures SendCmdAsWrittenSpec(log).0.Err? && SendCmdAsWrittenSpec(log).0.error.AttributeError?
    ensures SendCmdAsWrittenSpec(log).1 == log
    ensures log < SendCmdSpec(mb, bar0, log, ctx, cls, opc, data, reset, fuel).1
  {
    var (s, log1) := Send(mb, bar0, log, CmdHeaderWords(ctx, cls, opc, reset) + data);
    SendGrows(mb, bar0, log, CmdHeaderWords(ctx, cls, opc, reset) + data);
    IncomingOnlyReads(mb, bar0, log1, fuel);
  }

  // -----------------------------------------------------------------------
  // `portlist_status`

  /** The link states of the reply words after the first: the low half-word
      of each word, then its high half-word. */
  function LinkStates(ws: seq<u32>): (r: seq<nat>)
    ensures |r| == 2 * |ws|
    decreases |ws|
  {
    if |ws| == 0 then []
    else [ws[0] % 0x1_0000, ws[0] / 0x1_0000 % 0x1_0000] + LinkStates(ws[1..])
  }

  /** Word `i` carries states `2i` (low half) and `2i + 1` (high half), and the
      two put back together give the word. */
  lemma {:induction false} LinkStatesAt(ws: seq<u32>, i: nat)
    requires i < |ws|
    ensures LinkStates(ws)[2 * i] == ws[i] % 0x1_0000
    ensures LinkStates(ws)[2 * i + 1] == ws[i] / 0x1_0000
    ensures LinkStates(ws)[2 * i] + 0x1_0000 * LinkStates(ws)[2 * i + 1] == ws[i]
    ensures LinkStates(ws)[2 * i] < 0x1_0000 && LinkStates(ws)[2 * i + 1] < 0x1_0000
    decreases i
  {
    if i == 0 {
      assert ws[0] < 0x1_0000_0000;
    } else {
      LinkStatesAt(ws[1..], i - 1);
      assert LinkStates(ws)[2 * i] == LinkStates(ws[1..])[2 * (i - 1)];
      assert LinkStates(ws)[2 * i + 1] == LinkStates(ws[1..])[2 * (i - 1) + 1];
    }
  }

  /** `link_state_map` */
  function LinkStateName(state: nat): Option<string>
  {
    match state
    case 1 => Some("down")
    case 2 => Some("up")
    case 4 => Some("sleep")
    case 5 => Some("down_lock")
    case 6 => Some("polling")
    case 7 => Some("training")
    case 8 => Some("training_failure")
    case 9 => Some("training_failure_locked")
    case 10 => Some("physical_up")
    case _ => None
  }

  /** The name `portlist_status` gives the state half-word `s`: its high byte
      is the status, its low byte the state. */
  function StateName(s: nat): string
  {
    var status := s / 0x100;
    if status == 1 then "disabled"
    else if status != 2 then "unknown " + Hex(status)
    else
      var state := s % 0x100;
      if LinkStateName(state).Some? then LinkStateName(state).value else "unknown " + Hex(state)
  }

  /** A link is "disabled" exactly when its status byte is 1. */
  lemma StateNameDisabled(s: nat)
    ensures StateName(s) == "disabled" <==> s / 0x100 == 1
  {
    if s / 0x100 != 1 {
      var n := StateName(s);
      if s / 0x100 != 2 || LinkStateName(s % 0x100).None? {
        assert n[0] == 'u';
      } else {
        assert n[0] != 'd' || n[1] != 'i';
      }
    }
  }

  /** With status 2 the name is the state's entry in `link_state_map`, and
      a state the map lacks is reported as unknown. */
  lemma StateNameActive(s: nat)
    requires s / 0x100 == 2
    ensures LinkStateName(s % 0x100).Some? ==> StateName(s) == LinkStateName(s % 0x100).value
    ensures LinkStateName(s % 0x100).None? ==> StateName(s) == "unknown " + Hex(s % 0x100)
  {
  }

  /** The reply's first word is the link count, which `portlist_status`
      only indexes; an empty reply raises `IndexError`. */
  function PortlistResult(reply: Result<seq<u32>>): (r: Result<seq<string>>)
    ensures reply.Ok? && |reply.value| > 0 ==>
      r.Ok? && |r.value| == 2 * (|reply.value| - 1)
      && forall i :: 0 <= i < |r.value| ==> r.value[i] == StateName(LinkStates(reply.value[1..])[i])
    ensures reply.Ok? && |reply.value| == 0 ==> r == Err(IndexError("list index out of range"))
    ensures reply.Err? ==> r == Err(reply.error)
  {
    if reply.Err? then Err(reply.error)
    else if |reply.value| == 0 then Err(IndexError("list index out of range"))
    else
      var states := LinkStates(reply.value[1..]);
      Ok(seq(|states|, i requires 0 <= i < |states| => StateName(states[i])))
  }

  /** The message sent for each of the MSE commands the client issues. */
  const NegotiateClass: nat := 1
  const NegotiateOpcode: nat := 0
  const PortlistClass: nat := 2
  const PortlistOpcode: nat := 2
  /** `(1 << 18) - 1`: every one of 18 ports. */
  const PortlistAll: u32 := 0x3_ffff
  const GoodbyeClass: nat := 2
  const GoodbyeOpcode: nat := 11

  // -----------------------------------------------------------------------
  // The client

  /** `MseRpc`: the mailbox and the next context id. */
  class MseRpc {
    const mnoc: GpuMnoc
    var contextId: nat

    /** The state `__init__` sets up before it negotiates. */
    constructor(dev: Device, devName: string)
      ensures mnoc.dev == dev && mnoc.mb == MseMailbox(devName) && contextId == 1
    {
      mnoc := new GpuMnoc(dev, devName + " MSE MNOC port 1", 0x2c0_0000 + 0x1e00, 1);
      contextId := 1;
    }

    /** `send_cmd`: the header carries the current context id, which then
        grows by one, whatever the outcome. */
    method SendCmd(cls: nat, opc: nat, data: seq<u32>, reset: bool, fuel: nat) returns (r: Option<Result<seq<u32>>>)
      modifies this, mnoc.dev
      ensures contextId == old(contextId) + 1
      ensures (r, mnoc.dev.log) == SendCmdSpec(mnoc.mb, mnoc.dev.bar0, old(mnoc.dev.log), old(contextId), cls, opc, data, reset, fuel)
    {
      var ctx := contextId;
      var h := CmdHeader(ctx, cls, opc, reset);
      contextId := contextId + 1;
      var words: seq<u32> := h.value;
      var s := mnoc.SendData(words + data);
      if s.Err? {
        return Some(Err(s.error));
      }
      r := ProcessIncoming(fuel);
    }

    /** `send_cmd` as written, which calls the missing `to_int_array`. */
    method SendCmdAsWritten(cls: nat, opc: nat, data: seq<u32>, reset: bool) returns (r: Result<seq<u32>>)
      modifies this
      ensures contextId == old(contextId) + 1
      ensures r == SendCmdAsWrittenSpec(mnoc.dev.log).0
    {
      contextId := contextId + 1;
      r := Err(NoToIntArray);
    }

    /** `process_incoming()`, giving up after `fuel` messages. */
    method ProcessIncoming(fuel: nat) returns (r: Option<Result<seq<u32>>>)
      modifies mnoc.dev
      ensures (r, mnoc.dev.log) == Incoming(MseReceive(mnoc.mb, mnoc.dev.bar0), old(mnoc.dev.log), fuel)
    {
      var h := NewHeader();
      r := ReceiveLoop(h, fuel, MseReceive(mnoc.mb, mnoc.dev.bar0));
    }

    /** The `while True` loop of `process_incoming`, with the header it
        decodes into, given up after `fuel` messages. */
    method ReceiveLoop(h: NiceStruct, fuel: nat, ghost recv: Receiver) returns (r: Option<Result<seq<u32>>>)
      requires HeaderReady(h) && ReceivesBy(recv, mnoc.mb, mnoc.dev.bar0)
      modifies mnoc.dev, h
      ensures (r, mnoc.dev.log) == Incoming(recv, old(mnoc.dev.log), fuel)
    {
      ghost var log0 := mnoc.dev.log;
      var left := fuel;
      while left > 0
        invariant Incoming(recv, mnoc.dev.log, left) == Incoming(recv, log0, fuel)
      {
        ghost var log := mnoc.dev.log;
        var o, m := NextMessage(h, recv);
        IncomingStep(recv, log, left, o, m, mnoc.dev.log);
        if o.Some? {
          return o;
        }
        left := left - 1;
      }
      r := None;
    }

    /** One pass of the loop of `process_incoming`: receive a message, decode
        its first four words into `h`, and stop unless it is a request. */
    method NextMessage(h: NiceStruct, ghost recv: Receiver) returns (r: Option<Result<seq<u32>>>, ghost m: Result<seq<u32>>)
      requires HeaderReady(h) && ReceivesBy(recv, mnoc.mb, mnoc.dev.bar0)
      modifies mnoc.dev, h
      ensures (m, mnoc.dev.log) == recv(old(mnoc.dev.log))
      ensures r == if Stops(m) then Some(Outcome(m)) else None
    {
      var resp := mnoc.ReceiveData(DefaultTimeout);
      m := resp;
      if resp.Err? {
        return Some(Err(resp.error)), m;
      }
      var v := resp.value;
      var head := if |v| >= 4 then v[..4] else v;
      var d := DecodeHeader(h, head);
      if d.Err? {
        return Some(Err(d.error)), m;
      }
      if h.attrs["flags_type"] == IntVal(1) {
        return Some(Ok(v[4..])), m;
      }
      r := None;
    }

    /** `_negotiate()` */
    method Negotiate(fuel: nat) returns (r: Option<Result<seq<u32>>>)
      modifies this, mnoc.dev
      ensures contextId == old(contextId) + 1
      ensures (r, mnoc.dev.log) == SendCmdSpec(mnoc.mb, mnoc.dev.bar0, old(mnoc.dev.log), old(contextId),
                                               NegotiateClass, NegotiateOpcode, [0, 0], true, fuel)
    {
      r := SendCmd(NegotiateClass, NegotiateOpcode, [0, 0], true, fuel);
    }

    /** `goodbye()` */
    method Goodbye(fuel: nat) returns (r: Option<Result<seq<u32>>>)
      modifies this, mnoc.dev
      ensures contextId == old(contextId) + 1
      ensures (r, mnoc.dev.log) == SendCmdSpec(mnoc.mb, mnoc.dev.bar0, old(mnoc.dev.log), old(contextId),
                                               GoodbyeClass, GoodbyeOpcode, [], false, fuel)
    {
      r := SendCmd(GoodbyeClass, GoodbyeOpcode, [], false, fuel);
    }

    /** `portlist_status()` */
    method PortlistStatus(fuel: nat) returns (r: Option<Result<seq<string>>>)
      modifies this, mnoc.dev
      ensures contextId == old(contextId) + 1
      ensures var (reply, log) := SendCmdSpec(mnoc.mb, mnoc.dev.bar0, old(mnoc.dev.log), old(contextId),
                                             PortlistClass, PortlistOpcode, [PortlistAll], false, fuel);
        mnoc.dev.log == log && (reply.None? ==> r.None?) && (reply.Some? ==> r == Some(PortlistResult(reply.value)))
    {
      var reply := SendCmd(PortlistClass, PortlistOpcode, [PortlistAll], false, fuel);
      if reply.None? {
        return None;
      }
      if reply.value.Err? {
        return Some(Err(reply.value.error));
      }
      var resp := reply.value.value;
      if |resp| == 0 {
        return Some(Err(IndexError("list index out of range")));
      }
      var names := NiceLinkStates(LinkStates(resp[1..]));
      assert names == PortlistResult(reply.value).value;
      r := Some(Ok(names));
    }
  }

  /** `MseHeader()`: every field zero. */
  method NewHeader() returns (h: NiceStruct)
    ensures fresh(h) && HeaderReady(h) && ZeroFields(h.attrs)
  {
    MseHeaderLayout();
    h := new NiceStruct(MseHeaderFields, false);
    ZeroHeader(MseHeaderFields, h.attrs);
  }

  /** A fresh `MseHeader` with the fields `send_cmd` sets, packed by
      `to_int_list()`. */
  method CmdHeader(ctx: nat, cls: nat, opc: nat, reset: bool) returns (r: Result<seq<nat>>)
    ensures r == Ok(CmdHeaderWords(ctx, cls, opc, reset))
  {
    var h := NewHeader();
    ghost var a := h.attrs;
    h.SetAttr("ctxid", IntVal(ctx));
    h.SetAttr("cmd_class", IntVal(cls));
    h.SetAttr("cmd_opcode", IntVal(opc));
    h.SetAttr("credit", IntVal(8));
    h.SetAttr("flags_reset", IntVal(if reset then 1 else 0));
    h.SetAttr("ssid", IntVal(9));
    h.SetAttr("dsid", IntVal(4));
    SetCmdFields(a, ctx, cls, opc, reset);
    CmdHeaderIntList(h.attrs, ctx, cls, opc, reset);
    r := h.ToIntList(4);
  }

  /** The fields of a fresh header that `send_cmd` leaves at zero. */
  predicate ZeroFields(a: map<string, Value>)
  {
    "version" in a && "status" in a && "rsvd0" in a &&
    a["version"] == a["status"] == a["rsvd0"] == IntVal(0) &&
    "credit_priority" in a && "credit_reset" in a && "rsvd1" in a && "flags_type" in a &&
    "flags_final" in a && "flags_rsvd" in a && "priority" in a && "endpoint_specific" in a && "rsvd3" in a &&
    a["credit_priority"] == a["credit_reset"] == a["rsvd1"] == a["flags_type"] == IntVal(0) &&
    a["flags_final"] == a["flags_rsvd"] == a["priority"] == a["endpoint_specific"] == a["rsvd3"] == IntVal(0)
  }

  /** The seven assignments of `send_cmd` give a command header. */
  lemma SetCmdFields(a: map<string, Value>, ctx: nat, cls: nat, opc: nat, reset: bool)
    requires ZeroFields(a)
    ensures CmdAttrs(a["ctxid" := IntVal(ctx)]["cmd_class" := IntVal(cls)]["cmd_opcode" := IntVal(opc)]
                      ["credit" := IntVal(8)]["flags_reset" := IntVal(if reset then 1 else 0)]
                      ["ssid" := IntVal(9)]["dsid" := IntVal(4)], ctx, cls, opc, reset)
  {
  }

  /** `h` is an `MseHeader`. */
  predicate HeaderReady(h: NiceStruct)
  {
    h.fields == MseHeaderFields && h.fmts == WordFmts(4) && h.size == 16
  }

  /** `from_ints(resp_data[:4])` on the header `h`. */
  method DecodeHeader(h: NiceStruct, head: seq<u32>) returns (r: Result<()>)
    requires HeaderReady(h) && |head| <= 4
    modifies h
    ensures |head| < 4 ==> r == Err(BufferTooSmall)
    ensures |head| == 4 ==> r.Ok? && HeaderFieldsOf(h.attrs, head)
    ensures |head| == 4 ==> (h.attrs["flags_type"] == IntVal(1) <==> IsResponse(head))
  {
    if |head| == 4 {
      FlagsTypeIsField(head[2]);
    }
    MseHeaderLayout();
    MseHeaderFromInts(head, h.attrs);
    r := h.FromInts(head);
  }

  /** The loop of `portlist_status` that names each state. */
  method NiceLinkStates(states: seq<nat>) returns (names: seq<string>)
    ensures |names| == |states| && forall i :: 0 <= i < |states| ==> names[i] == StateName(states[i])
  {
    names := [];
    for k := 0 to |states|
      invariant |names| == k && forall i :: 0 <= i < k ==> names[i] == StateName(states[i])
    {
      var s := states[k];
      var status := s / 0x100;
      if status == 1 {
        names := names + ["disabled"];
        continue;
      }
      if status != 2 {
        names := names + ["unknown " + Hex(status)];
        continue;
      }
      var state := s % 0x100;
      var name := LinkStateName(state);
      names := names + [if name.Some? then name.value else "unknown " + Hex(state)];
    }
  }

  lemma ZeroHeader(f: seq<FieldDecl>, a: map<string, Value>)
    requires f == MseHeaderFields
    requires forall k :: 0 <= k < |f| ==> f[k].name in a && a[f[k].name] == ZeroOf(f[k])
    ensures ZeroFields(a)
  {
    assert f[0].name == "version" && f[1].name == "status" && f[2].name == "rsvd0";
    assert f[9].name == "credit_priority" && f[10].name == "credit_reset" && f[11].name == "rsvd1";
    assert f[12].name == "flags_type" && f[13].name == "flags_final" && f[15].name == "flags_rsvd";
    assert f[16].name == "priority" && f[17].name == "endpoint_specific" && f[18].name == "rsvd3";
  }
}
