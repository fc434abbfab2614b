/**
 * NiceStruct layouts made of whole 32-bit words, each word one run of
 * bitfields (the shape of `MseHeader`): the format, `to_int_list(4)` and
 * `from_ints` of such a layout, word by word.
 */
module WordRuns {
  import opened Bits
  import opened GpuErrors
  import opened IntsToBytes
  import opened Text
  import opened NiceStructs

  /** The layout whose runs are `runs`, one after the other. */
  function Flatten(runs: seq<seq<FieldDecl>>): seq<FieldDecl>
  {
    if |runs| == 0 then [] else runs[0] + Flatten(runs[1..])
  }

  /** Every run is a run of bitfields filling exactly one 32-bit word. */
  predicate WordRuns(runs: seq<seq<FieldDecl>>)
  {
    forall i :: 0 <= i < |runs| ==> |runs[i]| > 0 && WordRun(runs[i], 4) && BitsSum(runs[i]) == 32
  }

  predicate RunsIntAttrs(runs: seq<seq<FieldDecl>>, attrs: map<string, Value>)
  {
    forall i :: 0 <= i < |runs| ==> IntAttrs(runs[i], attrs)
  }

  /** The format `"<" + "I" * n`. */
  function WordFmts(n: nat): (r: seq<Fmt>)
    ensures |r| == n
  {
    if n == 0 then [] else [IntFmt(4)] + WordFmts(n - 1)
  }

  /** The word each run stands for. */
  function RunWords(runs: seq<seq<FieldDecl>>, attrs: map<string, Value>): (r: seq<nat>)
    requires RunsIntAttrs(runs, attrs)
    ensures |r| == |runs|
  {
    if |runs| == 0 then []
    else
      assert IntAttrs(runs[0], attrs);
      assert RunsIntAttrs(runs[1..], attrs) by {
        forall i | 0 <= i < |runs| - 1 ensures IntAttrs(runs[1..][i], attrs) {
          assert runs[1..][i] == runs[i + 1];
        }
      }
      [RunValue(runs[0], attrs, 0)] + RunWords(runs[1..], attrs)
  }

  /** Word `i` of the list is run `i`'s word. */
  lemma {:induction false} RunWordsAt(runs: seq<seq<FieldDecl>>, attrs: map<string, Value>, i: nat)
    requires RunsIntAttrs(runs, attrs) && i < |runs|
    ensures IntAttrs(runs[i], attrs) && RunWords(runs, attrs)[i] == RunValue(runs[i], attrs, 0)
    decreases i
  {
    if i > 0 {
      assert RunsIntAttrs(runs[1..], attrs) by {
        forall j | 0 <= j < |runs| - 1 ensures IntAttrs(runs[1..][j], attrs) {
          assert runs[1..][j] == runs[j + 1];
        }
      }
      RunWordsAt(runs[1..], attrs, i - 1);
      assert runs[1..][i - 1] == runs[i];
    }
  }

  function IntVals(ws: seq<nat>): (r: seq<Value>)
    ensures |r| == |ws|
    ensures forall i :: 0 <= i < |ws| ==> r[i] == IntVal(ws[i])
  {
    if |ws| == 0 then [] else [IntVal(ws[0])] + IntVals(ws[1..])
  }

  /** What `from_bytes` assigns for one run read from the word `x`, the
      fields counted from bit `off` upwards. */
  function RunAssign(fields: seq<FieldDecl>, x: nat, off: nat, attrs: map<string, Value>): map<string, Value>
    decreases |fields|
  {
    if |fields| == 0 then attrs
    else
      var b := if fields[0].BitField? then fields[0].bits else 0;
      RunAssign(fields[1..], x, off + b, attrs[fields[0].name := IntVal(Field(x, off, b))])
  }

  /** ... and for every run, run `i` read from `ws[i]`. */
  function RunsAssign(runs: seq<seq<FieldDecl>>, ws: seq<nat>, attrs: map<string, Value>): map<string, Value>
    requires |ws| >= |runs|
  {
    if |runs| == 0 then attrs
    else RunsAssign(runs[1..], ws[1..], RunAssign(runs[0], ws[0], 0, attrs))
  }

  lemma WordRunsTail(runs: seq<seq<FieldDecl>>, attrs: map<string, Value>)
    requires |runs| > 0 && WordRuns(runs)
    ensures WordRuns(runs[1..]) && |runs[0]| > 0 && WordRun(runs[0], 4) && BitsSum(runs[0]) == 32
    ensures RunsIntAttrs(runs, attrs) ==> RunsIntAttrs(runs[1..], attrs) && IntAttrs(runs[0], attrs)
  {
    assert forall i :: 0 <= i < |runs| - 1 ==> runs[1..][i] == runs[i + 1];
  }

  /** A run that fills its container formats as that container, whatever follows it. */
  lemma {:induction false} RunFormatThen(fields: seq<FieldDecl>, rest: seq<FieldDecl>, size: IntSize,
                                         acc: nat, bf: Option<IntSize>)
    requires |fields| > 0 && WordRun(fields, size) && acc + BitsSum(fields) == 8 * size
    requires acc == 0 ==> bf.None?
    requires acc > 0 ==> bf == Some(size)
    ensures FormatFrom(fields + rest, acc, bf) == Prepend([IntFmt(size)], FormatFrom(rest, 0, None))
    decreases |fields|
  {
    WordRunTail(fields, size, map[]);
    assert (fields + rest)[0] == fields[0] && (fields + rest)[1..] == fields[1..] + rest;
    if |fields| > 1 {
      assert fields[1].bits > 0;
      assert BitsSum(fields[1..]) >= fields[1].bits;
      RunFormatThen(fields[1..], rest, size, acc + fields[0].bits, Some(size));
    } else {
      assert BitsSum(fields[1..]) == 0;
      assert fields[1..] == [];
    }
  }

  /** ... and `to_bytes`' loop packs the run into the one word `RunValue`, then goes on. */
  lemma RunEncodeThen(fields: seq<FieldDecl>, rest: seq<FieldDecl>, size: IntSize,
                      attrs: map<string, Value>, bv: nat, acc: nat, bf: Option<IntSize>, intended: bool)
    requires |fields| > 0 && WordRun(fields, size) && IntAttrs(fields, attrs)
    requires acc + BitsSum(fields) == 8 * size && bv < Pow2(acc)
    requires acc == 0 ==> bf.None?
    requires acc > 0 ==> bf == Some(size)
    ensures bv + RunValue(fields, attrs, acc) < Pow2(8 * size)
    ensures EncodeFrom(fields + rest, attrs, bv, acc, bf, intended)
         == Prepend([IntVal(bv + RunValue(fields, attrs, acc))], EncodeFrom(rest, attrs, 0, 0, None, intended))
  {
    RunEncode(fields, size, attrs, bv, acc, bf, intended);
    ClosingRunOf(fields, size, acc, attrs);
    EncodeAppend(fields, rest, size, attrs, bv, acc, bf, intended);
  }

  /** `fields` is a run of integer bitfields on containers of `size` bytes
      that, from bit `acc` on, closes its container with its last field. */
  predicate ClosingRun(fields: seq<FieldDecl>, size: IntSize, acc: nat, attrs: map<string, Value>)
    decreases |fields|
  {
    |fields| > 0 && fields[0].BitField? && fields[0].container == size && fields[0].bits > 0
    && fields[0].name in attrs && attrs[fields[0].name].IntVal?
    && if acc + fields[0].bits == 8 * size then |fields| == 1
       else acc + fields[0].bits < 8 * size && ClosingRun(fields[1..], size, acc + fields[0].bits, attrs)
  }

  lemma {:induction false} ClosingRunOf(fields: seq<FieldDecl>, size: IntSize, acc: nat, attrs: map<string, Value>)
    requires |fields| > 0 && WordRun(fields, size) && IntAttrs(fields, attrs) && acc + BitsSum(fields) == 8 * size
    ensures ClosingRun(fields, size, acc, attrs)
    decreases |fields|
  {
    WordRunTail(fields, size, attrs);
    if |fields| > 1 {
      assert fields[1].bits > 0;
      assert BitsSum(fields[1..]) >= fields[1].bits;
      ClosingRunOf(fields[1..], size, acc + fields[0].bits, attrs);
    }
  }

  /** The items `to_bytes`' loop emits for a run that closes its container
      come first, and the loop goes on afresh after them. */
  lemma {:induction false} EncodeAppend(fields: seq<FieldDecl>, rest: seq<FieldDecl>, size: IntSize,
                                        attrs: map<string, Value>, bv: nat, acc: nat, bf: Option<IntSize>,
                                        intended: bool)
    requires ClosingRun(fields, size, acc, attrs)
    requires acc == 0 ==> bf.None?
    requires acc > 0 ==> bf == Some(size)
    ensures EncodeFrom(fields, attrs, bv, acc, bf, intended).Ok?
    ensures EncodeFrom(fields + rest, attrs, bv, acc, bf, intended)
         == Prepend(EncodeFrom(fields, attrs, bv, acc, bf, intended).value, EncodeFrom(rest, attrs, 0, 0, None, intended))
    decreases |fields|
  {
    var acc' := acc + fields[0].bits;
    var bv' := EncodeAppendStep(fields, rest, size, attrs, bv, acc, bf, intended);
    if acc' < 8 * size {
      EncodeAppend(fields[1..], rest, size, attrs, bv', acc', Some(size), intended);
    }
  }

  /** One bitfield of a closing run, alone and with fields after it. */
  lemma EncodeAppendStep(fields: seq<FieldDecl>, rest: seq<FieldDecl>, size: IntSize,
                         attrs: map<string, Value>, bv: nat, acc: nat, bf: Option<IntSize>,
                         intended: bool) returns (bv': nat)
    requires ClosingRun(fields, size, acc, attrs)
    requires acc == 0 ==> bf.None?
    requires acc > 0 ==> bf == Some(size)
    ensures var acc' := acc + fields[0].bits;
      if acc' < 8 * size then
        && ClosingRun(fields[1..], size, acc', attrs)
        && EncodeFrom(fields, attrs, bv, acc, bf, intended) == EncodeFrom(fields[1..], attrs, bv', acc', Some(size), intended)
        && EncodeFrom(fields + rest, attrs, bv, acc, bf, intended)
           == EncodeFrom(fields[1..] + rest, attrs, bv', acc', Some(size), intended)
      else
        && EncodeFrom(fields, attrs, bv, acc, bf, intended) == Ok([IntVal(bv')])
        && EncodeFrom(fields + rest, attrs, bv, acc, bf, intended)
           == Prepend([IntVal(bv')], EncodeFrom(rest, attrs, 0, 0, None, intended))
  {
    var f := fields[0];
    bv' := Or(bv, Shl(And(attrs[f.name].n, LowMask(f.bits)), acc));
    assert (fields + rest)[0] == f && (fields + rest)[1..] == fields[1..] + rest;
    EncodeBitStep(fields + rest, attrs, bv, acc, bf, intended);
    EncodeBitStep(fields, attrs, bv, acc, bf, intended);
    if acc + f.bits == 8 * size {
      assert fields[1..] == [] && fields[1..] + rest == rest;
      assert [IntVal(bv')] + [] == [IntVal(bv')];
    }
  }

  /** ... and `from_bytes`' loop reads the run from one container, then goes on. */
  lemma {:induction false} RunDecodeThen(fields: seq<FieldDecl>, rest: seq<FieldDecl>, size: IntSize,
                                         vals: seq<Value>, pos: nat, acc: nat, bf: Option<IntSize>, cur: nat,
                                         attrs: map<string, Value>)
    requires |fields| > 0 && WordRun(fields, size) && acc + BitsSum(fields) == 8 * size
    requires acc == 0 ==> bf.None? && pos < |vals| && vals[pos].IntVal?
    requires acc > 0 ==> bf == Some(size)
    ensures var x := if acc == 0 then vals[pos].n else cur;
      var pos' := if acc == 0 then pos + 1 else pos;
      DecodeFrom(fields + rest, vals, pos, acc, bf, cur, attrs)
      == DecodeFrom(rest, vals, pos', 0, None, x, RunAssign(fields, x, acc, attrs))
    decreases |fields|
  {
    WordRunTail(fields, size, attrs);
    var x := if acc == 0 then vals[pos].n else cur;
    var pos' := if acc == 0 then pos + 1 else pos;
    var BitField(name, _, bits) := fields[0];
    var attrs' := attrs[name := IntVal(Field(x, acc, bits))];
    assert (fields + rest)[0] == fields[0] && (fields + rest)[1..] == fields[1..] + rest;
    assert DecodeFrom(fields + rest, vals, pos, acc, bf, cur, attrs)
        == if acc + bits == 8 * size then DecodeFrom(fields[1..] + rest, vals, pos', 0, None, x, attrs')
           else DecodeFrom(fields[1..] + rest, vals, pos', acc + bits, Some(size), x, attrs');
    if |fields| > 1 {
      assert fields[1].bits > 0;
      assert BitsSum(fields[1..]) >= fields[1].bits;
      RunDecodeThen(fields[1..], rest, size, vals, pos', acc + bits, Some(size), x, attrs');
    } else {
      assert BitsSum(fields[1..]) == 0;
      assert fields[1..] == [];
    }
  }

  /** A layout of `n` word runs has the format `"<" + "I" * n`. */
  lemma {:induction false} WordRunsFormat(runs: seq<seq<FieldDecl>>)
    requires WordRuns(runs)
    ensures Format(Flatten(runs)) == Ok(WordFmts(|runs|))
    ensures CalcSize(WordFmts(|runs|)) == 4 * |runs|
  {
    if |runs| > 0 {
      WordRunsTail(runs, map[]);
      WordRunsFormat(runs[1..]);
      RunFormatThen(runs[0], Flatten(runs[1..]), 4, 0, None);
    }
  }

  /** `to_bytes`' loop emits one item per run, the run's word. */
  lemma {:induction false} WordRunsEncode(runs: seq<seq<FieldDecl>>, attrs: map<string, Value>, intended: bool)
    requires WordRuns(runs) && RunsIntAttrs(runs, attrs)
    ensures forall i :: 0 <= i < |runs| ==> RunWords(runs, attrs)[i] < 0x1_0000_0000
    ensures EncodeFrom(Flatten(runs), attrs, 0, 0, None, intended) == Ok(IntVals(RunWords(runs, attrs)))
  {
    if |runs| > 0 {
      WordRunsTail(runs, attrs);
      WordRunsEncode(runs[1..], attrs, intended);
      RunEncodeThen(runs[0], Flatten(runs[1..]), 4, attrs, 0, 0, None, intended);
      Pow2Of32();
      assert [IntVal(RunValue(runs[0], attrs, 0))] + IntVals(RunWords(runs[1..], attrs))
          == IntVals(RunWords(runs, attrs));
    }
  }

  /** `struct.pack("<" + "I" * n, *ws)` is the little-endian bytes of the words. */
  lemma {:induction false} PackWords(ws: seq<nat>)
    requires forall i :: 0 <= i < |ws| ==> ws[i] < 0x1_0000_0000
    ensures PackAll(WordFmts(|ws|), IntVals(ws)) == Ok(EncodeAll(ws, 4))
  {
    if |ws| > 0 {
      BoundIsPow2(4);
      Pow2Of32();
      assert WordFmts(|ws|)[1..] == WordFmts(|ws| - 1) && IntVals(ws)[1..] == IntVals(ws[1..]);
      PackWords(ws[1..]);
    }
  }

  /** `struct.unpack_from("<" + "I" * n, ...)` of those bytes gives the words back. */
  lemma {:induction false} UnpackWords(ws: seq<nat>)
    requires forall i :: 0 <= i < |ws| ==> ws[i] < 0x1_0000_0000
    ensures CalcSize(WordFmts(|ws|)) == 4 * |ws|
    ensures UnpackAll(WordFmts(|ws|), EncodeAll(ws, 4)) == IntVals(ws)
  {
    if |ws| > 0 {
      var e := EncodeAll(ws, 4);
      UnpackWords(ws[1..]);
      assert e[..4] == LeBytes(ws[0], 4) && e[4..] == EncodeAll(ws[1..], 4);
      Pow2Of32();
      LeRoundTrip(ws[0], 4);
      assert WordFmts(|ws|)[1..] == WordFmts(|ws| - 1);
    }
  }

  /** `from_bytes`' loop reads run `i` from item `pos + i`. */
  lemma {:induction false} WordRunsDecode(runs: seq<seq<FieldDecl>>, ws: seq<nat>, pos: nat, cur: nat,
                                          attrs: map<string, Value>)
    requires WordRuns(runs) && pos + |runs| <= |ws|
    ensures DecodeFrom(Flatten(runs), IntVals(ws), pos, 0, None, cur, attrs)
         == Decoded(RunsAssign(runs, ws[pos..], attrs), Ok(()))
  {
    if |runs| > 0 {
      WordRunsTail(runs, attrs);
      RunDecodeThen(runs[0], Flatten(runs[1..]), 4, IntVals(ws), pos, 0, None, cur, attrs);
      WordRunsDecode(runs[1..], ws, pos + 1, ws[pos], RunAssign(runs[0], ws[pos], 0, attrs));
      assert ws[pos..][1..] == ws[pos + 1..];
    }
  }

  /** `to_int_list(4)` of a word-run layout is the list of its runs' words. */
  lemma WordRunsIntList(runs: seq<seq<FieldDecl>>, attrs: map<string, Value>)
    requires WordRuns(runs) && RunsIntAttrs(runs, attrs)
    ensures Format(Flatten(runs)) == Ok(WordFmts(|runs|))
    ensures IntList(Flatten(runs), WordFmts(|runs|), attrs, 4) == Ok(RunWords(runs, attrs))
  {
    var ws := RunWords(runs, attrs);
    WordRunsFormat(runs);
    WordRunsEncode(runs, attrs, false);
    PackWords(ws);
    BoundIsPow2(4);
    Pow2Of32();
    IntsFromDataRoundTrip(ws, 4);
  }

  /** `from_ints(ws)` on a word-run layout of `|ws|` words reads run `i` from `ws[i]`;
      fewer words are too few bytes for `unpack_from`. */
  lemma WordRunsFromInts(runs: seq<seq<FieldDecl>>, ws: seq<nat>, attrs: map<string, Value>)
    requires WordRuns(runs) && |ws| <= |runs|
    requires forall i :: 0 <= i < |ws| ==> ws[i] < 0x1_0000_0000
    ensures BytearrayViewFromInts(ws) == Ok(EncodeAll(ws, 4))
    ensures |ws| == |runs| ==>
      DecodeBytes(Flatten(runs), WordFmts(|runs|), EncodeAll(ws, 4), attrs) == Decoded(RunsAssign(runs, ws, attrs), Ok(()))
    ensures |ws| < |runs| ==>
      DecodeBytes(Flatten(runs), WordFmts(|runs|), EncodeAll(ws, 4), attrs)
      == Decoded(attrs, Err(BufferTooSmall))
  {
    ViewIsEncode(ws);
    WordRunsFormat(runs);
    if |ws| == |runs| {
      UnpackWords(ws);
      WordRunsDecode(runs, ws, 0, 0, attrs);
      assert ws[0..] == ws;
    }
  }

  /** After `RunAssign`, a field whose name no later field of the run repeats
      holds its bits of the word. */
  lemma {:induction false} RunAssignAt(fields: seq<FieldDecl>, x: nat, off: nat, attrs: map<string, Value>, k: nat)
    requires k < |fields| && fields[k].BitField?
    requires forall j :: k < j < |fields| ==> fields[j].name != fields[k].name
    ensures fields[k].name in RunAssign(fields, x, off, attrs)
    ensures RunAssign(fields, x, off, attrs)[fields[k].name] == IntVal(Field(x, off + BitsSum(fields[..k]), fields[k].bits))
  {
    var b := if fields[0].BitField? then fields[0].bits else 0;
    var attrs' := attrs[fields[0].name := IntVal(Field(x, off, b))];
    if k == 0 {
      RunAssignOther(fields[1..], x, off + b, attrs', fields[0].name);
      assert fields[..0] == [];
    } else {
      RunAssignAt(fields[1..], x, off + b, attrs', k - 1);
      assert fields[1..][..k - 1] == fields[..k][1..];
    }
  }

  /** `RunAssign` leaves every other name as it was. */
  lemma {:induction false} RunAssignOther(fields: seq<FieldDecl>, x: nat, off: nat, attrs: map<string, Value>, name: string)
    requires forall j :: 0 <= j < |fields| ==> fields[j].name != name
    ensures name in RunAssign(fields, x, off, attrs) <==> name in attrs
    ensures name in attrs ==> RunAssign(fields, x, off, attrs)[name] == attrs[name]
    decreases |fields|
  {
    if |fields| > 0 {
      var b := if fields[0].BitField? then fields[0].bits else 0;
      RunAssignOther(fields[1..], x, off + b, attrs[fields[0].name := IntVal(Field(x, off, b))], name);
    }
  }

  /** After `RunsAssign`, field `k` of run `i` holds its bits of word `i`,
      when no later field repeats its name. */
  lemma {:induction false} RunsAssignAt(runs: seq<seq<FieldDecl>>, ws: seq<nat>, attrs: map<string, Value>, i: nat, k: nat)
    requires |ws| >= |runs| && i < |runs| && k < |runs[i]| && runs[i][k].BitField?
    requires forall j :: k < j < |runs[i]| ==> runs[i][j].name != runs[i][k].name
    requires forall i2, j :: i < i2 < |runs| && 0 <= j < |runs[i2]| ==> runs[i2][j].name != runs[i][k].name
    ensures runs[i][k].name in RunsAssign(runs, ws, attrs)
    ensures RunsAssign(runs, ws, attrs)[runs[i][k].name] == IntVal(Field(ws[i], BitsSum(runs[i][..k]), runs[i][k].bits))
    decreases |runs|
  {
    var next := RunAssign(runs[0], ws[0], 0, attrs);
    if i == 0 {
      RunAssignAt(runs[0], ws[0], 0, attrs, k);
      RunsAssignOther(runs[1..], ws[1..], next, runs[0][k].name);
    } else {
      assert runs[1..][i - 1] == runs[i] && ws[1..][i - 1] == ws[i];
      RunsAssignAt(runs[1..], ws[1..], next, i - 1, k);
    }
  }

  /** `RunsAssign` leaves a name no run has as it was. */
  lemma {:induction false} RunsAssignOther(runs: seq<seq<FieldDecl>>, ws: seq<nat>, attrs: map<string, Value>, name: string)
    requires |ws| >= |runs|
    requires forall i, j :: 0 <= i < |runs| && 0 <= j < |runs[i]| ==> runs[i][j].name != name
    ensures name in RunsAssign(runs, ws, attrs) <==> name in attrs
    ensures name in attrs ==> RunsAssign(runs, ws, attrs)[name] == attrs[name]
    decreases |runs|
  {
    if |runs| > 0 {
      RunAssignOther(runs[0], ws[0], 0, attrs, name);
      assert forall i, j :: 0 <= i < |runs| - 1 && 0 <= j < |runs[1..][i]| ==> runs[1..][i][j] == runs[i + 1][j];
      RunsAssignOther(runs[1..], ws[1..], RunAssign(runs[0], ws[0], 0, attrs), name);
    }
  }
}
