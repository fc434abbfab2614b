/**
 * The PRC knob ids of gpu/prc.py (the `PrcKnob` enum) and the string a
 * knob id is printed as.
 */
module Prc {
  import opened Text

  /** The `PrcKnob` members in declaration order, as (name, value): the values
      are 1..46 and the members without a proper name are `PRC_KNOB_ID_<value>`. */
  const Knobs: seq<(string, nat)> := MembersFrom(1)

  function MembersFrom(id: nat): (r: seq<(string, nat)>)
    requires 1 <= id <= 47
    ensures |r| == 47 - id
    ensures forall i :: 0 <= i < |r| ==> r[i] == (MemberName(id + i), id + i)
    decreases 47 - id
  {
    if id == 47 then []
    else
      var t := MembersFrom(id + 1);
      var r := [(MemberName(id), id)] + t;
      assert forall i :: 0 < i < |r| ==> r[i] == t[i - 1];
      r
  }

  function MemberName(id: nat): string
  {
    if id == CCD_ALLOW_INB then "PRC_KNOB_ID_CCD_ALLOW_INB"
    else if id == CCD then "PRC_KNOB_ID_CCD"
    else if id == CCM_ALLOW_INB then "PRC_KNOB_ID_CCM_ALLOW_INB"
    else if id == CCM then "PRC_KNOB_ID_CCM"
    else if id == BAR0_DECOUPLER_ALLOW_INB then "PRC_KNOB_ID_BAR0_DECOUPLER_ALLOW_INB"
    else if id == BAR0_DECOUPLER then "PRC_KNOB_ID_BAR0_DECOUPLER"
    else if id == PPCIE_ALLOW_INB then "PRC_KNOB_ID_PPCIE_ALLOW_INB"
    else if id == PPCIE then "PRC_KNOB_ID_PPCIE"
    else "PRC_KNOB_ID_" + Dec(id)
  }

  const CCD_ALLOW_INB: nat := 5
  const CCD: nat := 6
  const CCM_ALLOW_INB: nat := 7
  const CCM: nat := 8
  const BAR0_DECOUPLER_ALLOW_INB: nat := 9
  const BAR0_DECOUPLER: nat := 10
  const PPCIE_ALLOW_INB: nat := 44
  const PPCIE: nat := 45

  /** `PrcKnob(knob_id).name`, or None where `PrcKnob(knob_id)` raises ValueError. */
  function KnobName(id: nat): Option<string>
  {
    NameIn(Knobs, id)
  }

  function NameIn(table: seq<(string, nat)>, id: nat): (r: Option<string>)
    ensures r.Some? <==> exists i :: 0 <= i < |table| && table[i].1 == id
    ensures r.Some? ==> exists i :: 0 <= i < |table| && table[i].1 == id && table[i].0 == r.value
  {
    if |table| == 0 then None
    else if table[0].1 == id then Some(table[0].0)
    else
      var r := NameIn(table[1..], id);
      assert forall i :: 0 < i < |table| ==> table[i] == table[1..][i - 1];
      r
  }

  /** `PrcKnob.str_from_knob_id(knob_id)` */
  function StrFromKnobId(id: nat): string
  {
    var knobName := match KnobName(id) case Some(n) => n + " " case None => "";
    knobName + Dec(id) + " (" + Hex(id) + ")"
  }

  /** The enum values are exactly 1..46, in order, each defined once. */
  lemma KnobIdsAreOneTo46()
    ensures |Knobs| == 46
    ensures forall i :: 0 <= i < |Knobs| ==> Knobs[i].1 == i + 1
    ensures forall i, j :: 0 <= i < j < |Knobs| ==> Knobs[i].1 != Knobs[j].1
  {
  }

  /** Looking a value up in the enum finds the member declared with it. */
  lemma KnobNameOfMember(id: nat)
    requires 1 <= id <= 46
    ensures KnobName(id) == Some(MemberName(id))
  {
    LookupMember(1, id);
  }

  lemma {:induction false} LookupMember(from: nat, id: nat)
    requires 1 <= from <= id <= 46
    ensures NameIn(MembersFrom(from), id) == Some(MemberName(id))
    decreases id - from
  {
    var t := MembersFrom(from);
    assert t[0] == (MemberName(from), from);
    if from < id {
      assert t[1..] == MembersFrom(from + 1);
      LookupMember(from + 1, id);
    }
  }

  /** The named knobs carry the ids the CC and PPCIe code uses. */
  lemma NamedKnobIds()
    ensures KnobName(5) == Some("PRC_KNOB_ID_CCD_ALLOW_INB")
    ensures KnobName(6) == Some("PRC_KNOB_ID_CCD")
    ensures KnobName(7) == Some("PRC_KNOB_ID_CCM_ALLOW_INB")
    ensures KnobName(8) == Some("PRC_KNOB_ID_CCM")
    ensures KnobName(9) == Some("PRC_KNOB_ID_BAR0_DECOUPLER_ALLOW_INB")
    ensures KnobName(10) == Some("PRC_KNOB_ID_BAR0_DECOUPLER")
    ensures KnobName(44) == Some("PRC_KNOB_ID_PPCIE_ALLOW_INB")
    ensures KnobName(45) == Some("PRC_KNOB_ID_PPCIE")
  {
    assert KnobName(5) == Some(MemberName(5)) by { KnobNameOfMember(5); }
    assert KnobName(6) == Some(MemberName(6)) by { KnobNameOfMember(6); }
    assert KnobName(7) == Some(MemberName(7)) by { KnobNameOfMember(7); }
    assert KnobName(8) == Some(MemberName(8)) by { KnobNameOfMember(8); }
    assert KnobName(9) == Some(MemberName(9)) by { KnobNameOfMember(9); }
    assert KnobName(10) == Some(MemberName(10)) by { KnobNameOfMember(10); }
    assert KnobName(44) == Some(MemberName(44)) by { KnobNameOfMember(44); }
    assert KnobName(45) == Some(MemberName(45)) by { KnobNameOfMember(45); }
  }

  /** A defined id prints as its name, its decimal value and its hex value. */
  lemma StrOfDefinedKnob(id: nat)
    requires 1 <= id <= 46
    ensures KnobName(id).Some?
    ensures StrFromKnobId(id) == KnobName(id).value + " " + Dec(id) + " (" + Hex(id) + ")"
  {
    KnobNameOfMember(id);
  }

  /** An id outside the enum prints as its decimal and hex value, without failing. */
  lemma StrOfUndefinedKnob(id: nat)
    requires id == 0 || id > 46
    ensures KnobName(id).None?
    ensures StrFromKnobId(id) == Dec(id) + " (" + Hex(id) + ")"
  {
  }
}
