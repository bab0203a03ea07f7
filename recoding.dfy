/** Value recoding with the semantics of pandas `Series.replace` given a dictionary. */
module Recoding {
  import opened Values

  /** A replacement dictionary as its (key, replacement) pairs. */
  type Mapping = seq<(Value, Value)>

  /** The values a dictionary can produce. */
  function Targets(m: Mapping): set<Value>
  {
    set p | p in m :: p.1
  }

  /** `replace(m)` on one cell: the replacement of the key that equals the cell, or the cell
      itself when no key equals it. */
  function Replace(v: Value, m: Mapping): (r: Value)
    ensures (forall k :: 0 <= k < |m| ==> !PyEq(m[k].0, v)) ==> r == v
    ensures forall k :: 0 <= k < |m| && PyEq(m[k].0, v) && (forall j :: 0 <= j < k ==> !PyEq(m[j].0, v)) ==> r == m[k].1
    ensures r == v || r in Targets(m)
  {
    if m == [] then v
    else if PyEq(m[0].0, v) then m[0].1
    else
      var r := Replace(v, m[1..]);
      assert forall k :: 1 <= k < |m| ==> m[k] == m[1..][k - 1];
      assert Targets(m[1..]) <= Targets(m) by {
        forall t | t in Targets(m[1..]) ensures t in Targets(m) {
          var p :| p in m[1..] && t == p.1;
          assert p in m;
        }
      }
      r
  }

  /** When every replacement is itself left alone by the table, replacing twice is replacing once. */
  lemma ReplaceIdempotent(v: Value, m: Mapping)
    requires forall t :: t in Targets(m) ==> Replace(t, m) == t
    ensures Replace(Replace(v, m), m) == Replace(v, m)
  {
  }

  /** The dictionary `{0: False, 1: True}` applied to SeniorCitizen. */
  const SeniorCitizenMapping: Mapping := [(VInt(0), VBool(false)), (VInt(1), VBool(true))]

  /** The dictionary `{'Yes': True, 'No': False}` applied to Partner and Dependents. */
  const YesNoMapping: Mapping := [(VStr("Yes"), VBool(true)), (VStr("No"), VBool(false))]

  /** SeniorCitizen recoding: a cell equal to 0 becomes False, one equal to 1 becomes True,
      every other cell passes through unchanged. */
  function RecodeSeniorCitizen(v: Value): (r: Value)
    ensures NumericValue(v) == Some(0) ==> r == VBool(false)
    ensures NumericValue(v) == Some(1) ==> r == VBool(true)
    ensures NumericValue(v) != Some(0) && NumericValue(v) != Some(1) ==> r == v
  {
    Replace(v, SeniorCitizenMapping)
  }

  /** Partner and Dependents recoding: "Yes" becomes True, "No" becomes False, every other
      cell passes through unchanged. */
  function RecodeYesNo(v: Value): (r: Value)
    ensures v == VStr("Yes") ==> r == VBool(true)
    ensures v == VStr("No") ==> r == VBool(false)
    ensures v != VStr("Yes") && v != VStr("No") ==> r == v
  {
    Replace(v, YesNoMapping)
  }

  /** Both dictionaries map only to booleans, which they leave alone. */
  lemma MappingsFixTheirTargets()
    ensures forall t :: t in Targets(SeniorCitizenMapping) ==> Replace(t, SeniorCitizenMapping) == t
    ensures forall t :: t in Targets(YesNoMapping) ==> Replace(t, YesNoMapping) == t
  {
    assert Targets(SeniorCitizenMapping) == {VBool(false), VBool(true)};
    assert Targets(YesNoMapping) == {VBool(true), VBool(false)};
    assert Replace(VBool(false), SeniorCitizenMapping) == VBool(false);
    assert Replace(VBool(true), SeniorCitizenMapping) == VBool(true);
    assert Replace(VBool(false), YesNoMapping) == VBool(false);
    assert Replace(VBool(true), YesNoMapping) == VBool(true);
  }

  /** No cell equals both keys of either dictionary, so the first key equal to a cell is the
      only one, as for a Python dictionary, whose keys are never equal to each other. */
  lemma MappingKeysExclusive(v: Value)
    ensures !(PyEq(SeniorCitizenMapping[0].0, v) && PyEq(SeniorCitizenMapping[1].0, v))
    ensures !(PyEq(YesNoMapping[0].0, v) && PyEq(YesNoMapping[1].0, v))
  {
    PyEqEquivalence(SeniorCitizenMapping[0].0, v, SeniorCitizenMapping[1].0);
    PyEqEquivalence(v, SeniorCitizenMapping[1].0, SeniorCitizenMapping[0].0);
    PyEqEquivalence(YesNoMapping[0].0, v, YesNoMapping[1].0);
    PyEqEquivalence(v, YesNoMapping[1].0, YesNoMapping[0].0);
  }

  /** Recoding SeniorCitizen a second time changes nothing. */
  lemma SeniorCitizenIdempotent(v: Value)
    ensures RecodeSeniorCitizen(RecodeSeniorCitizen(v)) == RecodeSeniorCitizen(v)
  {
    MappingsFixTheirTargets();
    ReplaceIdempotent(v, SeniorCitizenMapping);
  }

  /** Recoding Partner or Dependents a second time changes nothing. */
  lemma YesNoIdempotent(v: Value)
    ensures RecodeYesNo(RecodeYesNo(v)) == RecodeYesNo(v)
  {
    MappingsFixTheirTargets();
    ReplaceIdempotent(v, YesNoMapping);
  }
}
