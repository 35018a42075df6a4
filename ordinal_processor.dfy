/** `AttributeProcessor.Ordinal`: statistics of an ordinal attribute, whose
    values are integer codes of ordered categories and whose missing values are
    `int.MinValue`. The caller supplies the ordering dictionary, code -> label. */
module OrdinalProcessor {
  import opened Sequences
  import opened Dictionaries
  import opened Records
  import opened Extrema
  import opened Measures

  /** Every code that is not missing has an entry in the ordering dictionary
      (the counting pass looks each one up and throws on a missing key). */
  predicate CodesCovered(os: seq<InfoObject>, aID: int, dict: Dict<Int32, string>)
    requires HasOrdinal(os, aID)
  {
    forall i :: 0 <= i < |os| && os[i].ordinal[aID].value != MissingCode ==> os[i].ordinal[aID].value in dict.entries
  }

  /** One entry per code of the ordering dictionary, in its order, counting the
      records that hold that code; a dictionary entry for `int.MinValue` stays 0. */
  method CalculateDistribution(os: seq<InfoObject>, aID: int, dict: Dict<Int32, string>) returns (distribution: Dict<Int32, int>)
    requires HasOrdinal(os, aID) && dict.Valid() && CodesCovered(os, aID, dict)
    ensures distribution.Valid() && distribution.keys == dict.keys
    ensures forall k :: k in distribution.entries ==>
              distribution.entries[k] == if k == MissingCode then 0 else Occurrences(OrdinalColumn(os, aID), k)
    ensures Sum(distribution.Values()) == |Observed(OrdinalColumn(os, aID), MissingCode)|
  {
    ghost var col := OrdinalColumn(os, aID);
    ghost var observed := Observed(col, MissingCode);
    var keys := dict.keys;
    distribution := ZeroCounts(keys);
    distribution := CountCodes(os, aID, distribution);
    forall k | k in distribution.entries
      ensures distribution.entries[k] == if k == MissingCode then 0 else Occurrences(col, k)
    {
      assert distribution.entries[k] == Occurrences(observed, k);
      if k != MissingCode {
        OccurrencesObserved(col, MissingCode, k);
      } else {
        assert MissingCode !in observed;
      }
    }
    forall x | x in observed ensures x in distribution.entries {
      var i :| 0 <= i < |col| && col[i] == x;
    }
    CountsTotal(distribution, observed);
  }

  /** The counting pass: one more for the code of each record that is not missing. */
  method CountCodes(os: seq<InfoObject>, aID: int, d0: Dict<Int32, int>) returns (d: Dict<Int32, int>)
    requires HasOrdinal(os, aID)
    requires d0.Valid() && Counts(d0.entries, [])
    requires forall i :: 0 <= i < |os| && os[i].ordinal[aID].value != MissingCode ==> os[i].ordinal[aID].value in d0.entries
    ensures d.Valid() && d.keys == d0.keys
    ensures Counts(d.entries, Observed(OrdinalColumn(os, aID), MissingCode))
  {
    ghost var col := OrdinalColumn(os, aID);
    d := d0;
    assert Observed(col[..0], MissingCode) == [];
    for i := 0 to |os|
      invariant d.Valid() && d.keys == d0.keys
      invariant Counts(d.entries, Observed(col[..i], MissingCode))
    {
      var a := os[i].ordinal[aID];
      ObservedStep(col, i, MissingCode);
      if a.value != MissingCode {
        d := Increment(d, a.value, Observed(col[..i], MissingCode));
      }
    }
    assert col[..|os|] == col;
  }

  /** How many records hold `value1` in attribute `aID1` and `value2` in `aID2`.
      Records missing either attribute are skipped, so asking for `int.MinValue`
      always yields 0. */
  method CountObjectsMatchingTwoCattegories(os: seq<InfoObject>, aID1: int, aID2: int, value1: Int32, value2: Int32)
    returns (counter: nat)
    requires HasOrdinal(os, aID1) && HasOrdinal(os, aID2)
    ensures counter == if value1 == MissingCode || value2 == MissingCode then 0
                       else PairCount(OrdinalColumn(os, aID1), OrdinalColumn(os, aID2), value1, value2)
    ensures counter <= |os|
  {
    ghost var col1, col2 := OrdinalColumn(os, aID1), OrdinalColumn(os, aID2);
    ghost var asked := value1 != MissingCode && value2 != MissingCode;
    counter := 0;
    for i := 0 to |os|
      invariant counter == if asked then PairCount(col1[..i], col2[..i], value1, value2) else 0
    {
      var v1 := os[i].ordinal[aID1].value;
      var v2 := os[i].ordinal[aID2].value;
      Prefix(col1, i);
      Prefix(col2, i);
      PairCountSnoc(col1[..i], col2[..i], v1, v2, value1, value2);
      if v1 != MissingCode && v2 != MissingCode {
        if v1 == value1 && v2 == value2 {
          counter := counter + 1;
        }
      }
    }
    assert col1[..|os|] == col1 && col2[..|os|] == col2;
    assert PairCount(col1, col2, value1, value2) <= |os|;
  }

  /** The smallest code present, or `int.MaxValue` when every value is missing. */
  method CalculateMin(os: seq<InfoObject>, attributeID: int) returns (minimum: Int32)
    requires HasOrdinal(os, attributeID)
    ensures minimum == CodeMin(OrdinalColumn(os, attributeID))
  {
    ghost var col := OrdinalColumn(os, attributeID);
    minimum := IntMaxValue;
    for i := 0 to |os|
      invariant minimum == CodeMin(col[..i])
    {
      var a := os[i].ordinal[attributeID];
      CodeMinStep(col, i);
      if a.value != MissingCode {
        if a.value < minimum {
          minimum := a.value;
        }
      }
    }
    assert col[..|os|] == col;
  }

  /** The largest code present, or `int.MinValue` when every value is missing. */
  method CalculateMax(os: seq<InfoObject>, attributeID: int) returns (maximum: Int32)
    requires HasOrdinal(os, attributeID)
    ensures maximum == CodeMax(OrdinalColumn(os, attributeID))
  {
    ghost var col := OrdinalColumn(os, attributeID);
    maximum := IntMinValue;
    for i := 0 to |os|
      invariant maximum == CodeMax(col[..i])
    {
      var a := os[i].ordinal[attributeID];
      CodeMaxStep(col, i);
      if a.value != MissingCode {
        if a.value > maximum {
          maximum := a.value;
        }
      }
    }
    assert col[..|os|] == col;
  }

  /** The statistics record of an ordinal attribute. The name is read from the
      first record, the ordering dictionary must be non-empty (its largest code
      is taken) and its labels distinct (they are inverted into a dictionary). */
  method CalculateStats(os: seq<InfoObject>, aID: int, dict: Dict<Int32, string>) returns (m: OrdinalDataDimensionMeasures)
    requires |os| > 0 && HasOrdinal(os, aID)
    requires dict.Valid() && |dict.keys| > 0 && NoDuplicates(dict.Values())
    requires CodesCovered(os, aID, dict)
    ensures m.Valid()
    ensures m.name == os[0].ordinal[aID].name && m.orderedValueIDs == dict
    ensures m.distribution.keys == dict.keys
    ensures forall k :: k in m.distribution.entries ==>
              m.distribution.entries[k] == if k == MissingCode then 0 else Occurrences(OrdinalColumn(os, aID), k)
    ensures Sum(m.distribution.Values()) == |Observed(OrdinalColumn(os, aID), MissingCode)|
    ensures m.range == m.numberOfUniqueValues == |dict.keys|
    ensures m.max in dict.entries && forall k :: k in dict.entries ==> k <= m.max
  {
    var distribution := CalculateDistribution(os, aID, dict);
    m := MakeOrdinal(dict, distribution, os[0].ordinal[aID].name);
  }
}
