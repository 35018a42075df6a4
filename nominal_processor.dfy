/** `AttributeProcessor.Nominal`: statistics of a nominal (string-valued)
    attribute, whose missing values are the string "missingValue". */
module NominalProcessor {
  import opened Sequences
  import opened Dictionaries
  import opened Records
  import opened Measures

  /** The distinct non-missing values, in the order they are first seen: a value
      listed before another occurs in an earlier record than any record holding
      the later one. */
  method FindUniqueValues(os: seq<InfoObject>, aID: int) returns (unique: seq<string>)
    requires HasNominal(os, aID)
    ensures unique == Distinct(Observed(NominalColumn(os, aID), MissingNominal))
    ensures NoDuplicates(unique) && MissingNominal !in unique
    ensures forall v :: v in unique <==> v in NominalColumn(os, aID) && v != MissingNominal
  {
    ghost var col := NominalColumn(os, aID);
    unique := [];
    for i := 0 to |os|
      invariant unique == Distinct(Observed(col[..i], MissingNominal))
    {
      var a := os[i].nominal[aID];
      DistinctObservedStep(col, i, MissingNominal);
      if a.value != MissingNominal && a.value !in unique {
        unique := unique + [a.value];
      }
    }
    assert col[..|os|] == col;
  }

  /** The number of records holding each distinct non-missing value, keyed in
      first-seen order. */
  method CalculateDistribution(os: seq<InfoObject>, aID: int) returns (distribution: Dict<string, int>)
    requires HasNominal(os, aID)
    ensures distribution.Valid()
    ensures distribution.keys == Distinct(Observed(NominalColumn(os, aID), MissingNominal))
    ensures forall v :: v in distribution.entries ==>
              distribution.entries[v] == Occurrences(NominalColumn(os, aID), v) >= 1
    ensures Sum(distribution.Values()) == |Observed(NominalColumn(os, aID), MissingNominal)|
  {
    ghost var col := NominalColumn(os, aID);
    ghost var observed := Observed(col, MissingNominal);
    var keys := FindUniqueValues(os, aID);
    distribution := ZeroCounts(keys);
    distribution := CountValues(os, aID, distribution);
    forall v | v in distribution.entries
      ensures distribution.entries[v] == Occurrences(col, v) >= 1
    {
      OccurrencesObserved(col, MissingNominal, v);
    }
    CountsTotal(distribution, observed);
  }

  /** The counting pass: one more for the value of each record that is not missing. */
  method CountValues(os: seq<InfoObject>, aID: int, d0: Dict<string, int>) returns (d: Dict<string, int>)
    requires HasNominal(os, aID)
    requires d0.Valid() && Counts(d0.entries, [])
    requires forall v :: v in NominalColumn(os, aID) && v != MissingNominal ==> v in d0.entries
    ensures d.Valid() && d.keys == d0.keys
    ensures Counts(d.entries, Observed(NominalColumn(os, aID), MissingNominal))
  {
    ghost var col := NominalColumn(os, aID);
    d := d0;
    assert Observed(col[..0], MissingNominal) == [];
    for i := 0 to |os|
      invariant d.Valid() && d.keys == d0.keys
      invariant Counts(d.entries, Observed(col[..i], MissingNominal))
    {
      var a := os[i].nominal[aID];
      ObservedStep(col, i, MissingNominal);
      if a.value != MissingNominal {
        assert col[i] in col;
        d := Increment(d, a.value, Observed(col[..i], MissingNominal));
      }
    }
    assert col[..|os|] == col;
  }

  /** How many records hold `value1` in attribute `aID1` and `value2` in `aID2`;
      "missingValue" is compared like any other string. */
  method CountObjectsMatchingTwoCattegories(os: seq<InfoObject>, aID1: int, aID2: int, value1: string, value2: string)
    returns (counter: nat)
    requires HasNominal(os, aID1) && HasNominal(os, aID2)
    ensures counter == PairCount(NominalColumn(os, aID1), NominalColumn(os, aID2), value1, value2)
    ensures counter <= |os|
  {
    ghost var col1, col2 := NominalColumn(os, aID1), NominalColumn(os, aID2);
    counter := 0;
    for i := 0 to |os|
      invariant counter == PairCount(col1[..i], col2[..i], value1, value2)
    {
      var v1 := os[i].nominal[aID1].value;
      var v2 := os[i].nominal[aID2].value;
      Prefix(col1, i);
      Prefix(col2, i);
      PairCountSnoc(col1[..i], col2[..i], v1, v2, value1, value2);
      if v1 == value1 && v2 == value2 {
        counter := counter + 1;
      }
    }
    assert col1[..|os|] == col1 && col2[..|os|] == col2;
  }

  /** The nominal pair count does not skip missing values: records missing both
      attributes are all counted when "missingValue" is asked for twice. */
  lemma PairCountIncludesMissing(os: seq<InfoObject>, aID1: int, aID2: int)
    requires HasNominal(os, aID1) && HasNominal(os, aID2)
    requires forall i :: 0 <= i < |os| ==>
               os[i].nominal[aID1].value == MissingNominal && os[i].nominal[aID2].value == MissingNominal
    ensures PairCount(NominalColumn(os, aID1), NominalColumn(os, aID2), MissingNominal, MissingNominal) == |os|
  {
    PairCountAllMatch(NominalColumn(os, aID1), NominalColumn(os, aID2), MissingNominal, MissingNominal);
  }

  /** The statistics record of a nominal attribute. The name is read from the
      first record and the distribution must have a key, so at least one record
      and one non-missing value are required (the C# `AttributeProcessor.Nominal` throws otherwise). */
  method CalculateStats(os: seq<InfoObject>, aID: int) returns (m: NominalDataDimensionMeasures)
    requires |os| > 0 && HasNominal(os, aID)
    requires Observed(NominalColumn(os, aID), MissingNominal) != []
    ensures m.Valid()
    ensures m.name == os[0].nominal[aID].name
    ensures m.uniqueValues == Distinct(Observed(NominalColumn(os, aID), MissingNominal))
    ensures m.numberOfUniqueValues == |m.uniqueValues| && m.max == m.numberOfUniqueValues - 1
    ensures forall v :: v in m.distribution.entries <==> v in NominalColumn(os, aID) && v != MissingNominal
    ensures forall v :: v in m.distribution.entries ==> m.distribution.entries[v] == Occurrences(NominalColumn(os, aID), v)
    ensures Sum(m.distribution.Values()) == |Observed(NominalColumn(os, aID), MissingNominal)|
  {
    var distribution := CalculateDistribution(os, aID);
    assert Observed(NominalColumn(os, aID), MissingNominal)[0] in distribution.keys;
    m := MakeNominal(distribution, os[0].nominal[aID].name);
  }
}
