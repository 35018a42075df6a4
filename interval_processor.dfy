/** `AttributeProcessor.Interval`: statistics of an interval-scaled attribute,
    whose values are integers and whose missing values are `int.MinValue`. */
module IntervalProcessor {
  import opened Sequences
  import opened Dictionaries
  import opened Records
  import opened Extrema
  import opened Measures

  /** The number of records holding each value that is not missing, keyed in the
      order the values are first seen (a key is added when first met). */
  method CalculateDistribution(os: seq<InfoObject>, aID: int) returns (distribution: Dict<Int32, int>)
    requires HasInterval(os, aID)
    ensures distribution.Valid()
    ensures distribution.keys == Distinct(Observed(IntervalColumn(os, aID), MissingCode))
    ensures forall k :: k in distribution.entries ==>
              distribution.entries[k] == Occurrences(IntervalColumn(os, aID), k) >= 1
    ensures Sum(distribution.Values()) == |Observed(IntervalColumn(os, aID), MissingCode)|
  {
    ghost var col := IntervalColumn(os, aID);
    ghost var observed := Observed(col, MissingCode);
    distribution := Empty();
    TallyEmpty<Int32>();
    assert Observed(col[..0], MissingCode) == [];
    for i := 0 to |os|
      invariant Tallied(distribution, Observed(col[..i], MissingCode))
    {
      var a := os[i].interval[aID];
      ObservedStep(col, i, MissingCode);
      if a.value != MissingCode {
        distribution := AddOrIncrement(distribution, a.value, Observed(col[..i], MissingCode));
      }
    }
    assert col[..|os|] == col;
    TallyCounts(distribution, col, MissingCode);
  }

  /** The smallest value present, or `int.MaxValue` when every value is missing. */
  method CalculateMin(os: seq<InfoObject>, attributeID: int) returns (minimum: Int32)
    requires HasInterval(os, attributeID)
    ensures minimum == CodeMin(IntervalColumn(os, attributeID))
  {
    ghost var col := IntervalColumn(os, attributeID);
    minimum := IntMaxValue;
    for i := 0 to |os|
      invariant minimum == CodeMin(col[..i])
    {
      var a := os[i].interval[attributeID];
      CodeMinStep(col, i);
      if a.value != MissingCode {
        if a.value < minimum {
          minimum := a.value;
        }
      }
    }
    assert col[..|os|] == col;
  }

  /** The largest value present, or `int.MinValue` when every value is missing. */
  method CalculateMax(os: seq<InfoObject>, attributeID: int) returns (maximum: Int32)
    requires HasInterval(os, attributeID)
    ensures maximum == CodeMax(IntervalColumn(os, attributeID))
  {
    ghost var col := IntervalColumn(os, attributeID);
    maximum := IntMinValue;
    for i := 0 to |os|
      invariant maximum == CodeMax(col[..i])
    {
      var a := os[i].interval[attributeID];
      CodeMaxStep(col, i);
      if a.value != MissingCode {
        if a.value > maximum {
          maximum := a.value;
        }
      }
    }
    assert col[..|os|] == col;
  }

  /** The statistics record of an interval attribute. The name is read from the
      first record and looked up in the translator table, and the distribution
      must have a value (its smallest count is taken), so one record must hold a
      value that is not missing. The range is the exact difference max - min;
      the C# constructor's wrapped 32-bit range is Measures.MakeIntervalAsWritten
      (see IntervalRangeOverflowReachable). */
  method CalculateStats(os: seq<InfoObject>, aID: int, intervalTranslators: map<string, string>)
    returns (m: IntervalDataDimensionMeasures)
    requires |os| > 0 && HasInterval(os, aID)
    requires os[0].interval[aID].name in intervalTranslators
    requires Observed(IntervalColumn(os, aID), MissingCode) != []
    ensures m.name == os[0].interval[aID].name
    ensures m.intervalTranslator == intervalTranslators[m.name]
    ensures m.distribution.Valid()
    ensures m.distribution.keys == Distinct(Observed(IntervalColumn(os, aID), MissingCode))
    ensures forall k :: k in m.distribution.entries ==>
              m.distribution.entries[k] == Occurrences(IntervalColumn(os, aID), k) >= 1
    ensures Sum(m.distribution.Values()) == |Observed(IntervalColumn(os, aID), MissingCode)|
    ensures m.summary == Summarize(m.distribution)
    ensures m.summary.zBoundDistMin == 0 && m.summary.zBoundDistMax == m.summary.distMax
    ensures m.min == CodeMin(IntervalColumn(os, aID)) && m.max == CodeMax(IntervalColumn(os, aID))
    ensures m.min in m.distribution.entries && m.max in m.distribution.entries
    ensures m.min <= m.max && m.range == m.max - m.min
  {
    var distribution := CalculateDistribution(os, aID);
    var min := CalculateMin(os, aID);
    var max := CalculateMax(os, aID);
    CodeMinBelowMax(IntervalColumn(os, aID));
    m := MakeInterval(distribution, os[0].interval[aID].name, intervalTranslators[os[0].interval[aID].name], min, max);
  }

  /** A record holding -2000000000 and one holding 2000000000 meet every
      requirement of CalculateStats, and its bounds are those two values. The
      record the C# `IntervalDataDimensionMeasures` constructor builds from them
      has a wrapped, negative range, so normalising the maximum gives a negative
      value instead of 1, whatever distribution it is given. */
  lemma IntervalRangeOverflowReachable(distribution: Dict<Int32, int>, translator: string)
    requires distribution.Valid() && |distribution.keys| > 0
    ensures var os := [InfoObject(map[], map[], map[0 := Attribute("x", -2000000000)], map[]),
                       InfoObject(map[], map[], map[0 := Attribute("x", 2000000000)], map[])];
            && HasInterval(os, 0)
            && Observed(IntervalColumn(os, 0), MissingCode) != []
            && CodeMin(IntervalColumn(os, 0)) == -2000000000
            && CodeMax(IntervalColumn(os, 0)) == 2000000000
            && var m := MakeIntervalAsWritten(distribution, "x", translator,
                                              CodeMin(IntervalColumn(os, 0)), CodeMax(IntervalColumn(os, 0)));
               m.NormalizeToRange(m.max).Finite? && m.NormalizeToRange(m.max).val < 0.0
  {
    var os := [InfoObject(map[], map[], map[0 := Attribute("x", -2000000000)], map[]),
               InfoObject(map[], map[], map[0 := Attribute("x", 2000000000)], map[])];
    var col := IntervalColumn(os, 0);
    assert col == [-2000000000, 2000000000];
    assert DropLast(col) == [-2000000000] && Last(col) == 2000000000;
    assert DropLast(DropLast(col)) == [];
    IntervalRangeOverflows(distribution, "x", translator);
  }
}
