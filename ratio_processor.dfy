/** `AttributeProcessor.Ratio`: statistics of a ratio-scaled attribute, whose
    values are single-precision numbers and whose missing values are NaN. */
module RatioProcessor {
  import opened Sequences
  import opened Records
  import opened Extrema
  import opened Measures

  /** The smallest value present, or `float.MaxValue` when every value is NaN. */
  method CalculateMin(os: seq<InfoObject>, attributeID: int) returns (minimum: Single)
    requires HasRatio(os, attributeID)
    ensures minimum == RatioMin(RatioColumn(os, attributeID))
  {
    ghost var col := RatioColumn(os, attributeID);
    minimum := FloatMaxValue;
    for i := 0 to |os|
      invariant minimum == RatioMin(col[..i])
    {
      var a := os[i].ratio[attributeID];
      RatioMinStep(col, i);
      if a.value.Num? {
        if a.value.val < minimum {
          minimum := a.value.val;
        }
      }
    }
    assert col[..|os|] == col;
  }

  /** The minimum, raised to 0 when it is positive; Extrema.ZeroBoundMin is its specification. */
  method CalculateZeroBoundMin(os: seq<InfoObject>, attributeID: int) returns (min: Single)
    requires HasRatio(os, attributeID)
    ensures min == ZeroBoundMin(RatioColumn(os, attributeID))
    ensures min <= 0.0 && min <= RatioMin(RatioColumn(os, attributeID))
  {
    min := CalculateMin(os, attributeID);
    min := if min > 0.0 then 0.0 else min;
  }

  /** The largest value present, or `float.MinValue` when every value is NaN. */
  method CalculateMax(os: seq<InfoObject>, attributeID: int) returns (maximum: Single)
    requires HasRatio(os, attributeID)
    ensures maximum == RatioMax(RatioColumn(os, attributeID))
  {
    ghost var col := RatioColumn(os, attributeID);
    maximum := FloatMinValue;
    for i := 0 to |os|
      invariant maximum == RatioMax(col[..i])
    {
      var a := os[i].ratio[attributeID];
      RatioMaxStep(col, i);
      if a.value.Num? {
        if a.value.val > maximum {
          maximum := a.value.val;
        }
      }
    }
    assert col[..|os|] == col;
  }

  /** The maximum, lowered to 0 when it is negative; Extrema.ZeroBoundMax is its specification. */
  method CalculateZeroBoundMax(os: seq<InfoObject>, attributeID: int) returns (max: Single)
    requires HasRatio(os, attributeID)
    ensures max == ZeroBoundMax(RatioColumn(os, attributeID))
    ensures 0.0 <= max && RatioMax(RatioColumn(os, attributeID)) <= max
  {
    max := CalculateMax(os, attributeID);
    max := if max < 0.0 then 0.0 else max;
  }

  /** The distance from minimum to maximum; it is non-negative once one value is
      present (with none, the sentinels make it negative, see AllMissingRatio). */
  method CalculateRange(os: seq<InfoObject>, aID: int) returns (range: real)
    requires HasRatio(os, aID)
    ensures range == RatioMax(RatioColumn(os, aID)) - RatioMin(RatioColumn(os, aID))
    ensures Observed(RatioColumn(os, aID), NaN) != [] ==> 0.0 <= range
  {
    var maximum: real := CalculateMax(os, aID);
    var minimum: real := CalculateMin(os, aID);
    ZeroBoundsEncloseZero(RatioColumn(os, aID));
    range := maximum - minimum;
  }

  /** The distance between the zero-bound extrema: never negative, and at least
      the plain range once one value is present. */
  method CalculateZeroBoundRange(os: seq<InfoObject>, aID: int) returns (range: real)
    requires HasRatio(os, aID)
    ensures range == ZeroBoundMax(RatioColumn(os, aID)) - ZeroBoundMin(RatioColumn(os, aID))
    ensures 0.0 <= range
    ensures Observed(RatioColumn(os, aID), NaN) != [] ==>
              RatioMax(RatioColumn(os, aID)) - RatioMin(RatioColumn(os, aID)) <= range
  {
    var maximum: real := CalculateZeroBoundMax(os, aID);
    var minimum: real := CalculateZeroBoundMin(os, aID);
    ZeroBoundsEncloseZero(RatioColumn(os, aID));
    range := maximum - minimum;
  }

  /** The statistics record of a ratio attribute; the name is read from the first record. */
  method CalculateStats(os: seq<InfoObject>, aID: int) returns (m: RatioDataDimensionMeasures)
    requires |os| > 0 && HasRatio(os, aID)
    ensures m.name == os[0].ratio[aID].name
    ensures m.min == RatioMin(RatioColumn(os, aID)) && m.max == RatioMax(RatioColumn(os, aID))
    ensures m.zeroBoundMin == ZeroBoundMin(RatioColumn(os, aID)) && m.zeroBoundMax == ZeroBoundMax(RatioColumn(os, aID))
    ensures m.range == m.max - m.min && m.zeroBoundRange == m.zeroBoundMax - m.zeroBoundMin
    ensures m.zeroBoundMin <= 0.0 <= m.zeroBoundMax && m.zeroBoundMin <= m.min && m.max <= m.zeroBoundMax
  {
    var range := CalculateRange(os, aID);
    var zeroBoundRange := CalculateZeroBoundRange(os, aID);
    var min := CalculateMin(os, aID);
    var zeroBoundMin := CalculateZeroBoundMin(os, aID);
    var max := CalculateMax(os, aID);
    var zeroBoundMax := CalculateZeroBoundMax(os, aID);
    m := MakeRatio(os[0].ratio[aID].name, range, zeroBoundRange, min, zeroBoundMin, max, zeroBoundMax);
  }
}
