/** The extrema scans of the statistics engine, as functions of a column: each
    starts from the sentinel extreme of its type, skips missing values and keeps
    the better of what it has and what it sees. */
module Extrema {
  import opened Sequences
  import opened Records

  /** The minimum scan over ordinal or interval codes, starting at int.MaxValue. */
  function CodeMin(codes: seq<Int32>): (r: Int32)
    ensures forall i :: 0 <= i < |codes| && codes[i] != MissingCode ==> r <= codes[i]
    ensures Observed(codes, MissingCode) != [] ==> r in Observed(codes, MissingCode)
    ensures Observed(codes, MissingCode) == [] ==> r == IntMaxValue
  {
    if codes == [] then IntMaxValue
    else
      Split(codes);
      var m := CodeMin(DropLast(codes));
      var x := Last(codes);
      if x != MissingCode && x < m then x else m
  }

  /** The maximum scan over ordinal or interval codes, starting at int.MinValue. */
  function CodeMax(codes: seq<Int32>): (r: Int32)
    ensures forall i :: 0 <= i < |codes| && codes[i] != MissingCode ==> codes[i] <= r
    ensures Observed(codes, MissingCode) != [] ==> r in Observed(codes, MissingCode)
    ensures Observed(codes, MissingCode) == [] ==> r == IntMinValue
  {
    if codes == [] then IntMinValue
    else
      Split(codes);
      var m := CodeMax(DropLast(codes));
      var x := Last(codes);
      if x != MissingCode && x > m then x else m
  }

  /** The minimum scan over ratio values, starting at float.MaxValue and skipping NaN. */
  function RatioMin(values: seq<RatioValue>): (r: Single)
    ensures forall i :: 0 <= i < |values| && values[i].Num? ==> r <= values[i].val
    ensures Observed(values, NaN) != [] ==> Num(r) in Observed(values, NaN)
    ensures Observed(values, NaN) == [] ==> r == FloatMaxValue
  {
    if values == [] then FloatMaxValue
    else
      Split(values);
      var m := RatioMin(DropLast(values));
      var x := Last(values);
      if x.Num? && x.val < m then x.val else m
  }

  /** The maximum scan over ratio values, starting at float.MinValue and skipping NaN. */
  function RatioMax(values: seq<RatioValue>): (r: Single)
    ensures forall i :: 0 <= i < |values| && values[i].Num? ==> values[i].val <= r
    ensures Observed(values, NaN) != [] ==> Num(r) in Observed(values, NaN)
    ensures Observed(values, NaN) == [] ==> r == FloatMinValue
  {
    if values == [] then FloatMinValue
    else
      Split(values);
      var m := RatioMax(DropLast(values));
      var x := Last(values);
      if x.Num? && x.val > m then x.val else m
  }

  // One more element of the column: how each scan advances.

  lemma CodeMinStep(s: seq<Int32>, i: nat)
    requires i < |s|
    ensures CodeMin(s[..i + 1]) == if s[i] != MissingCode && s[i] < CodeMin(s[..i]) then s[i] else CodeMin(s[..i])
  {
    Prefix(s, i);
    Snoc(s[..i], s[i]);
  }

  lemma CodeMaxStep(s: seq<Int32>, i: nat)
    requires i < |s|
    ensures CodeMax(s[..i + 1]) == if s[i] != MissingCode && s[i] > CodeMax(s[..i]) then s[i] else CodeMax(s[..i])
  {
    Prefix(s, i);
    Snoc(s[..i], s[i]);
  }

  lemma RatioMinStep(s: seq<RatioValue>, i: nat)
    requires i < |s|
    ensures RatioMin(s[..i + 1]) == if s[i].Num? && s[i].val < RatioMin(s[..i]) then s[i].val else RatioMin(s[..i])
  {
    Prefix(s, i);
    Snoc(s[..i], s[i]);
  }

  lemma RatioMaxStep(s: seq<RatioValue>, i: nat)
    requires i < |s|
    ensures RatioMax(s[..i + 1]) == if s[i].Num? && s[i].val > RatioMax(s[..i]) then s[i].val else RatioMax(s[..i])
  {
    Prefix(s, i);
    Snoc(s[..i], s[i]);
  }

  /** The minimum clamped so that it is never above zero: the specification of
      RatioProcessor.CalculateZeroBoundMin, whose properties ZeroBoundsEncloseZero states. */
  function ZeroBoundMin(values: seq<RatioValue>): real {
    var min := RatioMin(values);
    if min > 0.0 then 0.0 else min
  }

  /** The maximum clamped so that it is never below zero: the specification of
      RatioProcessor.CalculateZeroBoundMax, whose properties ZeroBoundsEncloseZero states. */
  function ZeroBoundMax(values: seq<RatioValue>): real {
    var max := RatioMax(values);
    if max < 0.0 then 0.0 else max
  }

  /** The zero-bound interval contains zero and the plain extrema, and it widens
      the plain interval only by moving an end to zero. Once one value is
      observed, the plain extrema are ordered and both ranges are non-negative. */
  lemma ZeroBoundsEncloseZero(values: seq<RatioValue>)
    ensures ZeroBoundMin(values) <= 0.0 <= ZeroBoundMax(values)
    ensures ZeroBoundMin(values) <= RatioMin(values) && RatioMax(values) <= ZeroBoundMax(values)
    ensures ZeroBoundMin(values) == 0.0 || ZeroBoundMin(values) == RatioMin(values)
    ensures ZeroBoundMax(values) == 0.0 || ZeroBoundMax(values) == RatioMax(values)
    ensures Observed(values, NaN) != [] ==>
              RatioMin(values) <= RatioMax(values)
              && 0.0 <= RatioMax(values) - RatioMin(values) <= ZeroBoundMax(values) - ZeroBoundMin(values)
  {
    if Observed(values, NaN) != [] {
      var x := RatioMin(values);
      assert Num(x) in values;
      var i :| 0 <= i < |values| && values[i] == Num(x);
      assert x <= RatioMax(values);
    }
  }

  /** With every value missing, the extrema stay at the sentinels and the range is negative. */
  lemma AllMissingRatio(values: seq<RatioValue>)
    requires forall i :: 0 <= i < |values| ==> values[i] == NaN
    ensures RatioMin(values) == FloatMaxValue && RatioMax(values) == FloatMinValue
    ensures RatioMax(values) - RatioMin(values) < 0.0
    ensures ZeroBoundMin(values) == 0.0 && ZeroBoundMax(values) == 0.0
  {
    forall x | x in values ensures x == NaN {
      var i :| 0 <= i < |values| && values[i] == x;
    }
  }

  /** Missing codes never affect the scans: scanning only the observed codes
      gives the same extrema. */
  lemma {:induction false} CodeExtremaIgnoreMissing(codes: seq<Int32>)
    ensures CodeMin(Observed(codes, MissingCode)) == CodeMin(codes)
    ensures CodeMax(Observed(codes, MissingCode)) == CodeMax(codes)
  {
    if codes != [] {
      var init, x := DropLast(codes), Last(codes);
      CodeExtremaIgnoreMissing(init);
      Split(codes);
      ObservedSnoc(init, x, MissingCode);
      if x != MissingCode {
        Snoc(Observed(init, MissingCode), x);
      }
    }
  }

  /** NaN entries never affect the scans: scanning only the numbers gives the
      same extrema. */
  lemma {:induction false} RatioExtremaIgnoreNaN(values: seq<RatioValue>)
    ensures RatioMin(Observed(values, NaN)) == RatioMin(values)
    ensures RatioMax(Observed(values, NaN)) == RatioMax(values)
  {
    if values != [] {
      var init, x := DropLast(values), Last(values);
      RatioExtremaIgnoreNaN(init);
      Split(values);
      ObservedSnoc(init, x, NaN);
      if x != NaN {
        Snoc(Observed(init, NaN), x);
      }
    }
  }

  /** A code scan that sees at least one value brackets it: min <= max, and both
      are distinct observed values. */
  lemma CodeMinBelowMax(codes: seq<Int32>)
    requires Observed(codes, MissingCode) != []
    ensures CodeMin(codes) <= CodeMax(codes)
    ensures CodeMin(codes) != MissingCode && CodeMax(codes) != MissingCode
    ensures CodeMin(codes) in Distinct(Observed(codes, MissingCode))
    ensures CodeMax(codes) in Distinct(Observed(codes, MissingCode))
  {
    var x := CodeMin(codes);
    assert x in codes;
    var i :| 0 <= i < |codes| && codes[i] == x;
  }
}
