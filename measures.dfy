/** The per-attribute statistics records (`*DataDimensionMeasures`), one per level
    of measurement. Each is built once from a distribution or from computed
    extrema and is never changed afterwards, so each is a datatype here. */
module Measures {
  import opened Sequences
  import opened Dictionaries
  import opened Records

  /** The result of a single-precision division `a / b`, including the IEEE
      outcomes of dividing by zero. */
  datatype Quotient = Finite(val: real) | PositiveInfinity | NegativeInfinity | NotANumber

  function Divide(a: real, b: real): (q: Quotient)
    ensures q.Finite? <==> b != 0.0
    ensures q.Finite? ==> q.val * b == a
    ensures b == 0.0 ==> (q == PositiveInfinity <==> 0.0 < a) && (q == NegativeInfinity <==> a < 0.0)
  {
    if b != 0.0 then Finite(a / b)
    else if a > 0.0 then PositiveInfinity
    else if a < 0.0 then NegativeInfinity
    else NotANumber
  }

  /** The summary fields every distribution-holding record derives from its
      distribution: least and greatest count, their zero-bound variants and ranges. */
  datatype DistributionSummary = DistributionSummary(
    distMin: int, distMax: int,
    zBoundDistMin: int, zBoundDistMax: int,
    distRange: int, zBoundDistRange: int)

  /** The summary fields of a non-empty distribution (`Values.Min()` throws on an empty one). */
  function Summarize<K(==, !new)>(distribution: Dict<K, int>): (s: DistributionSummary)
    requires distribution.Valid() && |distribution.keys| > 0
    ensures s.distMin in distribution.Values() && s.distMax in distribution.Values()
    ensures forall k :: k in distribution.entries ==> s.distMin <= distribution.entries[k] <= s.distMax
    ensures s.distMin <= s.distMax
    ensures s.zBoundDistMin == 0 && s.zBoundDistMax == s.distMax
    ensures s.distRange == s.distMax - s.distMin && s.zBoundDistRange == s.distMax
  {
    var values := distribution.Values();
    var lo := Minimum(values);
    var hi := Maximum(values);
    var zMax := if hi == 0 then 0 else hi;
    assert forall k :: k in distribution.entries ==> distribution.entries[k] in values by {
      forall k | k in distribution.entries ensures distribution.entries[k] in values {
        var i :| 0 <= i < |distribution.keys| && distribution.keys[i] == k;
        assert values[i] == distribution.entries[k];
      }
    }
    DistributionSummary(lo, hi, 0, zMax, hi - lo, zMax - 0)
  }

  /** The IDs 0, 1, ..., n-1 in order. */
  function Ids(n: nat): (ids: seq<int>)
    ensures |ids| == n && forall i :: 0 <= i < n ==> ids[i] == i
  {
    seq(n, i => i)
  }

  // ---------------------------------------------------------------------------
  // Nominal

  datatype NominalDataDimensionMeasures = NominalDataDimensionMeasures(
    name: string,
    distribution: Dict<string, int>,
    uniqueValues: seq<string>,
    valueIDs: Dict<string, int>,
    idValues: Dict<int, string>,
    summary: DistributionSummary,
    min: int, max: int, range: int,
    numberOfUniqueValues: int)
  {
    /** What construction establishes: the unique values are the distribution's
        keys in enumeration order, value i gets ID i, and the ID bounds span them. */
    ghost predicate Valid() {
      && distribution.Valid() && valueIDs.Valid() && idValues.Valid()
      && |distribution.keys| > 0
      && uniqueValues == distribution.keys
      && numberOfUniqueValues == |uniqueValues|
      && valueIDs.keys == uniqueValues
      && idValues.keys == Ids(|uniqueValues|)
      && (forall i :: 0 <= i < |uniqueValues| ==>
            valueIDs.entries[uniqueValues[i]] == i && i in idValues.entries && idValues.entries[i] == uniqueValues[i])
      && summary == Summarize(distribution)
      && min == 0 && max == numberOfUniqueValues - 1 && range == numberOfUniqueValues - 1
    }

    /** The count of each unique value, in ID order. */
    method GetDistributionValues() returns (vals: seq<int>)
      requires forall i :: 0 <= i < |uniqueValues| ==> uniqueValues[i] in distribution.entries
      ensures |vals| == |uniqueValues|
      ensures forall i :: 0 <= i < |vals| ==> vals[i] == distribution.entries[uniqueValues[i]]
      ensures Valid() ==> vals == distribution.Values()
      ensures Valid() ==> forall id :: 0 <= id < |vals| ==> vals[id] == distribution.entries[idValues.entries[id]]
    {
      var a := new int[|uniqueValues|];
      for i := 0 to |uniqueValues|
        invariant forall j :: 0 <= j < i ==> a[j] == distribution.entries[uniqueValues[j]]
      {
        a[i] := distribution.entries[uniqueValues[i]];
      }
      vals := a[..];
    }
  }

  /** The nominal constructor: summarises the distribution and numbers its keys
      0, 1, ... in enumeration order. */
  method MakeNominal(distribution: Dict<string, int>, variableName: string)
    returns (m: NominalDataDimensionMeasures)
    requires distribution.Valid() && |distribution.keys| > 0
    ensures m.Valid()
    ensures m.name == variableName && m.distribution == distribution
    ensures m.numberOfUniqueValues == |distribution.keys| && m.min == 0
    ensures m.max == m.range == |distribution.keys| - 1
  {
    var n := |distribution.keys|;
    var uniqueValues, valueIDs, idValues := NumberKeys(distribution.keys);
    m := NominalDataDimensionMeasures(
      variableName, distribution, uniqueValues, valueIDs, idValues,
      Summarize(distribution), 0, n - 1, n - 1, n);
    NumberedAll(m);
  }

  /** The numbering loop of the nominal constructor: key i of the distribution
      gets ID i in both directions and is stored at index i of the unique values. */
  method NumberKeys(keys: seq<string>) returns (uniqueValues: seq<string>, valueIDs: Dict<string, int>, idValues: Dict<int, string>)
    requires NoDuplicates(keys)
    ensures uniqueValues == keys
    ensures NumberedPrefix(keys, |keys|, valueIDs, idValues)
  {
    var n := |keys|;
    var values := new string[n];
    valueIDs, idValues := Empty(), Empty();
    var counter := 0;
    while counter < n
      invariant 0 <= counter <= n
      invariant NumberedPrefix(keys, counter, valueIDs, idValues)
      invariant forall i :: 0 <= i < counter ==> values[i] == keys[i]
    {
      var key := keys[counter];
      NumberNext(keys, counter, valueIDs, idValues);
      valueIDs := Add(valueIDs, key, counter);
      idValues := Add(idValues, counter, key);
      values[counter] := key;
      counter := counter + 1;
    }
    uniqueValues := values[..];
  }

  lemma NumberedAll(m: NominalDataDimensionMeasures)
    requires m.distribution.Valid() && |m.distribution.keys| > 0
    requires NumberedPrefix(m.distribution.keys, |m.distribution.keys|, m.valueIDs, m.idValues)
    requires m.uniqueValues == m.distribution.keys && m.summary == Summarize(m.distribution)
    requires m.numberOfUniqueValues == |m.uniqueValues|
    requires m.min == 0 && m.max == m.range == m.numberOfUniqueValues - 1
    ensures m.Valid()
  {
    assert m.distribution.keys[..|m.distribution.keys|] == m.distribution.keys;
  }

  /** The first `count` keys are numbered 0 .. count-1 in both directions. */
  ghost predicate NumberedPrefix(keys: seq<string>, count: nat, valueIDs: Dict<string, int>, idValues: Dict<int, string>)
    requires count <= |keys|
  {
    && valueIDs.Valid() && idValues.Valid()
    && valueIDs.keys == keys[..count]
    && idValues.keys == Ids(count)
    && forall i :: 0 <= i < count ==>
         valueIDs.entries[keys[i]] == i && i in idValues.entries && idValues.entries[i] == keys[i]
  }

  /** One step of the numbering loop: the next key is new, and numbering it extends the prefix. */
  lemma NumberNext(keys: seq<string>, count: nat, valueIDs: Dict<string, int>, idValues: Dict<int, string>)
    requires count < |keys| && NoDuplicates(keys)
    requires NumberedPrefix(keys, count, valueIDs, idValues)
    ensures keys[count] !in valueIDs.entries && count !in idValues.entries
    ensures NumberedPrefix(keys, count + 1, Add(valueIDs, keys[count], count), Add(idValues, count, keys[count]))
  {
    var key := keys[count];
    assert key !in keys[..count] by {
      forall i | 0 <= i < count ensures keys[..count][i] != key {
        assert keys[..count][i] == keys[i];
      }
    }
    assert count !in Ids(count);
    var v', d' := Add(valueIDs, key, count), Add(idValues, count, key);
    assert keys[..count + 1] == keys[..count] + [key];
    assert Ids(count + 1) == Ids(count) + [count];
    forall i | 0 <= i < count + 1
      ensures v'.entries[keys[i]] == i && i in d'.entries && d'.entries[i] == keys[i]
    {
      if i < count {
        assert keys[i] != key;
      }
    }
  }

  // ---------------------------------------------------------------------------
  // Ordinal

  datatype OrdinalDataDimensionMeasures = OrdinalDataDimensionMeasures(
    name: string,
    distribution: Dict<Int32, int>,
    uniqueValues: seq<string>,
    uniqueIDs: seq<Int32>,
    orderedValueIDs: Dict<Int32, string>,
    orderedIDValues: Dict<string, Int32>,
    summary: DistributionSummary,
    min: int, max: int, range: int,
    numberOfUniqueValues: int)
  {
    /** What construction establishes: codes and labels are parallel, in the
        ordering dictionary's order, and label -> code inverts code -> label. */
    ghost predicate Valid() {
      && orderedValueIDs.Valid() && orderedIDValues.Valid() && distribution.Valid()
      && |orderedValueIDs.keys| > 0 && |distribution.keys| > 0
      && uniqueIDs == orderedValueIDs.keys
      && uniqueValues == orderedValueIDs.Values()
      && orderedIDValues.keys == uniqueValues
      && (forall i :: 0 <= i < |uniqueIDs| ==> orderedIDValues.entries[uniqueValues[i]] == uniqueIDs[i])
      && summary == Summarize(distribution)
      && numberOfUniqueValues == |uniqueValues|
      && min == 0 && max == Maximum(uniqueIDs) && range == numberOfUniqueValues
    }

    /** `value / range` in single precision. */
    function NormalizeToRange(value: int): (q: Quotient)
      ensures range != 0 ==> q.Finite? && q.val * range as real == value as real
      ensures range == 0 ==> !q.Finite?
    {
      Divide(value as real, range as real)
    }

    /** The count of each category, in the ordering dictionary's order. */
    method GetDistributionValues() returns (vals: seq<int>)
      requires |uniqueIDs| >= |uniqueValues|
      requires forall i :: 0 <= i < |uniqueValues| ==> uniqueIDs[i] in distribution.entries
      ensures |vals| == |uniqueValues|
      ensures forall i :: 0 <= i < |vals| ==> vals[i] == distribution.entries[uniqueIDs[i]]
    {
      var a := new int[|uniqueValues|];
      for i := 0 to |uniqueValues|
        invariant forall j :: 0 <= j < i ==> a[j] == distribution.entries[uniqueIDs[j]]
      {
        a[i] := distribution.entries[uniqueIDs[i]];
      }
      vals := a[..];
    }
  }

  /** The ordinal constructor: lists the ordering dictionary's codes and labels
      in its order, inverts it label -> code and summarises the distribution. */
  method MakeOrdinal(orderedValueIDs: Dict<Int32, string>, distribution: Dict<Int32, int>, variableName: string)
    returns (m: OrdinalDataDimensionMeasures)
    requires orderedValueIDs.Valid() && |orderedValueIDs.keys| > 0
    requires NoDuplicates(orderedValueIDs.Values())
    requires distribution.Valid() && |distribution.keys| > 0
    ensures m.Valid()
    ensures m.name == variableName && m.distribution == distribution && m.orderedValueIDs == orderedValueIDs
    ensures m.min == 0 && m.max in orderedValueIDs.entries
    ensures forall k :: k in orderedValueIDs.entries ==> k <= m.max
    ensures m.range == m.numberOfUniqueValues == |orderedValueIDs.keys|
  {
    var uniqueValues, uniqueIDs := ListCategories(orderedValueIDs);
    var orderedIDValues := InvertOrdering(orderedValueIDs);
    var n := |uniqueValues|;
    m := OrdinalDataDimensionMeasures(
      variableName, distribution, uniqueValues, uniqueIDs, orderedValueIDs, orderedIDValues,
      Summarize(distribution), 0, Maximum(orderedValueIDs.keys), n, n);
  }

  /** The first loop of the ordinal constructor: codes and their labels as
      parallel sequences, in the ordering dictionary's order. */
  method ListCategories(orderedValueIDs: Dict<Int32, string>) returns (uniqueValues: seq<string>, uniqueIDs: seq<Int32>)
    requires orderedValueIDs.Valid()
    ensures uniqueIDs == orderedValueIDs.keys
    ensures uniqueValues == orderedValueIDs.Values()
  {
    var keys := orderedValueIDs.keys;
    var n := |keys|;
    var values := new string[n];
    var ids := new Int32[n];
    var counter := 0;
    while counter < n
      invariant 0 <= counter <= n
      invariant forall i :: 0 <= i < counter ==> values[i] == orderedValueIDs.entries[keys[i]] && ids[i] == keys[i]
    {
      var key := keys[counter];
      values[counter] := orderedValueIDs.entries[key];
      ids[counter] := key;
      counter := counter + 1;
    }
    uniqueValues, uniqueIDs := values[..], ids[..];
  }

  /** The second loop of the ordinal constructor: label -> code, added in the
      ordering dictionary's order (`Dictionary.Add` throws on a repeated label,
      hence distinct labels are required). */
  method InvertOrdering(orderedValueIDs: Dict<Int32, string>) returns (orderedIDValues: Dict<string, Int32>)
    requires orderedValueIDs.Valid() && NoDuplicates(orderedValueIDs.Values())
    ensures orderedIDValues.Valid()
    ensures orderedIDValues.keys == orderedValueIDs.Values()
    ensures forall i :: 0 <= i < |orderedValueIDs.keys| ==>
              orderedIDValues.entries[orderedValueIDs.Values()[i]] == orderedValueIDs.keys[i]
  {
    var keys, labels := orderedValueIDs.keys, orderedValueIDs.Values();
    orderedIDValues := Empty();
    for j := 0 to |keys|
      invariant orderedIDValues.Valid()
      invariant orderedIDValues.keys == labels[..j]
      invariant forall i :: 0 <= i < j ==> orderedIDValues.entries[labels[i]] == keys[i]
    {
      var name := orderedValueIDs.entries[keys[j]];
      assert name == labels[j];
      assert name !in labels[..j] by {
        forall i | 0 <= i < j ensures labels[..j][i] != name {
          assert labels[..j][i] == labels[i];
        }
      }
      orderedIDValues := Add(orderedIDValues, name, keys[j]);
      assert labels[..j + 1] == labels[..j] + [name];
    }
    assert labels[..|keys|] == labels;
  }

  /** In a constructed ordinal record, label -> code and code -> label are mutual inverses. */
  lemma OrdinalOrderingInverse(m: OrdinalDataDimensionMeasures)
    requires m.Valid()
    ensures forall k :: k in m.orderedValueIDs.entries ==>
              m.orderedValueIDs.entries[k] in m.orderedIDValues.entries
              && m.orderedIDValues.entries[m.orderedValueIDs.entries[k]] == k
    ensures forall text :: text in m.orderedIDValues.entries ==>
              m.orderedIDValues.entries[text] in m.orderedValueIDs.entries
              && m.orderedValueIDs.entries[m.orderedIDValues.entries[text]] == text
  {
    var keys, labels := m.orderedValueIDs.keys, m.orderedValueIDs.Values();
    forall k | k in m.orderedValueIDs.entries
      ensures m.orderedValueIDs.entries[k] in m.orderedIDValues.entries
      ensures m.orderedIDValues.entries[m.orderedValueIDs.entries[k]] == k
    {
      var i :| 0 <= i < |keys| && keys[i] == k;
      assert labels[i] == m.orderedValueIDs.entries[k];
    }
    forall text | text in m.orderedIDValues.entries
      ensures m.orderedIDValues.entries[text] in m.orderedValueIDs.entries
      ensures m.orderedValueIDs.entries[m.orderedIDValues.entries[text]] == text
    {
      var i :| 0 <= i < |labels| && labels[i] == text;
      assert keys[i] in keys;
    }
  }

  // ---------------------------------------------------------------------------
  // Interval

  datatype IntervalDataDimensionMeasures = IntervalDataDimensionMeasures(
    name: string,
    distribution: Dict<Int32, int>,
    intervalTranslator: string,
    summary: DistributionSummary,
    min: int, max: int, range: int)
  {
    /** `(value - min) / range` in single precision. */
    function NormalizeToRange(value: int): (q: Quotient)
      ensures range != 0 ==> q.Finite? && q.val * range as real == (value - min) as real
      ensures range == 0 ==> !q.Finite?
    {
      Divide((value - min) as real, range as real)
    }
  }

  /** The interval constructor: summarises the distribution and keeps the given
      bounds. The range is the exact difference of the bounds (see
      IntervalRangeAsWritten for the 32-bit subtraction the C# constructor performs). */
  function MakeInterval(distribution: Dict<Int32, int>, variableName: string, intervalTranslator: string, min: Int32, max: Int32)
    : (m: IntervalDataDimensionMeasures)
    requires distribution.Valid() && |distribution.keys| > 0
    ensures m.name == variableName && m.distribution == distribution && m.intervalTranslator == intervalTranslator
    ensures m.summary == Summarize(distribution)
    ensures m.summary.distMin <= m.summary.distMax && m.summary.zBoundDistMin == 0
    ensures m.summary.zBoundDistMax == m.summary.distMax
    ensures m.summary.distRange == m.summary.distMax - m.summary.distMin && m.summary.zBoundDistRange == m.summary.distMax
    ensures m.min == min && m.max == max && m.range == max - min
  {
    IntervalDataDimensionMeasures(variableName, distribution, intervalTranslator, Summarize(distribution), min, max, max - min)
  }

  /** `range = max - min` exactly as the C# constructor computes it, in unchecked 32-bit `int`. */
  function IntervalRangeAsWritten(min: Int32, max: Int32): (r: Int32)
    ensures IntMinValue <= max - min <= IntMaxValue ==> r == max - min
  {
    Wrap32(max - min)
  }

  /** The C# `IntervalDataDimensionMeasures` constructor as written, with the 32-bit range.
      It builds the same record as MakeInterval whenever `max - min` fits in an `int`. */
  function MakeIntervalAsWritten(distribution: Dict<Int32, int>, variableName: string, intervalTranslator: string, min: Int32, max: Int32)
    : (m: IntervalDataDimensionMeasures)
    requires distribution.Valid() && |distribution.keys| > 0
    ensures m.name == variableName && m.distribution == distribution && m.intervalTranslator == intervalTranslator
    ensures m.summary == Summarize(distribution)
    ensures m.min == min && m.max == max && m.range == IntervalRangeAsWritten(min, max)
    ensures IntMinValue <= max - min <= IntMaxValue ==>
              m == MakeInterval(distribution, variableName, intervalTranslator, min, max)
  {
    IntervalDataDimensionMeasures(variableName, distribution, intervalTranslator, Summarize(distribution),
                                  min, max, IntervalRangeAsWritten(min, max))
  }

  /** Bounds more than `int.MaxValue` apart make the 32-bit range wrap to a
      negative number, so the record the C# constructor builds, whatever its
      distribution, maps `max` to a negative value instead of 1. */
  lemma IntervalRangeOverflows(distribution: Dict<Int32, int>, variableName: string, intervalTranslator: string)
    requires distribution.Valid() && |distribution.keys| > 0
    ensures IntervalRangeAsWritten(-2000000000, 2000000000) == -294967296
    ensures var m := MakeIntervalAsWritten(distribution, variableName, intervalTranslator, -2000000000, 2000000000);
            m.NormalizeToRange(m.max).Finite? && m.NormalizeToRange(m.max).val < 0.0
  {
  }

  /** With the exact range, the bounds normalise to 0 and 1 and values between
      them to [0, 1]. */
  lemma IntervalNormalizeBounds(m: IntervalDataDimensionMeasures, value: int)
    requires m.range == m.max - m.min && m.range != 0
    ensures m.NormalizeToRange(m.min) == Finite(0.0)
    ensures m.NormalizeToRange(m.max) == Finite(1.0)
    ensures m.min <= value <= m.max ==>
              m.NormalizeToRange(value).Finite? && 0.0 <= m.NormalizeToRange(value).val <= 1.0
  {
    if m.min <= value <= m.max {
      var num, den := (value - m.min) as real, m.range as real;
      assert 0.0 <= num <= den;
      assert num / den <= 1.0 by {
        assert num / den * den == num;
      }
    }
  }

  // ---------------------------------------------------------------------------
  // Ratio

  datatype RatioDataDimensionMeasures = RatioDataDimensionMeasures(
    name: string,
    range: real, zeroBoundRange: real,
    min: real, zeroBoundMin: real,
    max: real, zeroBoundMax: real)
  {
    /** `(value - min) / range` in single precision. */
    function NormalizeToRange(value: real): (q: Quotient)
      ensures range != 0.0 ==> q.Finite? && q.val * range == value - min
      ensures range == 0.0 ==> !q.Finite?
    {
      Divide(value - min, range)
    }

    /** `(value - zeroBoundMin) / zeroBoundRange` in single precision. */
    function NormalizeToZeroBoundRange(value: real): (q: Quotient)
      ensures zeroBoundRange != 0.0 ==> q.Finite? && q.val * zeroBoundRange == value - zeroBoundMin
      ensures zeroBoundRange == 0.0 ==> !q.Finite?
    {
      Divide(value - zeroBoundMin, zeroBoundRange)
    }
  }

  /** The ratio constructor stores its arguments unchanged. */
  function MakeRatio(variableName: string, range: real, zeroBoundRange: real, min: real, zeroBoundMin: real,
                     max: real, zeroBoundMax: real): (m: RatioDataDimensionMeasures)
    ensures m.name == variableName
    ensures m.range == range && m.zeroBoundRange == zeroBoundRange
    ensures m.min == min && m.zeroBoundMin == zeroBoundMin
    ensures m.max == max && m.zeroBoundMax == zeroBoundMax
  {
    RatioDataDimensionMeasures(variableName, range, zeroBoundRange, min, zeroBoundMin, max, zeroBoundMax)
  }

  /** Normalising the lower bound gives 0 whenever the range is non-zero, and the
      upper bound gives 1 when the range is the difference of the bounds. */
  lemma RatioNormalizeBounds(m: RatioDataDimensionMeasures)
    ensures m.range != 0.0 ==> m.NormalizeToRange(m.min) == Finite(0.0)
    ensures m.zeroBoundRange != 0.0 ==> m.NormalizeToZeroBoundRange(m.zeroBoundMin) == Finite(0.0)
    ensures m.range == m.max - m.min && m.range != 0.0 ==> m.NormalizeToRange(m.max) == Finite(1.0)
    ensures m.zeroBoundRange == m.zeroBoundMax - m.zeroBoundMin && m.zeroBoundRange != 0.0 ==>
              m.NormalizeToZeroBoundRange(m.zeroBoundMax) == Finite(1.0)
  {
  }

  // ---------------------------------------------------------------------------
  // Ordinal and nominal lemmas

  /** The nominal value <-> ID tables of a constructed record are mutual inverses over [0, n). */
  lemma {:induction false} NominalIDsBijective(m: NominalDataDimensionMeasures)
    requires m.Valid()
    ensures forall v :: v in m.valueIDs.entries ==>
              0 <= m.valueIDs.entries[v] < m.numberOfUniqueValues
              && m.idValues.entries[m.valueIDs.entries[v]] == v
    ensures forall id :: id in m.idValues.entries <==> 0 <= id < m.numberOfUniqueValues
    ensures forall id :: 0 <= id < m.numberOfUniqueValues ==>
              m.valueIDs.entries[m.idValues.entries[id]] == id && m.uniqueValues[id] == m.idValues.entries[id]
    ensures forall v :: v in m.valueIDs.entries ==>
              m.valueIDs.entries[v] in m.idValues.entries && m.idValues.entries[m.valueIDs.entries[v]] == v
    ensures forall id :: id in m.idValues.entries ==>
              m.idValues.entries[id] in m.valueIDs.entries && m.valueIDs.entries[m.idValues.entries[id]] == id
  {
    forall v | v in m.valueIDs.entries
      ensures 0 <= m.valueIDs.entries[v] < m.numberOfUniqueValues
      ensures m.idValues.entries[m.valueIDs.entries[v]] == v
    {
      var i :| 0 <= i < |m.uniqueValues| && m.uniqueValues[i] == v;
    }
    forall id ensures id in m.idValues.entries <==> 0 <= id < m.numberOfUniqueValues {
      assert id in m.idValues.entries <==> id in Ids(m.numberOfUniqueValues);
      if 0 <= id < m.numberOfUniqueValues {
        assert Ids(m.numberOfUniqueValues)[id] == id;
      }
    }
  }

  /** Ordinal normalisation of a constructed record never divides by zero. */
  lemma OrdinalNormalizeFinite(m: OrdinalDataDimensionMeasures, value: int)
    requires m.Valid()
    ensures m.NormalizeToRange(value) == Finite(value as real / m.numberOfUniqueValues as real)
    ensures m.NormalizeToRange(m.min) == Finite(0.0)
  {
    assert |m.uniqueValues| == |m.orderedValueIDs.keys| > 0;
  }
}
