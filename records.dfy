/** The data the statistics engine reads: records ("info objects") holding, per
    level of measurement, the attribute values keyed by attribute ID, together
    with the missing-value sentinel of each level. */
module Records {

  /** Level of measurement of an attribute. `Undefined` stands for any level
      other than the four the statistics handle. */
  datatype LoM = Nominal | Ordinal | Interval | Ratio | Undefined

  const IntMinValue: int := -0x8000_0000
  const IntMaxValue: int := 0x7FFF_FFFF

  /** C#'s `int`: ordinal and interval codes. */
  type Int32 = x: int | IntMinValue <= x <= IntMaxValue

  /** Unchecked 32-bit two's-complement arithmetic: `x` reduced into the range of `int`. */
  function Wrap32(x: int): (r: Int32)
    ensures (r - x) % 0x1_0000_0000 == 0
  {
    (x - IntMinValue) % 0x1_0000_0000 + IntMinValue
  }

  /** C#'s `float.MaxValue`, (2 - 2^-23) * 2^127; `float.MinValue` is its negation. */
  const FloatMaxValue: real := 340282346638528859811704183484516925440.0
  const FloatMinValue: real := -FloatMaxValue

  /** A finite single-precision magnitude (rounding is not modelled). */
  type Single = x: real | FloatMinValue <= x <= FloatMaxValue

  /** The value of a ratio-scaled attribute: a number, or NaN when missing. */
  datatype RatioValue = NaN | Num(val: Single)

  /** Missing-value sentinels, one per level. */
  const MissingNominal: string := "missingValue"
  const MissingCode: Int32 := IntMinValue

  /** The outcome of a look-up that may fail (the C# code throws). */
  datatype Option<T> = None | Some(value: T)

  /** One attribute on one record: the attribute's name and its value. */
  datatype Attribute<T> = Attribute(name: string, value: T)

  /** A data record: for each level, the attributes of that level by attribute ID. */
  datatype InfoObject = InfoObject(
    nominal: map<int, Attribute<string>>,
    ordinal: map<int, Attribute<Int32>>,
    interval: map<int, Attribute<Int32>>,
    ratio: map<int, Attribute<RatioValue>>)

  predicate HasNominal(os: seq<InfoObject>, aID: int) {
    forall i :: 0 <= i < |os| ==> aID in os[i].nominal
  }

  predicate HasOrdinal(os: seq<InfoObject>, aID: int) {
    forall i :: 0 <= i < |os| ==> aID in os[i].ordinal
  }

  predicate HasInterval(os: seq<InfoObject>, aID: int) {
    forall i :: 0 <= i < |os| ==> aID in os[i].interval
  }

  predicate HasRatio(os: seq<InfoObject>, aID: int) {
    forall i :: 0 <= i < |os| ==> aID in os[i].ratio
  }

  /** The values of nominal attribute `aID`, record by record. */
  function NominalColumn(os: seq<InfoObject>, aID: int): (col: seq<string>)
    requires HasNominal(os, aID)
    ensures |col| == |os|
  {
    seq(|os|, i requires 0 <= i < |os| => os[i].nominal[aID].value)
  }

  function OrdinalColumn(os: seq<InfoObject>, aID: int): (col: seq<Int32>)
    requires HasOrdinal(os, aID)
    ensures |col| == |os|
  {
    seq(|os|, i requires 0 <= i < |os| => os[i].ordinal[aID].value)
  }

  function IntervalColumn(os: seq<InfoObject>, aID: int): (col: seq<Int32>)
    requires HasInterval(os, aID)
    ensures |col| == |os|
  {
    seq(|os|, i requires 0 <= i < |os| => os[i].interval[aID].value)
  }

  function RatioColumn(os: seq<InfoObject>, aID: int): (col: seq<RatioValue>)
    requires HasRatio(os, aID)
    ensures |col| == |os|
  {
    seq(|os|, i requires 0 <= i < |os| => os[i].ratio[aID].value)
  }
}
