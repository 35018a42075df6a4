# Attribute statistics of the HoloLens visualisation toolkit

This project models the attribute-statistics engine of the HoloLens
visualisation toolkit and proves properties of it. The engine has two parts.

- `AttributeProcessor` scans a list of data records (`InfoObject`s) one
  attribute at a time. For each level of measurement it does the following:
  - **nominal** (strings; missing is `"missingValue"`): finds the unique values
    and counts how often each occurs;
  - **ordinal** (integer codes with an ordering dictionary; missing is
    `int.MinValue`): counts each code and finds the extrema;
  - **interval** (integers; missing is `int.MinValue`): counts each value and
    finds the extrema;
  - **ratio** (single-precision numbers; missing is NaN): computes the minimum,
    maximum and range, plus "zero-bound" variants that always enclose 0;
  - **pairs**: counts records that match a pair of category values, for two
    nominal, two ordinal, or one nominal and one ordinal attribute;
  - **partitioning**: splits a list of attribute names into four ID lists by
    level of measurement.
- The four `*DataDimensionMeasures` records turn those results into summary
  fields and small normalisation functions:
  - distribution minimum, maximum and range, plus their zero-bound variants;
  - ID bounds;
  - a value <-> ID numbering (nominal) or an ordering table (ordinal).

The model has these modules:

| module | contents |
|---|---|
| `Records` | the records and the sentinels |
| `Sequences` | the specification functions over a column: the observed values, the distinct values in first-seen order, occurrence and pair counts |
| `Dictionaries` | the C# `Dictionary`, as keys in enumeration order plus a map, and the counting steps |
| `Extrema` | the extremum scans as functions of a column |
| `Measures` | the four statistics records |
| `NominalProcessor`, `OrdinalProcessor`, `IntervalProcessor`, `RatioProcessor`, `CategorialProcessor`, `AttributeProcessor` | the static classes of `AttributeProcessor` |

How the source is modelled:
- Each scanning loop of the source is a method with a `for` loop. The method is proved against a specification function of the scanned column.
- A dictionary the source mutates is a `Dict` value that the loop reassigns.
- The arrays the measures constructors fill are Dafny arrays.

## Model

| member | source | states |
|---|---|---|
| NominalProcessor.FindUniqueValues | HoloLens/Assets/Scripts/DataProcessor.cs:74-91 | the result is the distinct non-missing values of the column in first-seen order; it has no duplicates, never holds "missingValue", and holds every non-missing value of the column |
| Sequences.FirstSeenOrder | HoloLens/Assets/Scripts/DataProcessor.cs:74-91 | in the unique-value list, an earlier value occurs in the column before any occurrence of a later value |
| NominalProcessor.CalculateDistribution | HoloLens/Assets/Scripts/DataProcessor.cs:93-114 | the keys are exactly the unique non-missing values in first-seen order; each count is the number of records holding that value and is at least 1; the counts add up to the number of non-missing records |
| NominalProcessor.CountValues | HoloLens/Assets/Scripts/DataProcessor.cs:104-111 | after the counting pass, every key holds its number of occurrences among the non-missing values, and the keys are unchanged |
| Dictionaries.ZeroCounts | HoloLens/Assets/Scripts/DataProcessor.cs:99-102 | adding each unique value with count 0 gives a dictionary with exactly those keys in that order, all counting nothing |
| Dictionaries.Increment | HoloLens/Assets/Scripts/DataProcessor.cs:109 | `d[x] = d[x] + 1` on a dictionary of counts keeps the keys and counts one more `x` |
| NominalProcessor.CountObjectsMatchingTwoCattegories | HoloLens/Assets/Scripts/DataProcessor.cs:116-131 | the result is the number of records holding `value1` in the first attribute and `value2` in the second, and is at most the number of records |
| NominalProcessor.PairCountIncludesMissing | HoloLens/Assets/Scripts/DataProcessor.cs:116-131 | the nominal pair count does not filter "missingValue": when every record misses both attributes, asking for "missingValue" twice counts all of them |
| NominalProcessor.CalculateStats | HoloLens/Assets/Scripts/DataProcessor.cs:65-72 | the record takes the first record's name; its unique values are the column's distinct non-missing values; its distribution keys are exactly the non-missing values, with their occurrence counts, which add up to the number of non-missing records; its ID bound is n - 1 |
| OrdinalProcessor.CalculateDistribution | HoloLens/Assets/Scripts/DataProcessor.cs:146-167 | the keys are exactly the ordering dictionary's keys in its order; each code counts the records holding it, and unseen codes and `int.MinValue` count 0; the counts add up to the number of non-missing records |
| OrdinalProcessor.CountCodes | HoloLens/Assets/Scripts/DataProcessor.cs:157-164 | the counting pass skips `int.MinValue` and leaves every code with its number of occurrences among the non-missing codes; this needs every non-missing code to be a key |
| OrdinalProcessor.CountObjectsMatchingTwoCattegories | HoloLens/Assets/Scripts/DataProcessor.cs:169-187 | the result is 0 when either asked value is `int.MinValue`, and otherwise the number of records holding both values; it is at most the number of records |
| OrdinalProcessor.CalculateMin | HoloLens/Assets/Scripts/DataProcessor.cs:189-204 | the result is the minimum scan of the column (see Extrema.CodeMin) |
| OrdinalProcessor.CalculateMax | HoloLens/Assets/Scripts/DataProcessor.cs:206-221 | the result is the maximum scan of the column (see Extrema.CodeMax) |
| OrdinalProcessor.CalculateStats | HoloLens/Assets/Scripts/DataProcessor.cs:136-144 | the record is well formed; it takes the first record's name and the ordering dictionary; its distribution keys are the dictionary's codes, each with its occurrence count (0 at an `int.MinValue` key), and the counts add up to the number of non-missing records; range = number of categories, and max is the largest code |
| IntervalProcessor.CalculateDistribution | HoloLens/Assets/Scripts/DataProcessor.cs:239-257 | keys are added lazily: they are exactly the distinct non-missing values in first-seen order; each count is the number of records holding that value and is at least 1; the counts add up to the number of non-missing records |
| Dictionaries.AddOrIncrement | HoloLens/Assets/Scripts/DataProcessor.cs:248-252 | adding an unseen key with 0 and then incrementing it keeps the dictionary a tally (distinct keys in first-seen order, exact counts) of the values seen so far plus `x` |
| Dictionaries.TallyCounts | HoloLens/Assets/Scripts/DataProcessor.cs:239-257 | a finished tally of the non-missing values holds each key's occurrence count in the whole column, which is at least 1, and the counts add up to the number of non-missing values |
| IntervalProcessor.CalculateMin | HoloLens/Assets/Scripts/DataProcessor.cs:259-274 | the result is the minimum scan of the column (see Extrema.CodeMin) |
| IntervalProcessor.CalculateMax | HoloLens/Assets/Scripts/DataProcessor.cs:276-291 | the result is the maximum scan of the column (see Extrema.CodeMax) |
| IntervalProcessor.CalculateStats | HoloLens/Assets/Scripts/DataProcessor.cs:226-237 | the record takes the first record's name and its translator; its distribution keys are the distinct non-missing values, each counting the records that hold it (at least 1), and the counts add up to the number of non-missing records; its summary is that of the distribution, so zBoundDistMin = 0 and zBoundDistMax = distMax; min and max are the column's extrema, are keys of the distribution and satisfy min <= max; range = max - min (the exact difference; the source's wrapped range is Measures.MakeIntervalAsWritten, see ## Findings) |
| Extrema.CodeMin | HoloLens/Assets/Scripts/DataProcessor.cs:189-204 | the scan ignores `int.MinValue`; when a value is observed, the result is an observed value at most every observed value; when none is, it is `int.MaxValue` |
| Extrema.CodeMax | HoloLens/Assets/Scripts/DataProcessor.cs:206-221 | the scan ignores `int.MinValue`; when a value is observed, the result is an observed value at least every observed value; when none is, it is `int.MinValue` |
| Extrema.CodeExtremaIgnoreMissing | HoloLens/Assets/Scripts/DataProcessor.cs:28-32 | missing codes never affect the scans: scanning only the observed codes gives the same minimum and maximum |
| Extrema.CodeMinBelowMax | HoloLens/Assets/Scripts/DataProcessor.cs:259-291 | once a value is observed, min <= max, neither is `int.MinValue`, and both are among the distinct observed values |
| Extrema.RatioMin | HoloLens/Assets/Scripts/DataProcessor.cs:311-326 | the scan skips NaN; when a number is present, the result is a present number at most every number; when none is, it is `float.MaxValue` |
| Extrema.RatioMax | HoloLens/Assets/Scripts/DataProcessor.cs:335-350 | the scan skips NaN; when a number is present, the result is a present number at least every number; when none is, it is `float.MinValue` |
| Extrema.RatioExtremaIgnoreNaN | HoloLens/Assets/Scripts/DataProcessor.cs:28-32 | NaN entries never affect the scans: scanning only the numbers gives the same minimum and maximum |
| Extrema.ZeroBoundsEncloseZero | HoloLens/Assets/Scripts/DataProcessor.cs:328-357 | zero-bound min <= 0 <= zero-bound max; zero-bound min <= min and max <= zero-bound max, and each zero-bound extreme is the plain extreme or 0; once a number is present, min <= max and 0 <= range <= zero-bound range |
| Extrema.AllMissingRatio | HoloLens/Assets/Scripts/DataProcessor.cs:311-357 | with every value NaN, min and max stay at `float.MaxValue` and `float.MinValue`, so the range is negative, while both zero-bound extrema are 0 |
| RatioProcessor.CalculateMin | HoloLens/Assets/Scripts/DataProcessor.cs:311-326 | the result is the NaN-skipping minimum scan of the column (see Extrema.RatioMin) |
| RatioProcessor.CalculateZeroBoundMin | HoloLens/Assets/Scripts/DataProcessor.cs:328-333 | the result is at most 0 and at most the minimum |
| RatioProcessor.CalculateMax | HoloLens/Assets/Scripts/DataProcessor.cs:335-350 | the result is the NaN-skipping maximum scan of the column (see Extrema.RatioMax) |
| RatioProcessor.CalculateZeroBoundMax | HoloLens/Assets/Scripts/DataProcessor.cs:352-357 | the result is at least 0 and at least the maximum |
| RatioProcessor.CalculateRange | HoloLens/Assets/Scripts/DataProcessor.cs:363-369 | range = max - min, and it is non-negative once a number is present |
| RatioProcessor.CalculateZeroBoundRange | HoloLens/Assets/Scripts/DataProcessor.cs:371-378 | range = zero-bound max - zero-bound min; it is never negative, and at least the plain range once a number is present |
| RatioProcessor.CalculateStats | HoloLens/Assets/Scripts/DataProcessor.cs:296-309 | the record takes the first record's name and the six statistics of the column, each in its own field; zero-bound min <= 0 <= zero-bound max, and the zero-bound extrema enclose the plain ones |
| CategorialProcessor.CountObjectsMatchingTwoCategoriesNomOrd | HoloLens/Assets/Scripts/DataProcessor.cs:37-60 | the result is the number of matching records in the leading run where both look-ups succeed; a failing look-up ends the scan with the count so far |
| CategorialProcessor.NomOrdMatchesPairCount | HoloLens/Assets/Scripts/DataProcessor.cs:37-60 | when both look-ups succeed on every record, the whole list is scanned, and the count is the pair count of the two looked-up columns |
| AttributeProcessor.ExtractAttributeIDs | HoloLens/Assets/Scripts/DataProcessor.cs:380-413 | each of the four lists is the IDs of the names of its level, in the order of the names |
| AttributeProcessor.IDsOfLevelMembership | HoloLens/Assets/Scripts/DataProcessor.cs:380-413 | an ID is in a level's list exactly when some name of that level has that ID |
| AttributeProcessor.IDsOfLevelAppend | HoloLens/Assets/Scripts/DataProcessor.cs:380-413 | the relative order of the names is kept: the lists of a concatenation are the concatenations of the lists |
| AttributeProcessor.IDsOfLevelPartition | HoloLens/Assets/Scripts/DataProcessor.cs:380-413 | every name lands in exactly one level, so the four lists and the skipped names together account for all names |
| Measures.Summarize | HoloLens/Assets/Scripts/Model/DataDimensionMeasures.cs:51-56 | for a non-empty distribution: distMin and distMax are counts in it that bound every count, so distMin <= distMax; zBoundDistMin = 0 and zBoundDistMax = distMax; distRange = distMax - distMin and zBoundDistRange = distMax |
| Measures.Divide | HoloLens/Assets/Scripts/Model/DataDimensionMeasures.cs:146-149 | single-precision division without rounding: finite exactly when the divisor is non-zero, and then the quotient times the divisor is the dividend; otherwise +Infinity for a positive dividend, -Infinity for a negative one, and NaN for 0 |
| Measures.MakeNominal | HoloLens/Assets/Scripts/Model/DataDimensionMeasures.cs:44-71 | the record is well formed (see the two lemmas below); numberOfUniqueValues = number of keys, min = 0, and max = range = n - 1 |
| Measures.NumberKeys | HoloLens/Assets/Scripts/Model/DataDimensionMeasures.cs:63-70 | the numbering loop stores key i at index i and gives it ID i in both directions |
| Measures.NominalIDsBijective | HoloLens/Assets/Scripts/Model/DataDimensionMeasures.cs:63-70 | `valueIDs` and `idValues` are mutual inverses; the IDs are exactly [0, n), and `uniqueValues[i] == idValues[i]` |
| Measures.NominalDataDimensionMeasures.GetDistributionValues | HoloLens/Assets/Scripts/Model/DataDimensionMeasures.cs:73-82 | the result has the length of `uniqueValues`, and `vals[i] == distribution[uniqueValues[i]]`; in a constructed record, these are the counts in ID order |
| Measures.MakeOrdinal | HoloLens/Assets/Scripts/Model/DataDimensionMeasures.cs:110-144 | the record is well formed; min = 0, max is the largest code of the ordering dictionary, and range = numberOfUniqueValues = number of categories |
| Measures.ListCategories | HoloLens/Assets/Scripts/Model/DataDimensionMeasures.cs:116-124 | `uniqueIDs` and `uniqueValues` are the codes and labels as parallel sequences, in the ordering dictionary's order |
| Measures.InvertOrdering | HoloLens/Assets/Scripts/Model/DataDimensionMeasures.cs:126-131 | with distinct labels, the label -> code dictionary has the labels as keys, in order, and maps each label back to its code |
| Measures.OrdinalOrderingInverse | HoloLens/Assets/Scripts/Model/DataDimensionMeasures.cs:126-131 | in a constructed record, label -> code and code -> label are mutual inverses |
| Measures.OrdinalDataDimensionMeasures.GetDistributionValues | HoloLens/Assets/Scripts/Model/DataDimensionMeasures.cs:151-160 | the result has the length of `uniqueValues`, and `vals[i] == distribution[uniqueIDs[i]]` |
| Measures.OrdinalDataDimensionMeasures.NormalizeToRange | HoloLens/Assets/Scripts/Model/DataDimensionMeasures.cs:146-149 | with a non-zero range the result is the finite quotient q with q * range = value; with range 0 it is not finite |
| Measures.OrdinalNormalizeFinite | HoloLens/Assets/Scripts/Model/DataDimensionMeasures.cs:146-149 | in a constructed record, `NormalizeToRange` divides by the number of categories, which is never 0, and maps min to 0 |
| Measures.MakeInterval | HoloLens/Assets/Scripts/Model/DataDimensionMeasures.cs:184-200 | the record stores the name, distribution, translator and bounds; its summary is that of the distribution: distMin <= distMax, zBoundDistMin = 0, zBoundDistMax = distMax, distRange = distMax - distMin and zBoundDistRange = distMax; range = max - min exactly |
| Measures.IntervalRangeAsWritten | HoloLens/Assets/Scripts/Model/DataDimensionMeasures.cs:199 | the 32-bit subtraction equals the exact difference whenever that fits in 32 bits |
| Measures.MakeIntervalAsWritten | HoloLens/Assets/Scripts/Model/DataDimensionMeasures.cs:184-200 | the constructor with the source's 32-bit range keeps the name, distribution, translator and bounds and summarises the distribution, and builds the same record as Measures.MakeInterval whenever max - min fits in an `int` |
| Measures.IntervalRangeOverflows | HoloLens/Assets/Scripts/Model/DataDimensionMeasures.cs:197-205 | bounds -2000000000 and 2000000000 wrap the range to -294967296, and the record the as-written constructor builds from them, whatever its distribution, normalises `max` to a negative value instead of 1 |
| IntervalProcessor.IntervalRangeOverflowReachable | HoloLens/Assets/Scripts/DataProcessor.cs:226-237 | a column holding -2000000000 and 2000000000 meets every requirement of the interval statistics, its extrema are those values, and the as-written record built from them normalises `max` to a negative value |
| Measures.IntervalDataDimensionMeasures.NormalizeToRange | HoloLens/Assets/Scripts/Model/DataDimensionMeasures.cs:202-205 | with a non-zero range the result is the finite quotient q with q * range = value - min; with range 0 it is not finite |
| Measures.IntervalNormalizeBounds | HoloLens/Assets/Scripts/Model/DataDimensionMeasures.cs:202-205 | with range = max - min and range != 0, min normalises to 0, max to 1, and values between them to [0, 1] |
| Measures.MakeRatio | HoloLens/Assets/Scripts/Model/DataDimensionMeasures.cs:222-235 | the constructor stores the name and its six numeric arguments unchanged |
| Measures.RatioDataDimensionMeasures.NormalizeToRange | HoloLens/Assets/Scripts/Model/DataDimensionMeasures.cs:237-240 | with a non-zero range the result is the finite quotient q with q * range = value - min; with range 0 it is not finite |
| Measures.RatioDataDimensionMeasures.NormalizeToZeroBoundRange | HoloLens/Assets/Scripts/Model/DataDimensionMeasures.cs:242-245 | with a non-zero zero-bound range the result is the finite quotient q with q * zeroBoundRange = value - zeroBoundMin; with zeroBoundRange 0 it is not finite |
| Measures.RatioNormalizeBounds | HoloLens/Assets/Scripts/Model/DataDimensionMeasures.cs:237-245 | min normalises to 0 whenever range != 0, and zeroBoundMin whenever zeroBoundRange != 0; the upper bounds normalise to 1 when the range is the difference of the bounds |

## Left out

- Float arithmetic: ratio values are reals within ±`float.MaxValue`.
  - Rounding is not modelled.
  - Overflow is not modelled. With every value NaN, `CalculateRange` is `float.MinValue - float.MaxValue`, which is -Infinity in single precision; the model gives the exact negative real.
  - Infinities in the data are not modelled.
  - NaN is an explicit tag, so the IEEE rule that every comparison with NaN is false is not modelled. The scans skip NaN exactly as they do there.
- `NormalizeToRange` and `NormalizeToZeroBoundRange`: division by zero gives the IEEE outcome (±Infinity or NaN), but the quotients are exact reals without rounding.
- Counter overflow: counts and pair counts are unbounded naturals. The source's 32-bit counters would wrap only beyond `int.MaxValue` records.
- CategorialProcessor.CountObjectsMatchingTwoCategoriesNomOrd:
  - The records' by-name look-ups `NomValueOf` and `OrdValueOf` belong to the data model, which is not part of this model. They are parameters that return `None` where the source's look-up throws.
  - The message written to the Unity log when the exception is caught is left out.
- AttributeProcessor.ExtractAttributeIDs: `DataSet.TypeOf` and `DataSet.IDOf` are not part of this model. They are passed in as functions.
- The source builds the four result lists as `List`s and converts them to arrays; the model returns sequences.
- `RatioProcessor.CalculateStats` and the zero-bound helpers run the minimum and maximum scans several times, as the source does. Only the results are modelled, not the repeated work.
- C# `Dictionary` enumeration order is taken to be insertion order. This holds for dictionaries that are only added to, as all of these are.
- The ordinal ordering dictionary is given by the caller, as in the source. How it is built is not part of this model.
- The `DataDimensionMeasures` base class, `LoM` handling outside the records, `variableUnit` (never set), and the nominal and ordinal `uniqueValues` arrays as C# arrays: they are sequences here.
- Crash points are preconditions, because the source throws there:
  - `os[0]` on an empty list;
  - `Values.Min()` on an empty distribution;
  - an ordinal code missing from the ordering dictionary;
  - a duplicate label in `Dictionary.Add`;
  - a name missing from the interval translator table;
  - a record without attribute `aID` (the by-ID look-up `nomVALbyID[aID]`, `ordVALbyID[aID]`, `ivlVALbyID[aID]` or `ratVALbyID[aID]` throws): every scanning member requires every record to have it (`HasNominal`, `HasOrdinal`, `HasInterval`, `HasRatio`).
- Scene, Unity, UI, networking and server code is not part of this model.

## Findings

| source | as written | input that shows it | evidently intended | confidence | as-written member | corrected member |
|---|---|---|---|---|---|---|
| HoloLens/Assets/Scripts/Model/DataDimensionMeasures.cs:199 | `range = max - min` in unchecked 32-bit `int`, which wraps when the bounds are more than `int.MaxValue` apart | min = -2000000000, max = 2000000000: the range becomes -294967296, and `NormalizeToRange(max)` is negative instead of 1 | range is the exact distance max - min, so the bounds normalise to 0 and 1 | not executed | Measures.MakeIntervalAsWritten | Measures.MakeInterval |
