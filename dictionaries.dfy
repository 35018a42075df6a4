/** A .NET `Dictionary<K, V>` as the statistics code uses it: entries are only
    ever added (never removed), so enumerating its keys yields them in insertion
    order. The model keeps that order explicitly next to the key-to-value map. */
module Dictionaries {
  import opened Sequences

  datatype Dict<K(==, !new), V> = Dict(keys: seq<K>, entries: map<K, V>) {

    /** Keys are distinct and are exactly the keys of the map. */
    ghost predicate Valid() {
      NoDuplicates(keys) && forall k :: k in entries <==> k in keys
    }

    /** The values in key-enumeration order (what `Dictionary.Values` yields). */
    function Values(): (vs: seq<V>)
      requires Valid()
      ensures |vs| == |keys|
      ensures forall i :: 0 <= i < |keys| ==> vs[i] == entries[keys[i]]
    {
      Lookup(keys, entries)
    }
  }

  function Empty<K(==, !new), V>(): (d: Dict<K, V>)
    ensures d.Valid() && d.keys == []
  {
    Dict([], map[])
  }

  /** `Dictionary.Add`: the key must not be present yet (otherwise .NET throws). */
  function Add<K(==, !new), V>(d: Dict<K, V>, k: K, v: V): (d': Dict<K, V>)
    requires d.Valid() && k !in d.entries
    ensures d'.Valid()
    ensures d'.keys == d.keys + [k]
    ensures d'.entries == d.entries[k := v]
  {
    Dict(d.keys + [k], d.entries[k := v])
  }

  /** The indexer setter `d[k] = v` on a key that is already present: the key keeps its place. */
  function Set<K(==, !new), V>(d: Dict<K, V>, k: K, v: V): (d': Dict<K, V>)
    requires d.Valid() && k in d.entries
    ensures d'.Valid()
    ensures d'.keys == d.keys
    ensures d'.entries == d.entries[k := v]
  {
    Dict(d.keys, d.entries[k := v])
  }

  /** The values that `m` holds at `ks`, in the order of `ks`. */
  function Lookup<K(==, !new), V>(ks: seq<K>, m: map<K, V>): (vs: seq<V>)
    requires forall k :: k in ks ==> k in m
  {
    seq(|ks|, i requires 0 <= i < |ks| => m[ks[i]])
  }

  /** `m` holds, at each of its keys, how often that key occurs in `t`. */
  ghost predicate Counts<K(!new)>(m: map<K, int>, t: seq<K>) {
    forall k :: k in m ==> m[k] == Occurrences(t, k)
  }

  /** Counting one more occurrence of a key keeps the counts right. */
  lemma CountsSnoc<K(!new)>(m: map<K, int>, t: seq<K>, x: K)
    requires Counts(m, t) && x in m
    ensures Counts(m[x := m[x] + 1], t + [x])
  {
    forall k | k in m[x := m[x] + 1]
      ensures m[x := m[x] + 1][k] == Occurrences(t + [x], k)
    {
      OccurrencesSnoc(t, x, k);
    }
  }

  /** A key that does not occur in `t` may join with a zero count. */
  lemma CountsFresh<K(!new)>(m: map<K, int>, t: seq<K>, x: K)
    requires Counts(m, t) && x !in t
    ensures Counts(m[x := 0], t)
  {
    assert Occurrences(t, x) == 0;
  }

  /** `d` is the tally of `t`: one key per distinct element, in first-seen
      order, holding its number of occurrences. */
  ghost predicate Tallied<K(!new)>(d: Dict<K, int>, t: seq<K>) {
    d.Valid() && d.keys == Distinct(t) && Counts(d.entries, t)
  }

  /** The empty dictionary is the tally of the empty sequence. */
  lemma TallyEmpty<K(!new)>()
    ensures Tallied(Empty<K, int>(), [])
  {
    assert Distinct<K>([]) == [];
  }

  /** `d[x] = d[x] + 1` on a dictionary of counts: one more `x` is counted. */
  method Increment<K(==, !new)>(d: Dict<K, int>, x: K, ghost t: seq<K>) returns (d': Dict<K, int>)
    requires d.Valid() && x in d.entries && Counts(d.entries, t)
    ensures d'.Valid() && d'.keys == d.keys
    ensures Counts(d'.entries, t + [x])
  {
    CountsSnoc(d.entries, t, x);
    d' := Set(d, x, d.entries[x] + 1);
  }

  /** Counts one more `x`, adding it with count 0 first if it is not a key yet. */
  method AddOrIncrement<K(==, !new)>(d: Dict<K, int>, x: K, ghost t: seq<K>) returns (d': Dict<K, int>)
    requires Tallied(d, t)
    ensures Tallied(d', t + [x])
  {
    DistinctSnoc(t, x);
    d' := d;
    if x !in d'.entries {
      CountsFresh(d'.entries, t, x);
      d' := Add(d', x, 0);
    }
    d' := Increment(d', x, t);
  }

  /** What a finished tally of the observed elements of `col` holds: each key
      with its number of occurrences in `col`, at least one, and counts that add
      up to the number of observed elements. */
  lemma TallyCounts<K(!new)>(d: Dict<K, int>, col: seq<K>, missing: K)
    requires Tallied(d, Observed(col, missing))
    ensures forall k :: k in d.entries ==> d.entries[k] == Occurrences(col, k) >= 1
    ensures Sum(d.Values()) == |Observed(col, missing)|
  {
    var t := Observed(col, missing);
    forall k | k in d.entries
      ensures d.entries[k] == Occurrences(col, k) >= 1
    {
      assert d.entries[k] == Occurrences(t, k);
      OccurrencesObserved(col, missing, k);
    }
    CountsTotal(d, t);
  }

  /** A dictionary holding a zero count for each of `keys`, added in order. */
  method ZeroCounts<K(==, !new)>(keys: seq<K>) returns (d: Dict<K, int>)
    requires NoDuplicates(keys)
    ensures d.Valid() && d.keys == keys
    ensures Counts(d.entries, [])
  {
    d := Empty();
    for j := 0 to |keys|
      invariant d.Valid() && d.keys == keys[..j]
      invariant forall k :: k in d.entries ==> d.entries[k] == 0
    {
      assert keys[j] !in keys[..j] by {
        forall i | 0 <= i < j ensures keys[..j][i] != keys[j] {
          assert keys[..j][i] == keys[i];
        }
      }
      d := Add(d, keys[j], 0);
      Prefix(keys, j);
    }
    assert keys[..|keys|] == keys;
  }

  /** Counts of every element of `t`, one per distinct key, add up to `|t|`. */
  lemma CountsTotal<K(!new)>(d: Dict<K, int>, t: seq<K>)
    requires d.Valid() && Counts(d.entries, t)
    requires forall x :: x in t ==> x in d.entries
    ensures Sum(d.Values()) == |t|
  {
    SumOfCounts(d.keys, d.entries, t);
    TotalOccurrencesCover(d.keys, t);
  }

  /** If `m` holds, at every key, how often that key occurs in `t`, then adding up
      `m`'s values at `ks` gives the total number of occurrences of `ks` in `t`. */
  lemma {:induction false} SumOfCounts<K(!new)>(ks: seq<K>, m: map<K, int>, t: seq<K>)
    requires forall k :: k in ks ==> k in m && m[k] == Occurrences(t, k)
    ensures Sum(Lookup(ks, m)) == TotalOccurrences(ks, t)
  {
    if ks != [] {
      var ks' := DropLast(ks);
      assert forall k :: k in ks' ==> k in ks;
      SumOfCounts(ks', m, t);
      assert DropLast(Lookup(ks, m)) == Lookup(ks', m);
    }
  }
}
