/** Specification functions over sequences that the statistics are stated with:
    filtering out a missing-value sentinel, first-seen de-duplication,
    occurrence counts, sums and extrema. All recursion is on the prefix, so that
    each function follows a left-to-right scan one element at a time. */
module Sequences {

  predicate NoDuplicates<T(==)>(s: seq<T>) {
    forall i, j :: 0 <= i < j < |s| ==> s[i] != s[j]
  }

  function Last<T>(s: seq<T>): T
    requires |s| > 0
  {
    s[|s| - 1]
  }

  function DropLast<T>(s: seq<T>): seq<T>
    requires |s| > 0
  {
    s[..|s| - 1]
  }

  lemma Snoc<T>(s: seq<T>, x: T)
    ensures |s + [x]| > 0 && DropLast(s + [x]) == s && Last(s + [x]) == x
  {
    assert (s + [x])[..|s|] == s;
  }

  lemma Split<T>(s: seq<T>)
    requires |s| > 0
    ensures s == DropLast(s) + [Last(s)]
  {
  }

  lemma Prefix<T>(s: seq<T>, i: nat)
    requires i < |s|
    ensures s[..i + 1] == s[..i] + [s[i]]
  {
  }

  /** The elements of `s` other than the sentinel `missing`, in their original order. */
  function Observed<T(==, !new)>(s: seq<T>, missing: T): (r: seq<T>)
    ensures |r| <= |s|
    ensures forall x :: x in r <==> x in s && x != missing
  {
    if s == [] then []
    else
      Split(s);
      var r' := Observed(DropLast(s), missing);
      if Last(s) == missing then r' else r' + [Last(s)]
  }

  /** The distinct elements of `s`, each placed where it is first seen. */
  function Distinct<T(==, !new)>(s: seq<T>): (r: seq<T>)
    ensures NoDuplicates(r)
    ensures forall x :: x in r <==> x in s
  {
    if s == [] then []
    else
      Split(s);
      var r' := Distinct(DropLast(s));
      if Last(s) in r' then r' else r' + [Last(s)]
  }

  /** How many times `x` occurs in `s`. */
  function Occurrences<T(==)>(s: seq<T>, x: T): (n: nat)
    ensures n <= |s|
    ensures n > 0 <==> x in s
  {
    if s == [] then 0
    else
      Split(s);
      Occurrences(DropLast(s), x) + if Last(s) == x then 1 else 0
  }

  /** The occurrences in `t` of every key of `keys`, added up. */
  function TotalOccurrences<T(==)>(keys: seq<T>, t: seq<T>): nat
  {
    if keys == [] then 0 else TotalOccurrences(DropLast(keys), t) + Occurrences(t, Last(keys))
  }

  function Sum(s: seq<int>): int
  {
    if s == [] then 0 else Sum(DropLast(s)) + Last(s)
  }

  /** The least element of a non-empty sequence (what LINQ's Min() returns). */
  function Minimum(s: seq<int>): (m: int)
    requires |s| > 0
    ensures m in s
    ensures forall x :: x in s ==> m <= x
  {
    if |s| == 1 then s[0]
    else
      Split(s);
      var m' := Minimum(DropLast(s));
      if Last(s) < m' then Last(s) else m'
  }

  /** The greatest element of a non-empty sequence (what LINQ's Max() returns). */
  function Maximum(s: seq<int>): (m: int)
    requires |s| > 0
    ensures m in s
    ensures forall x :: x in s ==> x <= m
  {
    if |s| == 1 then s[0]
    else
      Split(s);
      var m' := Maximum(DropLast(s));
      if Last(s) > m' then Last(s) else m'
  }

  /** How many positions `i` hold `a` in `xs` and `b` in `ys` at once. */
  function PairCount<A(==), B(==)>(xs: seq<A>, ys: seq<B>, a: A, b: B): (n: nat)
    requires |xs| == |ys|
    ensures n <= |xs|
  {
    if xs == [] then 0
    else PairCount(DropLast(xs), DropLast(ys), a, b) + if Last(xs) == a && Last(ys) == b then 1 else 0
  }

  // ---------------------------------------------------------------------------
  // One more element: how each scan advances

  lemma ObservedSnoc<T(!new)>(s: seq<T>, x: T, missing: T)
    ensures Observed(s + [x], missing) == if x == missing then Observed(s, missing) else Observed(s, missing) + [x]
  {
    Snoc(s, x);
  }

  lemma DistinctSnoc<T(!new)>(s: seq<T>, x: T)
    ensures Distinct(s + [x]) == if x in Distinct(s) then Distinct(s) else Distinct(s) + [x]
  {
    Snoc(s, x);
  }

  lemma OccurrencesSnoc<T>(s: seq<T>, x: T, v: T)
    ensures Occurrences(s + [x], v) == Occurrences(s, v) + if x == v then 1 else 0
  {
    Snoc(s, x);
  }

  lemma PairCountSnoc<A, B>(xs: seq<A>, ys: seq<B>, x: A, y: B, a: A, b: B)
    requires |xs| == |ys|
    ensures PairCount(xs + [x], ys + [y], a, b) == PairCount(xs, ys, a, b) + if x == a && y == b then 1 else 0
  {
    Snoc(xs, x);
    Snoc(ys, y);
  }

  /** The observed values of a prefix, one element further. */
  lemma ObservedStep<T(!new)>(s: seq<T>, i: nat, missing: T)
    requires i < |s|
    ensures Observed(s[..i + 1], missing) ==
              if s[i] == missing then Observed(s[..i], missing) else Observed(s[..i], missing) + [s[i]]
  {
    Prefix(s, i);
    ObservedSnoc(s[..i], s[i], missing);
  }

  /** The distinct observed values of a prefix, one element further: a new,
      non-missing value is appended, anything else leaves them as they are. */
  lemma DistinctObservedStep<T(!new)>(s: seq<T>, i: nat, missing: T)
    requires i < |s|
    ensures var u := Distinct(Observed(s[..i], missing));
            Distinct(Observed(s[..i + 1], missing)) == if s[i] == missing || s[i] in u then u else u + [s[i]]
  {
    ObservedStep(s, i, missing);
    if s[i] != missing {
      DistinctSnoc(Observed(s[..i], missing), s[i]);
    }
  }

  // ---------------------------------------------------------------------------
  // Lemmas

  /** The distinct observed values keep first-seen order: every occurrence in `s`
      of a later element of the result is preceded by an occurrence of each
      earlier element. */
  lemma {:induction false} FirstSeenOrder<T(!new)>(s: seq<T>, missing: T, i: nat, j: nat, q: nat)
    requires i < j < |Distinct(Observed(s, missing))| && q < |s|
    requires s[q] == Distinct(Observed(s, missing))[j]
    ensures Distinct(Observed(s, missing))[i] in s[..q]
  {
    Split(s);
    var s', x := DropLast(s), Last(s);
    var r, r' := Distinct(Observed(s, missing)), Distinct(Observed(s', missing));
    ObservedSnoc(s', x, missing);
    DistinctSnoc(Observed(s', missing), x);
    if q < |s'| {
      assert s'[q] == s[q];
      assert s[..q] == s'[..q];
      FirstSeenOrder(s', missing, i, j, q);
    } else {
      assert s[..q] == s';
      assert r[i] == r'[i];
      assert r'[i] in r';
    }
  }

  /** Counting after the sentinel is filtered out changes nothing for any other value. */
  lemma {:induction false} OccurrencesObserved<T(!new)>(s: seq<T>, missing: T, x: T)
    requires x != missing
    ensures Occurrences(Observed(s, missing), x) == Occurrences(s, x)
  {
    if s != [] {
      OccurrencesObserved(DropLast(s), missing, x);
      var r' := Observed(DropLast(s), missing);
      if Last(s) != missing {
        Snoc(r', Last(s));
      }
    }
  }

  /** An element of a duplicate-free sequence occurs in it exactly once. */
  lemma {:induction false} OccurrencesNoDuplicates<T>(s: seq<T>, x: T)
    requires NoDuplicates(s) && x in s
    ensures Occurrences(s, x) == 1
  {
    var s' := DropLast(s);
    assert Occurrences(s, x) == Occurrences(s', x) + if Last(s) == x then 1 else 0;
    assert NoDuplicates(s') by {
      forall i, j | 0 <= i < j < |s'| ensures s'[i] != s'[j] {
        assert s'[i] == s[i] && s'[j] == s[j];
      }
    }
    if Last(s) == x {
      assert x !in s' by {
        forall k | 0 <= k < |s'| ensures s'[k] != x {
          assert s'[k] == s[k];
        }
      }
    } else {
      assert x in s' by { Split(s); }
      OccurrencesNoDuplicates(s', x);
    }
  }

  /** Appending `x` to `t` raises the total over `keys` by the number of times `x` is a key. */
  lemma {:induction false} TotalOccurrencesSnoc<T>(keys: seq<T>, t: seq<T>, x: T)
    ensures TotalOccurrences(keys, t + [x]) == TotalOccurrences(keys, t) + Occurrences(keys, x)
  {
    Snoc(t, x);
    if keys != [] {
      TotalOccurrencesSnoc(DropLast(keys), t, x);
    }
  }

  /** When the keys are distinct and cover every element of `t`, the per-key counts add up to |t|. */
  lemma {:induction false} TotalOccurrencesCover<T>(keys: seq<T>, t: seq<T>)
    requires NoDuplicates(keys)
    requires forall x :: x in t ==> x in keys
    ensures TotalOccurrences(keys, t) == |t|
  {
    if t == [] {
      TotalOccurrencesEmpty(keys);
    } else {
      Split(t);
      TotalOccurrencesCover(keys, DropLast(t));
      TotalOccurrencesSnoc(keys, DropLast(t), Last(t));
      OccurrencesNoDuplicates(keys, Last(t));
    }
  }

  lemma {:induction false} TotalOccurrencesEmpty<T>(keys: seq<T>)
    ensures TotalOccurrences(keys, []) == 0
  {
    if keys != [] {
      TotalOccurrencesEmpty(DropLast(keys));
    }
  }

  /** If every position matches, the pair count is the length. */
  lemma {:induction false} PairCountAllMatch<A, B>(xs: seq<A>, ys: seq<B>, a: A, b: B)
    requires |xs| == |ys|
    requires forall i :: 0 <= i < |xs| ==> xs[i] == a && ys[i] == b
    ensures PairCount(xs, ys, a, b) == |xs|
  {
    if xs != [] {
      PairCountAllMatch(DropLast(xs), DropLast(ys), a, b);
    }
  }
}
