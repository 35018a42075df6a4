/** `AttributeProcessor.Categorial`: counting records across a nominal and an
    ordinal attribute, both addressed by name. The record's by-name look-ups
    belong to the data model, which is not part of this model; they are
    parameters here, returning `None` where they throw. */
module CategorialProcessor {
  import opened Sequences
  import opened Records

  /** Both look-ups succeed on record `o`. */
  predicate Answers(o: InfoObject, a1: string, a2: string,
                    nomValueOf: (InfoObject, string) -> Option<string>,
                    ordValueOf: (InfoObject, string) -> Option<Int32>)
  {
    nomValueOf(o, a1).Some? && ordValueOf(o, a2).Some?
  }

  /** The length of the leading run of records on which both look-ups succeed. */
  function Answered(os: seq<InfoObject>, a1: string, a2: string,
                    nomValueOf: (InfoObject, string) -> Option<string>,
                    ordValueOf: (InfoObject, string) -> Option<Int32>): (k: nat)
    ensures k <= |os|
    ensures forall j :: 0 <= j < k ==> Answers(os[j], a1, a2, nomValueOf, ordValueOf)
    ensures k < |os| ==> !Answers(os[k], a1, a2, nomValueOf, ordValueOf)
  {
    if os == [] || !Answers(os[0], a1, a2, nomValueOf, ordValueOf) then 0
    else 1 + Answered(os[1..], a1, a2, nomValueOf, ordValueOf)
  }

  /** The number of records whose nominal value is `v1` and whose ordinal value is `v2`. */
  function Matches(os: seq<InfoObject>, a1: string, a2: string, v1: string, v2: Int32,
                   nomValueOf: (InfoObject, string) -> Option<string>,
                   ordValueOf: (InfoObject, string) -> Option<Int32>): (n: nat)
    ensures n <= |os|
  {
    if os == [] then 0
    else
      var o := Last(os);
      Matches(DropLast(os), a1, a2, v1, v2, nomValueOf, ordValueOf)
        + if nomValueOf(o, a1) == Some(v1) && ordValueOf(o, a2) == Some(v2) then 1 else 0
  }

  /** Counts the matching records; a failing look-up ends the scan (the
      exception is caught and logged) and the count so far is returned. */
  method CountObjectsMatchingTwoCategoriesNomOrd(os: seq<InfoObject>, a1: string, a2: string, v1: string, v2: Int32,
                                                 nomValueOf: (InfoObject, string) -> Option<string>,
                                                 ordValueOf: (InfoObject, string) -> Option<Int32>)
    returns (counter: nat)
    ensures counter == Matches(os[..Answered(os, a1, a2, nomValueOf, ordValueOf)], a1, a2, v1, v2, nomValueOf, ordValueOf)
  {
    counter := 0;
    for i := 0 to |os|
      invariant forall j :: 0 <= j < i ==> Answers(os[j], a1, a2, nomValueOf, ordValueOf)
      invariant counter == Matches(os[..i], a1, a2, v1, v2, nomValueOf, ordValueOf)
    {
      var vNom := nomValueOf(os[i], a1);
      if vNom.None? {
        return;
      }
      var vOrd := ordValueOf(os[i], a2);
      if vOrd.None? {
        return;
      }
      Prefix(os, i);
      Snoc(os[..i], os[i]);
      if vNom.value == v1 && vOrd.value == v2 {
        counter := counter + 1;
      }
    }
    assert os[..|os|] == os;
  }

  /** When both look-ups succeed on every record, the whole list is scanned and
      the count is the pair count of the two columns the look-ups read. */
  lemma {:induction false} NomOrdMatchesPairCount(os: seq<InfoObject>, a1: string, a2: string, v1: string, v2: Int32,
                                                 nomValueOf: (InfoObject, string) -> Option<string>,
                                                 ordValueOf: (InfoObject, string) -> Option<Int32>)
    requires forall i :: 0 <= i < |os| ==> Answers(os[i], a1, a2, nomValueOf, ordValueOf)
    ensures Answered(os, a1, a2, nomValueOf, ordValueOf) == |os|
    ensures Matches(os, a1, a2, v1, v2, nomValueOf, ordValueOf)
            == PairCount(seq(|os|, i requires 0 <= i < |os| => nomValueOf(os[i], a1).value),
                         seq(|os|, i requires 0 <= i < |os| => ordValueOf(os[i], a2).value), v1, v2)
  {
    if os != [] {
      var os' := DropLast(os);
      NomOrdMatchesPairCount(os', a1, a2, v1, v2, nomValueOf, ordValueOf);
      var xs := seq(|os|, i requires 0 <= i < |os| => nomValueOf(os[i], a1).value);
      var ys := seq(|os|, i requires 0 <= i < |os| => ordValueOf(os[i], a2).value);
      assert DropLast(xs) == seq(|os'|, i requires 0 <= i < |os'| => nomValueOf(os'[i], a1).value);
      assert DropLast(ys) == seq(|os'|, i requires 0 <= i < |os'| => ordValueOf(os'[i], a2).value);
    }
  }
}
