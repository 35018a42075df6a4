/** `AttributeProcessor.ExtractAttributeIDs`: sorts attribute names by level of
    measurement into four lists of attribute IDs. The data set's `TypeOf` and
    `IDOf` look-ups are parameters. */
module AttributeProcessor {
  import opened Sequences
  import opened Records

  /** The IDs of the names of level `level`, in the order of the names. */
  function IDsOfLevel(attIDs: seq<string>, level: LoM, typeOf: string -> LoM, idOf: string -> int): (ids: seq<int>)
    ensures |ids| <= |attIDs|
  {
    if attIDs == [] then []
    else
      var key := Last(attIDs);
      IDsOfLevel(DropLast(attIDs), level, typeOf, idOf) + if typeOf(key) == level then [idOf(key)] else []
  }

  /** One pass over the names, appending each name's ID to the list of its
      level; names of any other level are skipped. */
  method ExtractAttributeIDs(typeOf: string -> LoM, idOf: string -> int, attIDs: seq<string>)
    returns (nomIDs: seq<int>, ordIDs: seq<int>, ivlIDs: seq<int>, ratIDs: seq<int>)
    ensures nomIDs == IDsOfLevel(attIDs, Nominal, typeOf, idOf)
    ensures ordIDs == IDsOfLevel(attIDs, Ordinal, typeOf, idOf)
    ensures ivlIDs == IDsOfLevel(attIDs, Interval, typeOf, idOf)
    ensures ratIDs == IDsOfLevel(attIDs, Ratio, typeOf, idOf)
  {
    nomIDs, ordIDs, ivlIDs, ratIDs := [], [], [], [];
    for i := 0 to |attIDs|
      invariant nomIDs == IDsOfLevel(attIDs[..i], Nominal, typeOf, idOf)
      invariant ordIDs == IDsOfLevel(attIDs[..i], Ordinal, typeOf, idOf)
      invariant ivlIDs == IDsOfLevel(attIDs[..i], Interval, typeOf, idOf)
      invariant ratIDs == IDsOfLevel(attIDs[..i], Ratio, typeOf, idOf)
    {
      var key := attIDs[i];
      Prefix(attIDs, i);
      Snoc(attIDs[..i], key);
      match typeOf(key)
      case Nominal => nomIDs := nomIDs + [idOf(key)];
      case Ordinal => ordIDs := ordIDs + [idOf(key)];
      case Interval => ivlIDs := ivlIDs + [idOf(key)];
      case Ratio => ratIDs := ratIDs + [idOf(key)];
      case Undefined =>
    }
    assert attIDs[..|attIDs|] == attIDs;
  }

  /** An ID is listed under a level exactly when some name of that level has it. */
  lemma {:induction false} IDsOfLevelMembership(attIDs: seq<string>, level: LoM, typeOf: string -> LoM, idOf: string -> int, id: int)
    ensures id in IDsOfLevel(attIDs, level, typeOf, idOf) <==>
              exists i :: 0 <= i < |attIDs| && typeOf(attIDs[i]) == level && idOf(attIDs[i]) == id
  {
    if attIDs != [] {
      var init := DropLast(attIDs);
      IDsOfLevelMembership(init, level, typeOf, idOf, id);
      Split(attIDs);
      if exists i :: 0 <= i < |init| && typeOf(init[i]) == level && idOf(init[i]) == id {
        var i :| 0 <= i < |init| && typeOf(init[i]) == level && idOf(init[i]) == id;
        assert attIDs[i] == init[i];
      }
      if exists i :: 0 <= i < |attIDs| && typeOf(attIDs[i]) == level && idOf(attIDs[i]) == id {
        var i :| 0 <= i < |attIDs| && typeOf(attIDs[i]) == level && idOf(attIDs[i]) == id;
        if i < |init| {
          assert init[i] == attIDs[i];
        }
      }
    }
  }

  /** Splitting the names splits each list the same way: the names' order is kept. */
  lemma {:induction false} IDsOfLevelAppend(xs: seq<string>, ys: seq<string>, level: LoM, typeOf: string -> LoM, idOf: string -> int)
    ensures IDsOfLevel(xs + ys, level, typeOf, idOf) == IDsOfLevel(xs, level, typeOf, idOf) + IDsOfLevel(ys, level, typeOf, idOf)
  {
    if ys != [] {
      var ys' := DropLast(ys);
      IDsOfLevelAppend(xs, ys', level, typeOf, idOf);
      assert DropLast(xs + ys) == xs + ys';
      assert Last(xs + ys) == Last(ys);
    } else {
      assert xs + ys == xs;
    }
  }

  /** Every name lands in exactly one of the five levels, so the four lists
      together with the skipped names account for all of them. */
  lemma {:induction false} IDsOfLevelPartition(attIDs: seq<string>, typeOf: string -> LoM, idOf: string -> int)
    ensures |IDsOfLevel(attIDs, Nominal, typeOf, idOf)| + |IDsOfLevel(attIDs, Ordinal, typeOf, idOf)|
            + |IDsOfLevel(attIDs, Interval, typeOf, idOf)| + |IDsOfLevel(attIDs, Ratio, typeOf, idOf)|
            + |IDsOfLevel(attIDs, Undefined, typeOf, idOf)| == |attIDs|
  {
    if attIDs != [] {
      IDsOfLevelPartition(DropLast(attIDs), typeOf, idOf);
    }
  }
}
