/** Comparing two listings, each of a query over a table of its own: when they are the
    same list, told from the records that may differ. */
module Places {
  import opened ByteOrder
  import opened Lists
  import opened Results

  predicate SameSide(q0: Query, db0: Table, q1: Query, db1: Table, x: Id, y: Id) {
    Before(q0, db0, x, y) <==> Before(q1, db1, x, y)
  }

  /** The same ids match, and each pair of them stands the same way round. */
  ghost predicate SameListing(q0: Query, db0: Table, q1: Query, db1: Table) {
    && Matching(q0, db0) == Matching(q1, db1)
    && forall x, y :: x in Matching(q0, db0) && y in Matching(q0, db0) ==> SameSide(q0, db0, q1, db1, x, y)
  }

  lemma ListingCarries(q0: Query, db0: Table, q1: Query, db1: Table, list: seq<Id>)
    requires SameListing(q0, db0, q1, db1) && IsResult(q0, db0, list)
    ensures IsResult(q1, db1, list)
  {
    forall i, j | 0 <= i < j < |list| ensures Before(q1, db1, list[i], list[j]) {
      assert list[i] in Elems(list) && list[j] in Elems(list);
      assert Before(q0, db0, list[i], list[j]) && SameSide(q0, db0, q1, db1, list[i], list[j]);
    }
  }

  /** The record matches in both or in neither, and stands on the same side of every
      other record that matches in both. */
  ghost predicate KeepsPlace(q0: Query, db0: Table, q1: Query, db1: Table, x: Id) {
    && (x in Matching(q0, db0) <==> x in Matching(q1, db1))
    && forall y :: x in Matching(q0, db0) && y in Matching(q0, db0) * Matching(q1, db1)
         ==> SameSide(q0, db0, q1, db1, x, y)
  }

  /** Of the records outside `touched` the same match, each pair the same way round. */
  ghost predicate AlikeOutside(q0: Query, db0: Table, q1: Query, db1: Table, touched: set<Id>) {
    && (forall x :: x !in touched ==> (x in Matching(q0, db0) <==> x in Matching(q1, db1)))
    && forall x, y :: x !in touched && y !in touched && x in Matching(q0, db0) && y in Matching(q0, db0)
         ==> SameSide(q0, db0, q1, db1, x, y)
  }

  /** The two results are the same list if and only if every touched record keeps its
      place. */
  lemma PlacesDecide(q0: Query, db0: Table, q1: Query, db1: Table, touched: set<Id>)
    requires Orderly(q0, Matched(q0, db0)) && Orderly(q1, Matched(q1, db1))
    requires AlikeOutside(q0, db0, q1, db1, touched)
    ensures Result(q0, db0) == Result(q1, db1)
       <==> forall x :: x in touched ==> KeepsPlace(q0, db0, q1, db1, x)
  {
    var list := Result(q0, db0);
    if forall x :: x in touched ==> KeepsPlace(q0, db0, q1, db1, x) {
      StillListed(q0, db0, q1, db1, touched, list);
      ResultUnique(q1, db1, list, Result(q1, db1));
    } else if list == Result(q1, db1) {
      forall x | x in touched ensures KeepsPlace(q0, db0, q1, db1, x) { PlaceInBoth(q0, db0, q1, db1, list, x); }
    }
  }

  lemma StillListed(q0: Query, db0: Table, q1: Query, db1: Table, touched: set<Id>, list: seq<Id>)
    requires Orderly(q0, Matched(q0, db0)) && Orderly(q1, Matched(q1, db1))
    requires AlikeOutside(q0, db0, q1, db1, touched)
    requires IsResult(q0, db0, list) && forall x :: x in touched ==> KeepsPlace(q0, db0, q1, db1, x)
    ensures IsResult(q1, db1, list)
  {
    StillMatching(q0, db0, q1, db1, touched);
    forall i, j | 0 <= i < j < |list| ensures Before(q1, db1, list[i], list[j]) {
      assert list[i] in Elems(list) && list[j] in Elems(list);
      StillBefore(q0, db0, q1, db1, touched, list[i], list[j]);
    }
  }

  lemma StillMatching(q0: Query, db0: Table, q1: Query, db1: Table, touched: set<Id>)
    requires AlikeOutside(q0, db0, q1, db1, touched)
    requires forall x :: x in touched ==> KeepsPlace(q0, db0, q1, db1, x)
    ensures Matching(q0, db0) == Matching(q1, db1)
  {
    forall x ensures x in Matching(q0, db0) <==> x in Matching(q1, db1) {
      if x in touched { assert KeepsPlace(q0, db0, q1, db1, x); }
    }
  }

  lemma StillBefore(q0: Query, db0: Table, q1: Query, db1: Table, touched: set<Id>, x: Id, y: Id)
    requires Orderly(q0, Matched(q0, db0)) && Orderly(q1, Matched(q1, db1))
    requires AlikeOutside(q0, db0, q1, db1, touched) && Matching(q0, db0) == Matching(q1, db1)
    requires x in Matching(q0, db0) && y in Matching(q0, db0)
    requires Before(q0, db0, x, y) && forall z :: z in touched ==> KeepsPlace(q0, db0, q1, db1, z)
    ensures Before(q1, db1, x, y)
  {
    EitherSide(q0, db0, q1, db1, touched, x, y);
    OtherWay(q0, db0, x, y);
    BeforeTotal(q1, db1, x, y);
  }

  lemma EitherSide(q0: Query, db0: Table, q1: Query, db1: Table, touched: set<Id>, x: Id, y: Id)
    requires AlikeOutside(q0, db0, q1, db1, touched) && Matching(q0, db0) == Matching(q1, db1)
    requires forall z :: z in touched ==> KeepsPlace(q0, db0, q1, db1, z)
    requires x in Matching(q0, db0) && y in Matching(q0, db0)
    ensures SameSide(q0, db0, q1, db1, x, y) || SameSide(q0, db0, q1, db1, y, x)
  {
    if x in touched {
      assert KeepsPlace(q0, db0, q1, db1, x);
    } else if y in touched {
      assert KeepsPlace(q0, db0, q1, db1, y);
    }
  }

  lemma OtherWay(q: Query, db: Table, x: Id, y: Id)
    requires Orderly(q, Matched(q, db)) && x in Matching(q, db) && y in Matching(q, db) && Before(q, db, x, y)
    ensures !Before(q, db, y, x) && x != y
  {
    BeforeAsymmetric(q, db, {x, y});
    assert x in {x, y} && y in {x, y};
    Irreflexive(x);
  }

  lemma PlaceInBoth(q0: Query, db0: Table, q1: Query, db1: Table, list: seq<Id>, x: Id)
    requires Orderly(q0, Matched(q0, db0)) && Orderly(q1, Matched(q1, db1))
    requires IsResult(q0, db0, list) && IsResult(q1, db1, list)
    ensures KeepsPlace(q0, db0, q1, db1, x)
  {
    BeforeAsymmetric(q0, db0, Elems(list));
    BeforeAsymmetric(q1, db1, Elems(list));
    forall y | x in Elems(list) && y in Elems(list) ensures SameSide(q0, db0, q1, db1, x, y) {
      var i :| 0 <= i < |list| && list[i] == x;
      var j :| 0 <= j < |list| && list[j] == y;
      if i < j {
        assert Before(q0, db0, list[i], list[j]) && Before(q1, db1, list[i], list[j]);
      } else if j < i {
        assert Before(q0, db0, list[j], list[i]) && Before(q1, db1, list[j], list[i]);
      }
    }
  }
}
