/** What a query's result list is (core/runtime/query.go, section 5.5 of RFC 8620),
    independently of how it is computed: the matching records in comparator order,
    ties broken by id. */
module Results {
  import opened ByteOrder
  import opened Records
  import opened Lists

  type Table = map<Id, Object>

  /** A record-local query: the verdict on a record, and the comparison of two
      records, read nothing but those records. */
  datatype Query = Query(matches: Object -> bool, cmp: (Object, Object) -> int)

  /** The comparator is a total preorder on `recs`. */
  ghost predicate Orderly(q: Query, recs: set<Object>) {
    && (forall a, b :: a in recs && b in recs ==> (q.cmp(a, b) < 0 <==> q.cmp(b, a) > 0))
    && (forall a, b, c :: a in recs && b in recs && c in recs && q.cmp(a, b) <= 0 && q.cmp(b, c) <= 0
          ==> q.cmp(a, c) <= 0)
  }

  predicate Before(q: Query, db: Table, a: Id, b: Id) {
    && a in db && b in db
    && (q.cmp(db[a], db[b]) < 0 || (q.cmp(db[a], db[b]) == 0 && Less(a, b)))
  }

  function Matching(q: Query, db: Table): set<Id> {
    set id | id in db && q.matches(db[id])
  }

  /** The records the query puts in order. */
  ghost function Matched(q: Query, db: Table): set<Object> { set id | id in Matching(q, db) :: db[id] }

  ghost predicate IsResult(q: Query, db: Table, list: seq<Id>) {
    && Elems(list) == Matching(q, db)
    && Ascending(list, (a, b) => Before(q, db, a, b))
  }

  lemma BeforeAsymmetric(q: Query, db: Table, ids: set<Id>)
    requires Orderly(q, Matched(q, db)) && ids <= Matching(q, db)
    ensures AsymmetricOn((a, b) => Before(q, db, a, b), ids)
  {
    forall a, b | a in ids && b in ids && Before(q, db, a, b) ensures !Before(q, db, b, a) {
      assert db[a] in Matched(q, db) && db[b] in Matched(q, db);
      if Less(a, b) { Asymmetric(a, b); }
    }
  }

  lemma BeforeTransitive(q: Query, db: Table, a: Id, b: Id, c: Id)
    requires Orderly(q, Matched(q, db)) && Before(q, db, a, b) && Before(q, db, b, c)
    requires a in Matching(q, db) && b in Matching(q, db) && c in Matching(q, db)
    ensures Before(q, db, a, c)
  {
    assert db[a] in Matched(q, db) && db[b] in Matched(q, db) && db[c] in Matched(q, db);
    if Less(a, b) && Less(b, c) { Transitive(a, b, c); }
  }

  lemma BeforeTotal(q: Query, db: Table, a: Id, b: Id)
    requires Orderly(q, Matched(q, db)) && a in Matching(q, db) && b in Matching(q, db)
    ensures a == b || Before(q, db, a, b) || Before(q, db, b, a)
  {
    assert db[a] in Matched(q, db) && db[b] in Matched(q, db);
    Total(a, b);
  }

  /** A table has one result list. */
  lemma ResultUnique(q: Query, db: Table, s: seq<Id>, t: seq<Id>)
    requires Orderly(q, Matched(q, db)) && IsResult(q, db, s) && IsResult(q, db, t)
    ensures s == t
  {
    BeforeAsymmetric(q, db, Elems(s));
    AscendingUnique(s, t, (a, b) => Before(q, db, a, b));
  }

  lemma {:induction false} Insert(q: Query, db: Table, s: seq<Id>, x: Id) returns (t: seq<Id>)
    requires Orderly(q, Matched(q, db)) && x in Matching(q, db) && x !in s
    requires (forall y :: y in s ==> y in Matching(q, db)) && Ascending(s, (a, b) => Before(q, db, a, b))
    ensures Elems(t) == Elems(s) + {x} && Ascending(t, (a, b) => Before(q, db, a, b))
  {
    if s == [] {
      t := [x];
    } else {
      assert s[0] in s;
      BeforeTotal(q, db, x, s[0]);
      if Before(q, db, x, s[0]) {
        t := [x] + s;
        ConsAscending(q, db, x, s);
      } else {
        var u := Insert(q, db, s[1..], x);
        t := [s[0]] + u;
        HeadStays(q, db, s, u, x);
      }
    }
  }

  lemma HeadStays(q: Query, db: Table, s: seq<Id>, u: seq<Id>, x: Id)
    requires s != [] && Before(q, db, s[0], x) && Ascending(s, (a, b) => Before(q, db, a, b))
    requires Elems(u) == Elems(s[1..]) + {x} && Ascending(u, (a, b) => Before(q, db, a, b))
    ensures Elems([s[0]] + u) == Elems(s) + {x} && Ascending([s[0]] + u, (a, b) => Before(q, db, a, b))
  {
    assert s == [s[0]] + s[1..] && Elems(s) == {s[0]} + Elems(s[1..]) && Elems([s[0]] + u) == {s[0]} + Elems(u);
    forall j | 0 <= j < |u| ensures Before(q, db, s[0], u[j]) {
      assert u[j] in Elems(u);
    }
  }

  lemma ConsAscending(q: Query, db: Table, x: Id, s: seq<Id>)
    requires Orderly(q, Matched(q, db)) && x in Matching(q, db) && s != [] && Before(q, db, x, s[0])
    requires (forall y :: y in s ==> y in Matching(q, db)) && Ascending(s, (a, b) => Before(q, db, a, b))
    ensures Ascending([x] + s, (a, b) => Before(q, db, a, b))
  {
    forall j | 0 <= j < |s| ensures Before(q, db, x, s[j]) {
      assert s[j] in s && s[0] in s;
      if j > 0 { BeforeTransitive(q, db, x, s[0], s[j]); }
    }
  }

  lemma {:induction false} Sorted(q: Query, db: Table, ids: set<Id>) returns (t: seq<Id>)
    requires Orderly(q, Matched(q, db)) && ids <= Matching(q, db)
    ensures Elems(t) == ids && Ascending(t, (a, b) => Before(q, db, a, b))
    decreases |ids|
  {
    if ids == {} {
      t := [];
    } else {
      var x :| x in ids;
      var u := Sorted(q, db, ids - {x});
      assert forall y :: y in u ==> y in Elems(u);
      assert x !in Elems(u);
      t := Insert(q, db, u, x);
    }
  }

  /** The result list. */
  ghost function Result(q: Query, db: Table): (list: seq<Id>)
    requires Orderly(q, Matched(q, db))
    ensures IsResult(q, db, list)
  {
    assert exists t :: IsResult(q, db, t) by {
      var t := Sorted(q, db, Matching(q, db));
      assert IsResult(q, db, t);
    }
    var list :| IsResult(q, db, list);
    list
  }

  /** The query treats the two records alike. */
  ghost predicate SameStanding(q: Query, a: Object, b: Object) {
    && (q.matches(a) <==> q.matches(b))
    && forall r :: q.cmp(a, r) == q.cmp(b, r) && q.cmp(r, a) == q.cmp(r, b)
  }

  /** Outside `moved`, the same ids exist and the query treats them alike. */
  ghost predicate StableOutside(q: Query, db0: Table, db1: Table, moved: set<Id>) {
    forall id :: id !in moved ==>
      && (id in db0 <==> id in db1)
      && (id in db0 && id in db1 ==> SameStanding(q, db0[id], db1[id]))
  }

  /** The correctness core of queryChanges: a record that did not move keeps its
      standing among the other records that did not. */
  lemma StableResults(q: Query, db0: Table, db1: Table, moved: set<Id>, l0: seq<Id>, l1: seq<Id>)
    requires Orderly(q, Matched(q, db0)) && StableOutside(q, db0, db1, moved)
    requires IsResult(q, db0, l0) && IsResult(q, db1, l1)
    ensures Without(l0, moved) == Without(l1, moved)
  {
    var before0 := (a, b) => Before(q, db0, a, b);
    var before1 := (a, b) => Before(q, db1, a, b);
    var s, t := Without(l0, moved), Without(l1, moved);
    AscendingWithout(l0, moved, before0);
    AscendingWithout(l1, moved, before1);
    WithoutMembers(l0, moved);
    WithoutMembers(l1, moved);
    forall i, j | 0 <= i < j < |t| ensures before0(t[i], t[j]) {
      assert before1(t[i], t[j]);
      assert t[i] in Without(l1, moved) && t[j] in Without(l1, moved);
    }
    forall x ensures x in Elems(s) <==> x in Elems(t) {
      assert x in Elems(l0) <==> x in Matching(q, db0);
      assert x in Elems(l1) <==> x in Matching(q, db1);
    }
    BeforeAsymmetric(q, db0, Elems(s));
    AscendingUnique(s, t, before0);
  }
}
