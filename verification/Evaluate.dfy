/** Answering Foo/query (core/runtime/query.go: query, evaluateWith, loadAndMatch): the
    narrowed, windowed, collapsed evaluation against the result it stands for. */
module Evaluate {
  import opened Options
  import opened ByteOrder
  import opened Records
  import opened Lists
  import opened Schema
  import opened Store
  import opened Results
  import opened Comparators
  import opened RecordSort
  import opened Collapse
  import opened ObjectDb
  import opened Planner
  import opened Places

  /** Every stored record carries its id, and ids are of the id alphabet. */
  ghost predicate WellStored(db: Table) {
    forall id :: id in db ==> PlainId(id) && ID in db[id] && db[id][ID] == Quote(id)
  }

  function Within(db: Table, restrict: Option<set<Id>>): Table {
    map id | id in db && (restrict.Some? ==> id in restrict.value) :: db[id]
  }

  /** The query a request asks. */
  function Asked(w: Scope, f: Filter, cmps: seq<Comparator>): Query
    requires w.t in w.sc.types
  {
    SortQuery(cmps, o => Meaning(w, f, o))
  }

  // ---- Ids in order ----

  function InsertId(x: Id, s: seq<Id>): (r: seq<Id>)
    ensures Elems(r) == Elems(s) + {x}
  {
    if s == [] || Less(x, s[0]) then assert Elems([x] + s) == Elems(s) + {x}; [x] + s
    else
      var rest := InsertId(x, s[1..]);
      assert s == [s[0]] + s[1..] && Elems(s) == {s[0]} + Elems(s[1..]) && Elems([s[0]] + rest) == {s[0]} + Elems(rest);
      [s[0]] + rest
  }

  ghost predicate InIdOrder(s: seq<Id>) { forall i, j :: 0 <= i < j < |s| ==> Less(s[i], s[j]) }

  lemma {:induction false} InsertInOrder(x: Id, s: seq<Id>)
    requires InIdOrder(s) && x !in s
    ensures InIdOrder(InsertId(x, s))
  {
    if s != [] {
      if Less(x, s[0]) {
        forall j | 0 < j < |s| ensures Less(x, s[j]) { Transitive(x, s[0], s[j]); }
      } else {
        assert s[0] in s && s == [s[0]] + s[1..];
        Total(x, s[0]);
        InsertInOrder(x, s[1..]);
        var rest := InsertId(x, s[1..]);
        forall j | 0 <= j < |rest| ensures Less(s[0], rest[j]) {
          assert rest[j] in Elems(rest);
          if rest[j] != x { assert rest[j] in s[1..]; }
        }
      }
    }
  }

  method SortIds(ids: set<Id>) returns (s: seq<Id>)
    ensures Elems(s) == ids && InIdOrder(s)
  {
    s := [];
    var todo := ids;
    while todo != {}
      invariant todo <= ids && Elems(s) == ids - todo && InIdOrder(s)
    {
      var x :| x in todo;
      assert x !in Elems(s);
      InsertInOrder(x, s);
      s := InsertId(x, s);
      todo := todo - {x};
    }
  }

  // ---- Loading ----

  /** Of the ids in `done`, exactly the records the predicate accepts. */
  ghost predicate MatchedOf(w: Scope, f: Filter, done: set<Id>, recs: seq<QueryRecord>)
    requires w.t in w.sc.types
  {
    var db := Stored(w);
    && Loaded(recs)
    && (forall r :: r in recs ==> r.id in done && r.id in db && db[r.id] == r.obj && Meaning(w, f, r.obj))
    && (forall id :: id in done && id in db && Meaning(w, f, db[id]) ==> QueryRecord(id, db[id]) in recs)
  }

  lemma OneMore(w: Scope, f: Filter, done: set<Id>, recs: seq<QueryRecord>, id: Id)
    requires w.t in w.sc.types && WellStored(Stored(w)) && MatchedOf(w, f, done, recs) && id !in done
    ensures var db := Stored(w);
      if id in db && Meaning(w, f, db[id]) then MatchedOf(w, f, done + {id}, recs + [QueryRecord(id, db[id])])
      else MatchedOf(w, f, done + {id}, recs)
  {
    var db := Stored(w);
    if id in db && Meaning(w, f, db[id]) { LoadedSnoc(recs, QueryRecord(id, db[id])); }
  }

  /** Load the candidates and keep those the predicate tree accepts. */
  /** The filter can be evaluated on the record. */
  ghost predicate Decided(w: Scope, f: Filter, o: Object)
    requires w.t in w.sc.types
  {
    Yields(w, f, o, Ok(true)) || Yields(w, f, o, Ok(false))
  }

  method LoadAndMatch(w: Scope, f: Filter, candidates: set<Id>) returns (r: Result<seq<QueryRecord>>)
    requires w.t in w.sc.types && WellStored(Stored(w))
    ensures r.Ok? ==> MatchedOf(w, f, candidates, r.value)
    ensures r.Ok? ==> forall id :: id in candidates && id in Stored(w) ==> Decided(w, f, Stored(w)[id])
    ensures r.Err? ==> exists id :: id in candidates && id in Stored(w) && Yields(w, f, Stored(w)[id], Err)
  {
    var recs: seq<QueryRecord> := [];
    var todo := candidates;
    ghost var done: set<Id> := {};
    while todo != {}
      invariant done + todo == candidates && done !! todo
      invariant MatchedOf(w, f, done, recs)
      invariant forall id :: id in done && id in Stored(w) ==> Decided(w, f, Stored(w)[id])
    {
      var id :| id in todo;
      todo := todo - {id};
      OneMore(w, f, done, recs, id);
      done := done + {id};
      StoredAt(w, id);
      var o := ObjectAt(w.s, w.t, id);
      if o.Some? {
        var ok := Matches(w, f, o.value);
        if ok.Err? {
          return Err;
        }
        if ok.value {
          recs := recs + [QueryRecord(id, o.value)];
        }
      }
    }
    assert done == candidates;
    r := Ok(recs);
  }

  lemma LoadedSnoc(recs: seq<QueryRecord>, r: QueryRecord)
    requires Loaded(recs) && PlainId(r.id) && ID in r.obj
    requires r.obj[ID] == Quote(r.id) && forall x :: x in recs ==> x.id != r.id
    ensures Loaded(recs + [r])
  {
    forall i | 0 <= i < |recs| ensures recs[i].id != r.id { assert recs[i] in recs; }
  }

  // ---- What the reads make of the query ----

  /** The answer trusts an exact set without loading a record. */
  ghost predicate Fast(w: Scope, f: Filter, cmps: seq<Comparator>, collapse: Option<Name>, restrict: Option<set<Id>>)
    requires w.t in w.sc.types
  {
    cmps == [] && collapse.None? && restrict.None? && Narrows(w, f, []) && Exactly(w, f, [])
  }

  /** The record is to be loaded. */
  ghost predicate Candidate(w: Scope, f: Filter, restrict: Option<set<Id>>, x: Id)
    requires w.t in w.sc.types
  {
    Admits(w, f, [], x) && (Narrows(w, f, []) || x in w.all) && (restrict.Some? ==> x in restrict.value)
  }

  /** The record as loaded is a candidate the predicate tree accepts. */
  ghost predicate Accepted(w: Scope, f: Filter, restrict: Option<set<Id>>, x: Id)
    requires w.t in w.sc.types
  {
    && (Narrows(w, f, []) || x in w.all) && (restrict.Some? ==> x in restrict.value)
    && x in Stored(w) && Meaning(w, f, Stored(w)[x])
  }

  /** The reads, each of its own moment, put the id in the answer. */
  ghost predicate Judged(w: Scope, f: Filter, cmps: seq<Comparator>, collapse: Option<Name>, restrict: Option<set<Id>>,
          x: Id)
    requires w.t in w.sc.types
  {
    Admits(w, f, [], x) && (Fast(w, f, cmps, collapse, restrict) || Accepted(w, f, restrict, x))
  }

  /** The table of the answer: what was put in it, as it was loaded. */
  ghost predicate Pictured(w: Scope, f: Filter, cmps: seq<Comparator>, collapse: Option<Name>,
          restrict: Option<set<Id>>, pic: Table)
    requires w.t in w.sc.types
  {
    && (forall x :: x in pic <==> Judged(w, f, cmps, collapse, restrict, x))
    && (!Fast(w, f, cmps, collapse, restrict) ==> forall x :: x in pic ==> x in Stored(w) && pic[x] == Stored(w)[x])
  }

  /** The records in the order asked for. */
  function Listing(cmps: seq<Comparator>): Query { SortQuery(cmps, Everything) }

  /** Of the records a request loads, those it puts in order compare consistently. */
  ghost predicate Sortable(w: Scope, f: Filter, cmps: seq<Comparator>)
    requires w.t in w.sc.types
  {
    Comparable(cmps, Matched(Asked(w, f, cmps), Stored(w)))
  }

  /** Every comparator sorts on a property of the type whose kind it decodes. */
  ghost predicate SortsOn(ty: Type, cmps: seq<Comparator>) {
    forall c :: c in cmps ==> c.name in ty.props && KindSorts(ty.props[c.name], c)
  }

  /** Kind-checked records, whenever each was read - and every commit keeps to them -
      compare consistently. */
  lemma CheckedSortable(w: Scope, f: Filter, cmps: seq<Comparator>)
    requires ValidSchema(w.sc) && w.t in w.sc.types && SortsOn(w.sc.types[w.t], cmps)
    requires forall id :: id in Stored(w) ==> Checked(w.sc.types[w.t], Stored(w)[id])
    ensures Sortable(w, f, cmps) && Decodes(cmps, Matched(Asked(w, f, cmps), Stored(w)))
  {
    var recs := Matched(Asked(w, f, cmps), Stored(w));
    forall o | o in recs ensures Checked(w.sc.types[w.t], o) {
      var id :| id in Stored(w) && Stored(w)[id] == o;
    }
    assert ValidType(w.sc.types[w.t]);
    forall c | c in cmps ensures Consistent(c, Values(c, recs)) && forall o :: o in recs ==> Fits(c, ValueOf(c, o)) {
      CheckedConsistent(w.sc.types[w.t].props[c.name], c, recs);
    }
  }

  lemma ComparableSubset(cmps: seq<Comparator>, some: set<Object>, all: set<Object>)
    requires some <= all && Comparable(cmps, all)
    ensures Comparable(cmps, some)
  {
    forall c | c in cmps ensures Consistent(c, Values(c, some)) { assert Values(c, some) <= Values(c, all); }
  }

  lemma ComparablePart(w: Scope, f: Filter, cmps: seq<Comparator>, done: set<Id>, recs: seq<QueryRecord>)
    requires w.t in w.sc.types && MatchedOf(w, f, done, recs) && Sortable(w, f, cmps)
    ensures Comparable(cmps, Objects(recs))
  {
    var all := Matched(Asked(w, f, cmps), Stored(w));
    forall o | o in Objects(recs) ensures o in all {
      var r :| r in recs && r.obj == o;
      assert r.id in Matching(Asked(w, f, cmps), Stored(w));
    }
    ComparableSubset(cmps, Objects(recs), all);
  }

  /** The list is the result wherever the window reads it. */
  ghost predicate Reads(list: seq<Id>, window: nat, full: seq<Id>) {
    && |list| == |full|
    && forall i :: 0 <= i < (if 0 < window < |list| then window else |list|) ==> list[i] == full[i]
  }

  /** Sort the matched records and take their ids. */
  method OrderedIds(cmps: seq<Comparator>, window: nat, recs: seq<QueryRecord>) returns (list: seq<Id>)
    requires Loaded(recs) && Comparable(cmps, Objects(recs))
    ensures forall full :: IsResult(Listing(cmps), TableOf(recs), full) ==> Reads(list, window, full)
  {
    var matched := new QueryRecord[|recs|](i requires 0 <= i < |recs| => recs[i]);
    assert matched[..] == recs;
    ghost var p := SortRecords(matched, cmps, window);
    var now := matched[..];
    list := seq(|now|, i requires 0 <= i < |now| => now[i].id);
    forall full | IsResult(Listing(cmps), TableOf(recs), full) ensures Reads(list, window, full) {
      assert WindowIs(now, window, full);
    }
  }

  /** What an evaluation may answer for a query over a table. */
  ghost predicate Answers(q: Query, db: Table, collapse: Option<Name>, window: nat, list: seq<Id>) {
    if collapse.Some? then IsCollapsed(q, db, collapse.value, list)
    else forall full :: IsResult(q, db, full) ==> Reads(list, window, full)
  }

  /** Trusting an exact set without loading a record. */
  method FastPath(ids: set<Id>, window: nat, ghost pic: Table) returns (list: seq<Id>)
    requires pic.Keys == ids
    ensures Answers(Listing([]), pic, None, window, list)
  {
    list := SortIds(ids);
    assert Matching(Listing([]), pic) == pic.Keys;
    forall i, j | 0 <= i < j < |list| ensures Before(Listing([]), pic, list[i], list[j]) {
      assert list[i] in Elems(list) && list[j] in Elems(list) && Less(list[i], list[j]);
    }
    forall full | IsResult(Listing([]), pic, full) ensures Reads(list, window, full) {
      ResultUnique(Listing([]), pic, list, full);
    }
  }

  method SortAndCollapse(cmps: seq<Comparator>, collapse: Option<Name>, window: nat, recs: seq<QueryRecord>)
      returns (list: seq<Id>)
    requires Loaded(recs) && Comparable(cmps, Objects(recs)) && (collapse.Some? ==> window == 0)
    ensures Answers(Listing(cmps), TableOf(recs), collapse, window, list)
  {
    OrderlyTable(cmps, recs);
    list := OrderedIds(cmps, window, recs);
    if collapse.Some? {
      ghost var full := Results.Result(Listing(cmps), TableOf(recs));
      assert Reads(list, 0, full);
      assert list == full;
      CollapseCorrect(Listing(cmps), TableOf(recs), collapse.value, full);
      list := CollapseByKey(list, TableOf(recs), collapse.value);
    }
  }

  lemma MatchedPictured(w: Scope, f: Filter, cmps: seq<Comparator>, collapse: Option<Name>, restrict: Option<set<Id>>,
          candidates: set<Id>, recs: seq<QueryRecord>)
    requires w.t in w.sc.types && MatchedOf(w, f, candidates, recs) && !Fast(w, f, cmps, collapse, restrict)
    requires forall x :: x in candidates <==> Candidate(w, f, restrict, x)
    ensures Pictured(w, f, cmps, collapse, restrict, TableOf(recs))
  {
    var pic := TableOf(recs);
    forall x
      ensures x in pic <==> Judged(w, f, cmps, collapse, restrict, x)
      ensures x in pic ==> x in Stored(w) && pic[x] == Stored(w)[x]
    {
      MatchedTable(w, f, candidates, recs, x);
    }
  }

  lemma MatchedTable(w: Scope, f: Filter, done: set<Id>, recs: seq<QueryRecord>, x: Id)
    requires w.t in w.sc.types && MatchedOf(w, f, done, recs)
    ensures x in TableOf(recs) <==> x in done && x in Stored(w) && Meaning(w, f, Stored(w)[x])
    ensures x in TableOf(recs) ==> TableOf(recs)[x] == Stored(w)[x]
  {
    if x in TableOf(recs) { var r :| r in recs && r.id == x; }
    if x in done && x in Stored(w) && Meaning(w, f, Stored(w)[x]) { assert QueryRecord(x, Stored(w)[x]) in recs; }
  }

  /** Load the candidates, keep the matches, put them in order. */
  method LoadAndSort(w: Scope, f: Filter, cmps: seq<Comparator>, collapse: Option<Name>,
          ghost restrict: Option<set<Id>>,
          window: nat, candidates: set<Id>)
      returns (r: Result<seq<Id>>, ghost pic: Table)
    requires w.t in w.sc.types && WellStored(Stored(w)) && Sortable(w, f, cmps) && (collapse.Some? ==> window == 0)
    requires !Fast(w, f, cmps, collapse, restrict)
    requires forall x :: x in candidates <==> Candidate(w, f, restrict, x)
    ensures if r.Ok? then AllDecided(w, f, restrict) else SomeErrs(w, f, restrict)
    ensures r.Ok? ==>
      Pictured(w, f, cmps, collapse, restrict, pic) && Answers(Listing(cmps), pic, collapse, window, r.value)
    ensures r.Ok? ==> Comparable(cmps, Matched(Listing(cmps), pic))
  {
    pic := map[];
    var matched := LoadAndMatch(w, f, candidates);
    if matched.Err? {
      return Err, pic;
    }
    var recs := matched.value;
    pic := TableOf(recs);
    MatchedPictured(w, f, cmps, collapse, restrict, candidates, recs);
    ComparablePart(w, f, cmps, candidates, recs);
    assert Matched(Listing(cmps), pic) <= Objects(recs);
    ComparableSubset(cmps, Matched(Listing(cmps), pic), Objects(recs));
    var list := SortAndCollapse(cmps, collapse, window, recs);
    r := Ok(list);
  }

  /** The evaluation both Foo/query and Foo/queryChanges answer from, every read at a
      moment of its own: it lists, in the order asked for and collapsed, exactly what its
      reads put in the answer. Reads of one store give what filtering, sorting and
      collapsing all records of that store would. */
  method EvaluateWith(w: Scope, f: Filter, cmps: seq<Comparator>, collapse: Option<Name>, restrict: Option<set<Id>>,
          window: nat)
      returns (r: Result<seq<Id>>, ghost pic: Table)
    requires w.t in w.sc.types && WellStored(Stored(w)) && Sortable(w, f, cmps) && (collapse.Some? ==> window == 0)
    ensures r.Ok? ==>
      Pictured(w, f, cmps, collapse, restrict, pic) && Answers(Listing(cmps), pic, collapse, window, r.value)
    ensures r.Ok? ==> Comparable(cmps, Matched(Listing(cmps), pic))
    ensures r.Ok? && OneStore(w) ==>
      Answers(Asked(w, f, cmps), Within(Stored(w), restrict), collapse, window, r.value)
    ensures r.Ok? ==> !Fails(w, f, []) && (Fast(w, f, cmps, collapse, restrict) || AllDecided(w, f, restrict))
    ensures r.Err? ==> Fails(w, f, []) || (!Fast(w, f, cmps, collapse, restrict) && SomeErrs(w, f, restrict))
    ensures r.Err? ==> Fails(w, f, []) || exists id :: id in Stored(w) && Errs(w, f, Stored(w)[id])
  {
    r, pic := EvaluateReads(w, f, cmps, collapse, restrict, window);
    if r.Ok? && OneStore(w) { OneStoreAnswer(w, f, cmps, collapse, restrict, pic, window, r.value); }
    if r.Err? && SomeErrs(w, f, restrict) { ErrsSomewhere(w, f, restrict); }
  }

  /** The filter can be evaluated on every record to be loaded. */
  ghost predicate AllDecided(w: Scope, f: Filter, restrict: Option<set<Id>>)
    requires w.t in w.sc.types
  {
    forall id :: Candidate(w, f, restrict, id) && id in Stored(w) ==> Decided(w, f, Stored(w)[id])
  }

  /** On one of them evaluating it may fail. */
  ghost predicate SomeErrs(w: Scope, f: Filter, restrict: Option<set<Id>>)
    requires w.t in w.sc.types
  {
    exists id :: Candidate(w, f, restrict, id) && id in Stored(w) && Yields(w, f, Stored(w)[id], Err)
  }

  lemma ErrsSomewhere(w: Scope, f: Filter, restrict: Option<set<Id>>)
    requires w.t in w.sc.types && SomeErrs(w, f, restrict)
    ensures exists id :: id in Stored(w) && Errs(w, f, Stored(w)[id])
  {
    var id :| Candidate(w, f, restrict, id) && id in Stored(w) && Yields(w, f, Stored(w)[id], Err);
    YieldsErrs(w, f, Stored(w)[id]);
  }

  method EvaluateReads(w: Scope, f: Filter, cmps: seq<Comparator>, collapse: Option<Name>, restrict: Option<set<Id>>,
          window: nat)
      returns (r: Result<seq<Id>>, ghost pic: Table)
    requires w.t in w.sc.types && WellStored(Stored(w)) && Sortable(w, f, cmps) && (collapse.Some? ==> window == 0)
    ensures r.Ok? ==>
      Pictured(w, f, cmps, collapse, restrict, pic) && Answers(Listing(cmps), pic, collapse, window, r.value)
    ensures r.Ok? ==> Comparable(cmps, Matched(Listing(cmps), pic))
    ensures r.Ok? ==> !Fails(w, f, []) && (Fast(w, f, cmps, collapse, restrict) || AllDecided(w, f, restrict))
    ensures r.Err? ==> Fails(w, f, []) || (!Fast(w, f, cmps, collapse, restrict) && SomeErrs(w, f, restrict))
  {
    pic := map[];
    var p := Produce(w, f, []);
    if p.Failed? {
      return Err, pic;
    }
    var candidates := if p.Ids? then p.ids else w.all;
    if restrict.Some? {
      candidates := candidates * restrict.value;
    }
    CandidatesAre(w, f, p, restrict, candidates);
    if p.Ids? && p.exact && cmps == [] && collapse.None? && restrict.None? {
      pic := map id | id in p.ids :: map[];
      var list := FastPath(p.ids, window, pic);
      return Ok(list), pic;
    }
    r, pic := LoadAndSort(w, f, cmps, collapse, restrict, window, candidates);
  }

  lemma CandidatesAre(w: Scope, f: Filter, p: Produced, restrict: Option<set<Id>>, candidates: set<Id>)
    requires w.t in w.sc.types && Produces(w, f, [], p) && !p.Failed?
    requires var from := if p.Ids? then p.ids else w.all;
      candidates == if restrict.Some? then from * restrict.value else from
    ensures forall x :: x in candidates <==> Candidate(w, f, restrict, x)
    ensures p.Ids? <==> Narrows(w, f, [])
    ensures p.Ids? ==> (p.exact <==> Exactly(w, f, [])) && forall x :: x in p.ids <==> Admits(w, f, [], x)
    ensures !Fails(w, f, [])
  {
    OpenAdmits(w, f, []);
  }

  // ---- What the answer is worth ----

  /** Every read is right about the id, the record being as `db` has it, or standing so in
      the query. */
  ghost predicate TrueReads(w: Scope, f: Filter, cmps: seq<Comparator>, db: Table, x: Id)
    requires w.t in w.sc.types
  {
    && TrueScans(w, f, db, x) && (x in w.all <==> x in db) && (x in Stored(w) <==> x in db)
    && (x in db && x in Stored(w) ==> SameStanding(Asked(w, f, cmps), Stored(w)[x], db[x]))
  }

  /** Such an id is in the answer if and only if it matches, whatever happened to other
      records between the reads. */
  lemma JudgedTrue(w: Scope, f: Filter, cmps: seq<Comparator>, collapse: Option<Name>, restrict: Option<set<Id>>,
          db: Table, x: Id)
    requires w.t in w.sc.types && TrueReads(w, f, cmps, db, x)
    ensures Judged(w, f, cmps, collapse, restrict, x) <==> x in Matching(Asked(w, f, cmps), Within(db, restrict))
  {
    AdmitsTrue(w, f, [], db, x);
    if x in db { assert SameStanding(Asked(w, f, cmps), Stored(w)[x], db[x]); }
  }

  /** And two such stand the right way round. */
  lemma SidesTrue(w: Scope, f: Filter, cmps: seq<Comparator>, collapse: Option<Name>, restrict: Option<set<Id>>,
          db: Table, pic: Table, x: Id, y: Id)
    requires w.t in w.sc.types && Pictured(w, f, cmps, collapse, restrict, pic) && x in pic && y in pic
    requires TrueReads(w, f, cmps, db, x) && TrueReads(w, f, cmps, db, y)
    ensures SameSide(Listing(cmps), pic, Asked(w, f, cmps), Within(db, restrict), x, y)
  {
    JudgedTrue(w, f, cmps, collapse, restrict, db, x);
    JudgedTrue(w, f, cmps, collapse, restrict, db, y);
    var q, part := Asked(w, f, cmps), Within(db, restrict);
    if !Fast(w, f, cmps, collapse, restrict) {
      assert SameStanding(q, Stored(w)[x], db[x]) && SameStanding(q, Stored(w)[y], db[y]);
      assert q.cmp(pic[x], pic[y]) == q.cmp(part[x], pic[y]) == q.cmp(part[x], part[y]);
    }
  }

  /** Where every read is right about every id outside `touched`, the answer and the
      result of `db` are alike outside it. */
  lemma AnswerAlike(w: Scope, f: Filter, cmps: seq<Comparator>, collapse: Option<Name>, restrict: Option<set<Id>>,
          db: Table, pic: Table, touched: set<Id>)
    requires w.t in w.sc.types && Pictured(w, f, cmps, collapse, restrict, pic)
    requires forall x :: x !in touched ==> TrueReads(w, f, cmps, db, x)
    ensures AlikeOutside(Listing(cmps), pic, Asked(w, f, cmps), Within(db, restrict), touched)
  {
    assert Matching(Listing(cmps), pic) == pic.Keys;
    forall x | x !in touched
      ensures x in Matching(Listing(cmps), pic) <==> x in Matching(Asked(w, f, cmps), Within(db, restrict))
    {
      JudgedTrue(w, f, cmps, collapse, restrict, db, x);
    }
    forall x, y | x !in touched && y !in touched && x in pic && y in pic
      ensures SameSide(Listing(cmps), pic, Asked(w, f, cmps), Within(db, restrict), x, y)
    {
      SidesTrue(w, f, cmps, collapse, restrict, db, pic, x, y);
    }
  }

  lemma OneStoreReads(w: Scope, f: Filter, cmps: seq<Comparator>, x: Id)
    requires OneStore(w)
    ensures TrueReads(w, f, cmps, Stored(w), x)
  {
    forall at, n, want | Mentions(f, n) ensures PairTrue(w, at, n, want, Stored(w), x) {
      OneStoreTrue(w, at, n, want, x);
    }
  }

  /** With all reads of one store, the answer is the store's. */
  lemma OneStoreAnswer(w: Scope, f: Filter, cmps: seq<Comparator>, collapse: Option<Name>, restrict: Option<set<Id>>,
          pic: Table, window: nat, list: seq<Id>)
    requires OneStore(w) && Pictured(w, f, cmps, collapse, restrict, pic)
    ensures Answers(Listing(cmps), pic, collapse, window, list)
       <==> Answers(Asked(w, f, cmps), Within(Stored(w), restrict), collapse, window, list)
  {
    OneStoreAlike(w, f, cmps, collapse, restrict, pic);
    AnswersCarry(Listing(cmps), pic, Asked(w, f, cmps), Within(Stored(w), restrict), collapse, window, list);
  }

  lemma OneStoreAlike(w: Scope, f: Filter, cmps: seq<Comparator>, collapse: Option<Name>, restrict: Option<set<Id>>,
          pic: Table)
    requires OneStore(w) && Pictured(w, f, cmps, collapse, restrict, pic)
    ensures var q0, q1, db := Listing(cmps), Asked(w, f, cmps), Within(Stored(w), restrict);
      && SameListing(q0, pic, q1, db) && SameListing(q1, db, q0, pic)
      && (collapse.Some? ==> forall x :: x in Matching(q0, pic) ==> x in db && pic[x] == db[x])
  {
    forall x ensures TrueReads(w, f, cmps, Stored(w), x) { OneStoreReads(w, f, cmps, x); }
    AnswerAlike(w, f, cmps, collapse, restrict, Stored(w), pic, {});
  }

  /** Pictures that list alike have the same answers. */
  lemma AnswersCarry(q0: Query, db0: Table, q1: Query, db1: Table, collapse: Option<Name>, window: nat, list: seq<Id>)
    requires SameListing(q0, db0, q1, db1) && SameListing(q1, db1, q0, db0)
    requires collapse.Some? ==> forall x :: x in Matching(q0, db0) ==> x in db1 && db0[x] == db1[x]
    ensures Answers(q0, db0, collapse, window, list) <==> Answers(q1, db1, collapse, window, list)
  {
    if collapse.Some? {
      if IsCollapsed(q0, db0, collapse.value, list) { CollapseCarries(q0, db0, q1, db1, collapse.value, list); }
      if IsCollapsed(q1, db1, collapse.value, list) { CollapseCarries(q1, db1, q0, db0, collapse.value, list); }
    } else {
      forall full ensures IsResult(q0, db0, full) <==> IsResult(q1, db1, full) {
        if IsResult(q0, db0, full) { ListingCarries(q0, db0, q1, db1, full); }
        if IsResult(q1, db1, full) { ListingCarries(q1, db1, q0, db0, full); }
      }
    }
  }

  lemma CollapseCarries(q0: Query, db0: Table, q1: Query, db1: Table, key: Name, list: seq<Id>)
    requires SameListing(q0, db0, q1, db1) && IsCollapsed(q0, db0, key, list)
    requires forall x :: x in Matching(q0, db0) ==> db0[x] == db1[x]
    ensures IsCollapsed(q1, db1, key, list)
  {
    forall x ensures Represents(q0, db0, key, x) <==> Represents(q1, db1, key, x) {
      if x in Matching(q0, db0) {
        forall y | y in Matching(q0, db0) ensures SameSide(q0, db0, q1, db1, x, y) { }
      }
    }
    forall i, j | 0 <= i < j < |list| ensures Before(q1, db1, list[i], list[j]) {
      assert list[i] in list && list[j] in list;
      assert Before(q0, db0, list[i], list[j]) && SameSide(q0, db0, q1, db1, list[i], list[j]);
    }
  }

  /** Over one store of which every loaded value decodes, the answer without a window is
      exactly the list of the records the filter matches, each before all those it is meant
      to come before. */
  lemma AnswerAsMeant(w: Scope, f: Filter, cmps: seq<Comparator>, list: seq<Id>)
    requires w.t in w.sc.types && Sortable(w, f, cmps) && Decodes(cmps, Matched(Asked(w, f, cmps), Stored(w)))
    ensures Answers(Asked(w, f, cmps), Stored(w), None, 0, list) <==>
      && (forall id :: id in list <==> id in Stored(w) && Meaning(w, f, Stored(w)[id]))
      && (forall i, j :: 0 <= i < j < |list| ==>
        && list[i] in Stored(w) && list[j] in Stored(w)
        && Ranked(cmps, Stored(w)[list[i]], Stored(w)[list[j]], list[i], list[j]))
  {
    var q, db := Asked(w, f, cmps), Stored(w);
    ComparatorsOrderly(cmps, q.matches, Matched(q, db));
    var full := Results.Result(q, db);
    SortedAsMeant(cmps, q.matches, db, list);
    if Answers(q, db, None, 0, list) { assert Reads(list, 0, full) && list == full; }
    if IsResult(q, db, list) {
      forall other | IsResult(q, db, other) ensures Reads(list, 0, other) { ResultUnique(q, db, list, other); }
    }
  }

  // ---- Foo/query ----

  datatype Reply = Reply(ids: seq<Id>, position: nat, total: nat)

  /** Where the slice starts: at the anchor's first occurrence, counting from the end, or at
      the position; never before the first result. */
  ghost predicate StartsAt(full: seq<Id>, anchor: Option<Id>, anchorOffset: int, position: int, start: nat) {
    if anchor.Some? then
      exists i ::
        && 0 <= i < |full| && full[i] == anchor.value && anchor.value !in full[..i]
        && start == if i + anchorOffset < 0 then 0 else i + anchorOffset
    else start == if position >= 0 then position else if |full| + position < 0 then 0 else |full| + position
  }

  /** `ids` are the results from `start` on, as many as there are, at most `limit`. */
  ghost predicate SlicedFrom(ids: seq<Id>, full: seq<Id>, start: nat, limit: nat) {
    && |ids| == (if |full| <= start then 0 else if |full| - start < limit then |full| - start else limit)
    && forall i :: 0 <= i < |ids| ==> ids[i] == full[start + i]
  }

  method AnchorAt(list: seq<Id>, anchor: Id) returns (idx: int)
    ensures idx < 0 ==> anchor !in list
    ensures idx >= 0 ==> idx < |list| && list[idx] == anchor && anchor !in list[..idx]
  {
    for i := 0 to |list|
      invariant anchor !in list[..i]
    {
      if list[i] == anchor {
        return i;
      }
    }
    idx := -1;
  }

  /** The reply is the slice of that list the request asks for. */
  ghost predicate Slices(r: Reply, full: seq<Id>, anchor: Option<Id>, anchorOffset: int, position: int, limit: nat) {
    && r.total == |full| && StartsAt(full, anchor, anchorOffset, position, r.position)
    && SlicedFrom(r.ids, full, r.position, limit)
  }

  /** Foo/query: the requested slice of what its reads put in the answer, in order, though
      only the part the request reads was ever put in order. Reads of one store give the
      slice of that store's result. */
  method Answer(w: Scope, f: Filter, cmps: seq<Comparator>, collapse: Option<Name>, anchor: Option<Id>,
          anchorOffset: int, position: int, limit: nat)
      returns (r: Result<Reply>, ghost pic: Table)
    requires w.t in w.sc.types && WellStored(Stored(w)) && Sortable(w, f, cmps)
    ensures r.Ok? ==> Pictured(w, f, cmps, collapse, None, pic) && Comparable(cmps, Matched(Listing(cmps), pic))
    ensures r.Ok? ==> forall full :: Answers(Listing(cmps), pic, collapse, 0, full) ==>
      Slices(r.value, full, anchor, anchorOffset, position, limit)
    ensures r.Ok? && OneStore(w) ==>
      forall full :: Answers(Asked(w, f, cmps), Within(Stored(w), None), collapse, 0, full) ==>
        Slices(r.value, full, anchor, anchorOffset, position, limit)
    ensures r.Err? ==>
      || Fails(w, f, []) || (exists id :: id in Stored(w) && Errs(w, f, Stored(w)[id]))
      || (&& Pictured(w, f, cmps, collapse, None, pic) && Comparable(cmps, Matched(Listing(cmps), pic)) && anchor.Some?
          && forall full :: Answers(Listing(cmps), pic, collapse, 0, full) ==> anchor.value !in full)
  {
    var window: nat := if anchor.None? && position >= 0 && collapse.None? then position + limit else 0;
    var results;
    results, pic := EvaluateWith(w, f, cmps, collapse, None, window);
    if results.Err? {
      return Err, pic;
    }
    var list := results.value;
    forall full | Answers(Listing(cmps), pic, collapse, 0, full) ensures Reads(list, window, full) {
      OneAnswer(cmps, pic, collapse, window, list, full);
    }
    r := CutSlice(list, window, anchor, anchorOffset, position, limit);
    forall full | OneStore(w) && Answers(Asked(w, f, cmps), Within(Stored(w), None), collapse, 0, full)
      ensures Answers(Listing(cmps), pic, collapse, 0, full)
    {
      OneStoreAnswer(w, f, cmps, collapse, None, pic, 0, full);
    }
  }

  /** The slice, from a list that is right wherever the request reads it. */
  method CutSlice(list: seq<Id>, ghost window: nat, anchor: Option<Id>, anchorOffset: int, position: int, limit: nat)
      returns (r: Result<Reply>)
    requires window == 0 || (anchor.None? && position >= 0 && window == position + limit)
    ensures r.Ok? ==> forall full :: Reads(list, window, full) ==>
      Slices(r.value, full, anchor, anchorOffset, position, limit)
    ensures r.Err? ==> anchor.Some? && forall full :: Reads(list, window, full) ==> anchor.value !in full
  {
    var start := position;
    if anchor.Some? {
      var idx := AnchorAt(list, anchor.value);
      if idx < 0 {
        assert forall full :: Reads(list, 0, full) ==> full == list;
        return Err;
      }
      start := idx + anchorOffset;
    } else if start < 0 {
      start := start + |list|;
    }
    if start < 0 {
      start := 0;
    }
    var windowEnd := start + limit;
    if start > |list| {
      windowEnd := start;
    } else if windowEnd > |list| {
      windowEnd := |list|;
    }
    var ids := [];
    if start < |list| {
      ids := list[start..windowEnd];
    }
    r := Ok(Reply(ids, start, |list|));
    forall full | Reads(list, window, full) ensures Slices(r.value, full, anchor, anchorOffset, position, limit) {
      if window == 0 { assert full == list; }
      SameSlice(list, window, full, start, limit, ids);
    }
  }

  lemma OneAnswer(cmps: seq<Comparator>, pic: Table, collapse: Option<Name>, window: nat, list: seq<Id>, full: seq<Id>)
    requires Comparable(cmps, Matched(Listing(cmps), pic)) && (collapse.Some? ==> window == 0)
    requires Answers(Listing(cmps), pic, collapse, window, list) && Answers(Listing(cmps), pic, collapse, 0, full)
    ensures Reads(list, window, full)
  {
    var q := Listing(cmps);
    ComparatorsOrderly(cmps, Everything, Matched(q, pic));
    if collapse.Some? {
      assert Elems(list) == Elems(full) by { assert forall id :: id in list <==> id in full; }
      BeforeAsymmetric(q, pic, Elems(list));
      AscendingUnique(list, full, (a, b) => Before(q, pic, a, b));
    } else {
      var res := Results.Result(q, pic);
      assert Reads(list, window, res) && Reads(full, 0, res);
      assert full == res;
    }
  }

  lemma SameSlice(list: seq<Id>, window: nat, full: seq<Id>, start: nat, limit: nat, ids: seq<Id>)
    requires Reads(list, window, full) && (window == 0 || start + limit <= window)
    requires SlicedFrom(ids, list, start, limit)
    ensures SlicedFrom(ids, full, start, limit)
  {
  }
}
