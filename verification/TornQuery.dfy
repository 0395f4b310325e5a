/** A Foo/query (core/runtime/query.go:60-175) torn by one commit: a record that matches
    before and after it is in no scan, and in no reply. */
module TornQuery {
  import opened Options
  import opened ByteOrder
  import opened Records
  import opened Lists
  import opened Keys
  import opened Store
  import opened Schema
  import opened Results
  import opened History
  import opened Commits
  import opened ObjectDb
  import opened Runs
  import opened RecordSort
  import Splice
  import opened Places
  import opened Planner
  import opened Evaluate
  import opened QueryReads
  import opened TornReads
  import opened QueryPairs
  import opened QueryChanges
  import opened Witnesses

  const WAS: Object := map[P := TWO]
  const NOW: Object := map[P := ONE]

  /** P is 1, or P is 2. */
  const EITHER: Filter := Or([Cond(map[P := ONE]), Cond(map[P := TWO])])

  /** The scan for 1 at one store, all other reads at the next. */
  function Torn(s1: Store, s2: Store): Scope {
    Scope(ITEMS, ITEM, Core,
          (at: Path, n: Name, v: Bytes) => if at == [0] then ScanEqual(s1, ITEM, n, v) else ScanEqual(s2, ITEM, n, v),
          {FIRST}, s2)
  }

  const LOCAL: Local := (n: Name) => None

  // ---- The run ----

  lemma ItemsKeepOrder(staged: Staging)
    ensures AllOrderKept(ITEMS, staged)
  {
  }

  lemma ItemsStep(s: Store, s': Store)
    ensures CommitsKeepOrder(ITEMS, s, s')
  {
    forall staged: Staging, bumped: set<Name> | Committed(ITEMS, s, staged, bumped, s')
      ensures AllOrderKept(ITEMS, staged)
    {
      ItemsKeepOrder(staged);
    }
  }

  lemma ItemsAgree(run: seq<Store>, i: nat)
    requires IsRun(ITEMS, run) && i < |run|
    ensures ValidSchema(ITEMS) && Agrees(ITEMS, run[i])
  {
    ItemsReady(map[]);
    forall j | 0 <= j < i ensures KeepsOrder(ITEMS, run, j) { ItemsStep(run[j], run[j + 1]); }
    AgreesUpTo(ITEMS, run, i);
  }

  /** Commit 1 writes the record as `x`, commit 2 as `y`. */
  ghost predicate TwoWrites(run: seq<Store>, x: Object, y: Object) {
    && |run| == 3 && WroteLast(run[..2], x) && WroteLast(run, y)
  }

  method WriteTwo(x: Object, y: Object) returns (s1: Store, s2: Store, ghost run: seq<Store>)
    requires x.Keys <= {P, Q} && y.Keys <= {P, Q}
    ensures TwoWrites(run, x, y) && run == [EMPTY] + [s1] + [s2]
  {
    var db := WriteOne(x);
    s1 := db.store;
    WriteAgain(db, y, [EMPTY] + [s1], x);
    s2 := db.store;
    run := [EMPTY] + [s1] + [s2];
    assert run[..2] == [EMPTY] + [s1];
  }

  lemma TwoTables(run: seq<Store>, x: Object, y: Object) returns (h: History)
    requires TwoWrites(run, x, y)
    ensures IsHistory(ITEMS, run, ITEM, h) && TwoVersions(h, First(x), First(y))
    ensures Sequence(run[1]) == 1 && Sequence(run[2]) == 2 && StateOf(run[2], ITEM) == 2
  {
    assert run[..2][1] == run[1];
    h := TwoHistory(run, First(x), First(y));
  }

  /** Commits 1 and 2 leave the record as `x` and `y`. */
  ghost predicate TwoVersions(h: History, x: Object, y: Object) {
    |h.states| == 3 && h.states[1] == map[FIRST := x] && h.states[2] == map[FIRST := y]
  }

  lemma TwoHistory(run: seq<Store>, x: Object, y: Object) returns (h: History)
    requires |run| == 3 && IsRun(ITEMS, run) && Sequence(run[1]) == 1 && Sequence(run[2]) == 2
    requires VisibleTable(ITEMS, run[1], ITEM) == map[FIRST := x]
    requires VisibleTable(ITEMS, run[2], ITEM) == map[FIRST := y]
    ensures IsHistory(ITEMS, run, ITEM, h) && TwoVersions(h, x, y)
  {
    h := RunHasHistory(ITEMS, run, ITEM);
    Witnesses.TableAt(run, h, 1);
    Witnesses.TableAt(run, h, 2);
  }

  // ---- The reads ----

  lemma ScanOfMoment(run: seq<Store>, i: nat, m: nat, j: nat, t: Name, n: Name, v: Bytes)
    requires i <= m <= j < |run|
    ensures ScanSeen(run, i, j, t, n, v, ScanEqual(run[m], t, n, v))
  {
    var ids := ScanEqual(run[m], t, n, v);
    forall id | id in ids ensures exists ord :: ThereOnce(run, i, j, Idx(t, n, v, ord, id)) {
      var k :| k in run[m] && k.Idx? && k.typ == t && k.prop == n && k.value == v && k.id == id;
      assert ThereOnce(run, i, j, Idx(t, n, v, k.order, id));
    }
    forall id, ord | id !in ids ensures MissingOnce(run, i, j, Idx(t, n, v, ord, id)) {
      RowListed(run[m], t, n, v, ord, id);
    }
  }

  lemma RowListed(s: Store, t: Name, n: Name, v: Bytes, ord: seq<Bytes>, id: Id)
    ensures Idx(t, n, v, ord, id) in s ==> id in ScanEqual(s, t, n, v)
  {
    var k := Idx(t, n, v, ord, id);
    assert k in s ==> k.id in ScanEqual(s, t, n, v);
  }

  lemma TornSeen(run: seq<Store>, x: Object, y: Object)
    requires TwoWrites(run, x, y)
    ensures PictureSeen(Torn(run[1], run[2]), run, 1, 2)
  {
    var w := Torn(run[1], run[2]);
    forall at, n, v ensures ScanSeen(run, 1, 2, w.t, n, v, w.scan(at, n, v)) {
      ScanOfMoment(run, 1, if at == [0] then 1 else 2, 2, ITEM, n, v);
    }
    forall id ensures PresenceSeen(run, 1, 2, w.t, id, id in w.all) {
      assert ObjectAt(run[2], ITEM, id).Some? <==> id == FIRST;
    }
    forall id ensures LoadSeen(run, 1, 2, w.t, id, ObjectAt(w.s, w.t, id)) {
      assert ObjectAt(run[2], ITEM, id) == ObjectAt(w.s, w.t, id);
    }
  }

  lemma OnlyP(n: Name)
    ensures Mentions(EITHER, n) <==> n == P
  {
    assert EITHER.children[0] == Cond(map[P := ONE]) && EITHER.children[1] == Cond(map[P := TWO]);
    if n == P { assert Mentions(EITHER.children[0], n); }
  }

  lemma TornWatches(s1: Store, s2: Store)
    ensures Watches(Torn(s1, s2), LOCAL, Verbatim, EITHER, [], {P})
  {
    var w := Torn(s1, s2);
    ItemsReady(map[]);
    forall n | Mentions(EITHER, n) ensures PairReads(w.sem, LOCAL, n).Some? { }
    forall p | ReadBy(w.sem, LOCAL, EITHER, p) ensures p in {P} {
      var n :| Mentions(EITHER, n) && Reads1(w.sem, LOCAL, n, p);
      OnlyP(n);
    }
    PShows();
  }

  /** A scan for a value no record has. */
  lemma NotScanned(s: Store, o: Object, v: Raw, x: Id)
    requires ValidSchema(ITEMS) && Agrees(ITEMS, s) && OnlyFirst(s) && ObjectAt(s, ITEM, FIRST) == Some(o)
    requires P in o && o[P] != v
    ensures x !in ScanEqual(s, ITEM, P, v)
  {
    ScanAgrees(ITEMS, s, ITEM, P, v, x);
  }

  lemma PairRulesOut(w: Scope, pairs: map<Name, Raw>, at: Path, n: Name, x: Id)
    requires w.t in w.sc.types && n in pairs && !PairAdmits(w, at, n, pairs[n], x)
    ensures !Admits(w, Cond(pairs), at, x)
  {
  }

  /** Neither scan finds it. */
  lemma NotAdmitted(s1: Store, s2: Store, x: Id)
    requires x !in ScanEqual(s1, ITEM, P, ONE) && x !in ScanEqual(s2, ITEM, P, TWO)
    ensures !Admits(Torn(s1, s2), EITHER, [], x)
  {
    var w, one, two: map<Name, Raw> := Torn(s1, s2), map[P := ONE], map[P := TWO];
    var none: Path := [];
    assert none + [0] == [0] && none + [1] == [1] != [0];
    assert PairSet(w, [0], P, ONE) == Ids(ScanEqual(s1, ITEM, P, ONE), true);
    assert PairSet(w, [1], P, TWO) == Ids(ScanEqual(s2, ITEM, P, TWO), true);
    PairRulesOut(w, one, [0], P, x);
    PairRulesOut(w, two, [1], P, x);
    assert EITHER.children == [Cond(one), Cond(two)];
  }

  lemma NothingJudged(run: seq<Store>, x: Id)
    requires TwoWrites(run, WAS, NOW)
    ensures !Judged(Torn(run[1], run[2]), EITHER, [], None, None, x)
  {
    assert run[..2][1] == run[1];
    ItemsAgree(run, 1);
    ItemsAgree(run, 2);
    Names3();
    Has(WAS, TWO);
    Has(NOW, ONE);
    NotScanned(run[1], First(WAS), ONE, x);
    NotScanned(run[2], First(NOW), TWO, x);
    NotAdmitted(run[1], run[2], x);
  }

  lemma Has(o: Object, v: Raw)
    requires o == map[P := v]
    ensures P in First(o) && First(o)[P] == v
  {
    Names3();
  }

  // ---- What the query means ----

  /** The record matches in both versions. */
  lemma BothMatch(s1: Store, s2: Store, o: Object, v: Raw)
    requires P in o && o[P] == v && (v == ONE || v == TWO)
    ensures Meaning(Torn(s1, s2), EITHER, o)
  {
    var w, one, two: map<Name, Raw> := Torn(s1, s2), map[P := ONE], map[P := TWO];
    assert EITHER.children == [Cond(one), Cond(two)];
    if v == ONE {
      assert Holds(w, P, ONE, o);
      assert Meaning(w, EITHER.children[0], o);
    } else {
      assert Holds(w, P, TWO, o);
      assert Meaning(w, EITHER.children[1], o);
    }
  }

  /** A table of the one record, matching, and its result. */
  lemma OneResult(q: Query, db: Table, o: Object)
    requires db == map[FIRST := o] && q.matches(o) && q.cmp(o, o) == 0
    ensures Orderly(q, Matched(q, db)) && Results.Result(q, db) == [FIRST]
  {
    assert Matching(q, db) == {FIRST} && Matched(q, db) == {o};
    assert IsResult(q, db, [FIRST]);
    ResultUnique(q, db, [FIRST], Results.Result(q, db));
  }

  /** It keeps its place between the two commits. */
  lemma PlaceKept(q: Query, x: Object, y: Object)
    requires q.matches(x) && q.matches(y) && q.cmp(x, x) == 0 && q.cmp(y, y) == 0
    ensures KeepsPlace(q, map[FIRST := x], q, map[FIRST := y], FIRST)
  {
    Irreflexive(FIRST);
  }

  lemma UnsortedOrderly(q: Query, recs: set<Object>)
    requires forall a, b :: q.cmp(a, b) == 0
    ensures Orderly(q, recs)
  {
  }

  lemma AskedUnsorted(w: Scope, f: Filter)
    requires w.t in w.sc.types
    ensures forall a, b :: Asked(w, f, []).cmp(a, b) == 0
  {
  }

  // ---- The call ----

  lemma NeverFails(s1: Store, s2: Store, o: Object)
    ensures !Fails(Torn(s1, s2), EITHER, []) && !Errs(Torn(s1, s2), EITHER, o)
  {
    var w, one, two: map<Name, Raw> := Torn(s1, s2), map[P := ONE], map[P := TWO];
    assert EITHER.children == [Cond(one), Cond(two)];
    PairFine(s1, s2, one, [] + [0], o);
    PairFine(s1, s2, two, [] + [1], o);
  }

  lemma PairFine(s1: Store, s2: Store, pairs: map<Name, Raw>, at: Path, o: Object)
    requires pairs.Keys == {P}
    ensures !Fails(Torn(s1, s2), Cond(pairs), at) && !Errs(Torn(s1, s2), Cond(pairs), o)
  {
    assert PairSet(Torn(s1, s2), at, P, pairs[P]).Ids?;
  }

  lemma TornStored(run: seq<Store>, x: Object, y: Object)
    requires TwoWrites(run, x, y)
    ensures WellStored(Stored(Torn(run[1], run[2]))) && Sortable(Torn(run[1], run[2]), EITHER, [])
  {
    var w := Torn(run[1], run[2]);
    forall id | id in Stored(w) ensures id == FIRST && Stored(w)[id] == First(y) { StoredAt(w, id); }
  }

  lemma TornSpan(run: seq<Store>, h: History)
    requires TwoWrites(run, WAS, NOW) && IsHistory(ITEMS, run, ITEM, h)
    ensures CallSpan(Torn(run[1], run[2]), LOCAL, EITHER, [], {P}, run, h, 1, 2)
  {
    TornWatches(run[1], run[2]);
    TornSeen(run, WAS, NOW);
    ItemsAgree(run, 1);
  }

  /** The reply holds nothing. */
  method TornReply(w: Scope, ghost run: seq<Store>, ghost h: History) returns (reply: Evaluate.Reply)
    requires TwoWrites(run, WAS, NOW) && IsHistory(ITEMS, run, ITEM, h) && w == Torn(run[1], run[2])
    requires StateOf(run[2], ITEM) == 2 == Sequence(run[2])
    ensures reply.ids == [] && reply.total == 0
  {
    TornReady(run, h);
    TornAnswered(run[1], run[2]);
    forall pic: Table ensures ListsNothing(w, EITHER, pic) { NothingPictured(run, pic); }
    reply := EmptyReply(w, EITHER, LOCAL, {P}, run, h, 1, 2, 2);
  }

  /** All that a call needs; it has no sort. */
  ghost predicate Unsorted(w: Scope, f: Filter, local: Local, props: set<Name>, run: seq<Store>, h: History,
          i: nat, j: nat, state: nat) {
    && CallSpan(w, local, f, [], props, run, h, i, j) && WellStored(Stored(w)) && Sortable(w, f, [])
    && StateSeen(run, w.t, j, state)
    && Orderly(Asked(w, f, []), Matched(Asked(w, f, []), QueryPairs.TableAt(h, state)))
  }

  /** Where every picture lists nothing, so does the reply. */
  method EmptyReply(w: Scope, f: Filter, ghost local: Local, ghost props: set<Name>, ghost run: seq<Store>,
          ghost h: History, ghost i: nat, ghost j: nat, state: nat)
      returns (reply: Evaluate.Reply)
    requires Unsorted(w, f, local, props, run, h, i, j, state)
    requires !Fails(w, f, []) && forall o :: !Errs(w, f, o)
    requires forall pic: Table :: ListsNothing(w, f, pic)
    ensures reply.ids == [] && reply.total == 0
  {
    var r;
    ghost var pic;
    r, pic := QueryInRun(w, f, [], None, 0, 0, 10, state, local, props, run, h, i, j);
    assert ListsNothing(w, f, pic);
    reply := r.value;
  }

  lemma TornReady(run: seq<Store>, h: History)
    requires TwoWrites(run, WAS, NOW) && IsHistory(ITEMS, run, ITEM, h)
    requires StateOf(run[2], ITEM) == 2 == Sequence(run[2])
    ensures Unsorted(Torn(run[1], run[2]), EITHER, LOCAL, {P}, run, h, 1, 2, 2)
  {
    var w := Torn(run[1], run[2]);
    TornSpan(run, h);
    TornStored(run, WAS, NOW);
    AskedUnsorted(w, EITHER);
    UnsortedOrderly(Asked(w, EITHER, []), Matched(Asked(w, EITHER, []), QueryPairs.TableAt(h, 2)));
  }

  lemma TornAnswered(s1: Store, s2: Store)
    ensures !Fails(Torn(s1, s2), EITHER, []) && forall o :: !Errs(Torn(s1, s2), EITHER, o)
  {
    NeverFails(s1, s2, map[]);
    forall o ensures !Errs(Torn(s1, s2), EITHER, o) { NeverFails(s1, s2, o); }
  }

  ghost predicate ListsNothing(w: Scope, f: Filter, pic: Table)
    requires w.t in w.sc.types
  {
    Pictured(w, f, [], None, None, pic) && Comparable([], Matched(Listing([]), pic)) ==> WholeList([], pic) == []
  }

  lemma NothingPictured(run: seq<Store>, pic: Table)
    requires TwoWrites(run, WAS, NOW)
    ensures ListsNothing(Torn(run[1], run[2]), EITHER, pic)
  {
    if Pictured(Torn(run[1], run[2]), EITHER, [], None, None, pic) && Comparable([], Matched(Listing([]), pic)) {
      forall x ensures x !in pic { NothingJudged(run, x); }
      WholeAnswers([], pic);
      HeadIn(WholeList([], pic));
    }
  }

  lemma HeadIn(s: seq<Id>)
    ensures s != [] ==> s[0] in s
  {
  }

  /** A client that goes on from there is never told: the next reply adds nothing. */
  lemma StaysHidden(h: History, q: Query, o: Object)
    requires Setting(h, q, false) && |h.states| == 3 && h.states[2] == map[FIRST := o]
    requires Results.Result(q, h.states[2]) == [FIRST] && TypeState(h, 2) == 2
    ensures var c, k := Client([], 2), Call(2, 2, 2, 2, Positions);
      Answered(h, q, false, c, k) && Spliced(h, q, false, c, k).list == [] != Results.Result(q, h.states[2])
  {
    assert NetCreated(h, 2, 2) == {} && NetUpdated(h, 2, 2) == {};
    var none: seq<Id> := [];
    WithoutNone(none, {});
    assert Splice.AddedOf([FIRST], {}) == Splice.AddedOf(none, {}) by { assert [FIRST][..0] == none; }
  }

  lemma TornFacts(run: seq<Store>, h: History)
    requires TwoWrites(run, WAS, NOW) && IsHistory(ITEMS, run, ITEM, h) && TwoVersions(h, First(WAS), First(NOW))
    requires Sequence(run[2]) == 2
    ensures var q := Asked(Torn(run[1], run[2]), EITHER, []);
      && Setting(h, q, false) && Results.Result(q, h.states[2]) == [FIRST]
      && FIRST in Matching(q, h.states[1]) && KeepsPlace(q, h.states[1], q, h.states[2], FIRST)
  {
    var w := Torn(run[1], run[2]);
    var q := Asked(w, EITHER, []);
    Has(WAS, TWO);
    Has(NOW, ONE);
    BothMatch(run[1], run[2], First(WAS), TWO);
    BothMatch(run[1], run[2], First(NOW), ONE);
    AskedUnsorted(w, EITHER);
    forall n | 0 <= n < |h.states| ensures Orderly(q, Matched(q, h.states[n])) {
      UnsortedOrderly(q, Matched(q, h.states[n]));
    }
    OneResult(q, h.states[2], First(NOW));
    PlaceKept(q, First(WAS), First(NOW));
  }

  /** A commit that changes the record moves the state. */
  lemma StateMoved(h: History, x: Object, y: Object)
    requires Legal(h) && TwoVersions(h, x, y) && x != y
    ensures TypeState(h, 2) == 2
  {
    assert LegalStep(h.states[1], h.entries[1], h.states[2]);
    assert FIRST in h.states[1] && FIRST in h.entries[1].All();
  }

  /** The record is 2, the scan for 1 runs, a commit makes it 1, the scan for 2 runs, the
      state is read. The reply is empty under a state whose result is the record, which
      matched before and after and kept its place; and the next reply adds nothing. */
  method TornMissed() returns (reply: Evaluate.Reply, ghost run: seq<Store>, ghost h: History)
    ensures TwoWrites(run, WAS, NOW) && IsHistory(ITEMS, run, ITEM, h) && |h.states| == 3
    ensures CallSpan(Torn(run[1], run[2]), LOCAL, EITHER, [], {P}, run, h, 1, 2) && StateSeen(run, ITEM, 2, 2)
    ensures reply.ids == [] && reply.total == 0
    ensures var q := Asked(Torn(run[1], run[2]), EITHER, []);
      && FIRST in Matching(q, h.states[1]) && KeepsPlace(q, h.states[1], q, h.states[2], FIRST)
      && Setting(h, q, false) && Results.Result(q, h.states[2]) == [FIRST]
      && var c, k := Client([], 2), Call(2, 2, 2, 2, Positions);
         Answered(h, q, false, c, k) && Spliced(h, q, false, c, k).list == []
  {
    var s1, s2;
    s1, s2, run := WriteTwo(WAS, NOW);
    h := TwoTables(run, WAS, NOW);
    TornSpan(run, h);
    reply := TornReply(Torn(s1, s2), run, h);
    TornFacts(run, h);
    Names3();
    Has(WAS, TWO);
    Has(NOW, ONE);
    StateMoved(h, First(WAS), First(NOW));
    StaysHidden(h, Asked(Torn(s1, s2), EITHER, []), First(NOW));
  }
}
