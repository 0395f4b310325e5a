/** Foo/query over a run (core/runtime/query.go:60-175, section 5.5 of RFC 8620): it
    evaluates, every read at a moment of its own, and then reads the state it reports. */
module QueryPairs {
  import opened Options
  import opened ByteOrder
  import opened Records
  import opened Lists
  import opened Store
  import opened Schema
  import opened Results
  import opened History
  import opened Commits
  import opened Runs
  import opened Comparators
  import opened RecordSort
  import opened Places
  import opened Planner
  import opened Evaluate
  import opened QueryReads
  import opened TornReads

  /** The whole list of a reply that is not collapsed. */
  ghost function WholeList(cmps: seq<Comparator>, pic: Table): seq<Id>
    requires Comparable(cmps, Matched(Listing(cmps), pic))
  {
    ComparatorsOrderly(cmps, Everything, Matched(Listing(cmps), pic));
    Results.Result(Listing(cmps), pic)
  }

  /** The ids some commit touched between the first read and the state read. */
  ghost function Disturbed(run: seq<Store>, h: History, i: nat, j: nat): set<Id>
    requires i <= j < |run|
  {
    if Window(h, Sequence(run[i]), Sequence(run[j])) then Touched(h, Sequence(run[i]), Sequence(run[j])) else {}
  }

  /** The visible records after commit n. */
  ghost function TableAt(h: History, n: nat): Table { if n < |h.states| then h.states[n] else map[] }

  /** The state a call may report at a moment: the type's, or its companion's if that is
      later. */
  ghost predicate StateSeen(run: seq<Store>, t: Name, at: nat, state: nat) {
    at < |run| && StateOf(run[at], t) <= state <= Sequence(run[at])
  }

  /** A store's state string is one the history's type could report then. */
  lemma StateInRun(sc: Schema, run: seq<Store>, t: Name, h: History, at: nat, state: nat)
    requires IsHistory(sc, run, t, h) && StateSeen(run, t, at, state)
    ensures Window(h, state, Sequence(run[at])) && TypeState(h, Sequence(run[at])) <= state
    ensures h.states[state] == h.states[Sequence(run[at])] == VisibleTable(sc, run[at], t)
  {
    SequenceWithin(sc, run, t, h, at);
    assert Recorded(sc, run[at], t, h);
    LastTouched(h, state, Sequence(run[at]));
    QuietWindow(h, state, Sequence(run[at]));
  }

  lemma {:induction false} LastTouched(h: History, a: nat, b: nat)
    requires Window(h, a, b) && forall n :: a < n <= b ==> Untouched(h, n)
    ensures TypeState(h, b) <= a
  {
    if a < b {
      assert Untouched(h, b);
      LastTouched(h, a, b - 1);
    }
  }

  /** A type's own producers keep their promise about records that stood still. */
  ghost predicate ProducersKeep(w: Scope, f: Filter, db: Table, disturbed: set<Id>)
    requires w.t in w.sc.types
  {
    w.sem.Custom? ==> forall x :: x !in disturbed ==> TrueScans(w, f, db, x)
  }

  /** The reads of a call, in a run and its history: from the first read at `i` to the state
      read at `j`. */
  ghost predicate CallSpan(w: Scope, local: Local, f: Filter, cmps: seq<Comparator>, props: set<Name>, run: seq<Store>,
          h: History, i: nat, j: nat) {
    && Span(w, local, Verbatim, f, cmps, props, run, i, j) && IsHistory(w.sc, run, w.t, h)
    && ProducersKeep(w, f, VisibleTable(w.sc, run[j], w.t), Disturbed(run, h, i, j))
  }

  lemma SpanWindow(sc: Schema, run: seq<Store>, t: Name, h: History, i: nat, j: nat)
    requires IsHistory(sc, run, t, h) && i <= j < |run|
    ensures Window(h, Sequence(run[i]), Sequence(run[j]))
  {
    SequenceWithin(sc, run, t, h, j);
    FloorTellsTruth(sc, run, i, j);
  }

  lemma UndisturbedReads(w: Scope, local: Local, f: Filter, cmps: seq<Comparator>, props: set<Name>, run: seq<Store>,
          h: History, i: nat, j: nat, x: Id)
    requires CallSpan(w, local, f, cmps, props, run, h, i, j) && x !in Disturbed(run, h, i, j)
    ensures TrueReads(w, f, cmps, VisibleTable(w.sc, run[j], w.t), x)
  {
    SpanWindow(w.sc, run, w.t, h, i, j);
    UntouchedStill(w.sc, run, w.t, h, i, j, x, props);
    StillReads(w, local, Verbatim, f, cmps, props, run, i, j, j, x);
  }

  /** A record untouched from the first read to the state read is in the answer if and only
      if it matches at the state, whatever commits landed between the scans. */
  lemma UndisturbedJudged(w: Scope, local: Local, f: Filter, cmps: seq<Comparator>, props: set<Name>, run: seq<Store>,
          h: History, i: nat, j: nat, state: nat, x: Id)
    requires CallSpan(w, local, f, cmps, props, run, h, i, j) && StateSeen(run, w.t, j, state)
    requires x !in Disturbed(run, h, i, j)
    ensures Judged(w, f, cmps, None, None, x) <==> x in Matching(Asked(w, f, cmps), TableAt(h, state))
  {
    ReportedTable(w.sc, run, w.t, h, j, state);
    UndisturbedReads(w, local, f, cmps, props, run, h, i, j, x);
    JudgedAsIn(w, f, cmps, TableAt(h, state), x);
  }

  lemma JudgedAsIn(w: Scope, f: Filter, cmps: seq<Comparator>, db: Table, x: Id)
    requires w.t in w.sc.types && TrueReads(w, f, cmps, db, x)
    ensures Judged(w, f, cmps, None, None, x) <==> x in Matching(Asked(w, f, cmps), db)
  {
    JudgedTrue(w, f, cmps, None, None, db, x);
    assert Within(db, None) == db;
  }

  lemma ReportedTable(sc: Schema, run: seq<Store>, t: Name, h: History, at: nat, state: nat)
    requires IsHistory(sc, run, t, h) && StateSeen(run, t, at, state)
    ensures TableAt(h, state) == VisibleTable(sc, run[at], t)
  {
    StateInRun(sc, run, t, h, at, state);
  }

  /** The list and the state of a reply belong together if and only if every record touched
      between the first read and the state read was judged by its reads, and placed by
      what was loaded of it, as at the state. */
  lemma QueryPairIff(w: Scope, local: Local, f: Filter, cmps: seq<Comparator>, props: set<Name>, run: seq<Store>,
          h: History, i: nat, j: nat, pic: Table, state: nat)
    requires CallSpan(w, local, f, cmps, props, run, h, i, j) && StateSeen(run, w.t, j, state)
    requires Pictured(w, f, cmps, None, None, pic) && Comparable(cmps, Matched(Listing(cmps), pic))
    requires var q := Asked(w, f, cmps); Orderly(q, Matched(q, TableAt(h, state)))
    ensures WholeList(cmps, pic) == Results.Result(Asked(w, f, cmps), TableAt(h, state))
       <==> forall x :: x in Disturbed(run, h, i, j) ==>
              KeepsPlace(Listing(cmps), pic, Asked(w, f, cmps), TableAt(h, state), x)
  {
    var db, off := VisibleTable(w.sc, run[j], w.t), Disturbed(run, h, i, j);
    ReportedTable(w.sc, run, w.t, h, j, state);
    forall x | x !in off ensures TrueReads(w, f, cmps, db, x) {
      UndisturbedReads(w, local, f, cmps, props, run, h, i, j, x);
    }
    AnswerAlike(w, f, cmps, None, None, db, pic, off);
    assert Within(db, None) == db == TableAt(h, state);
    ComparatorsOrderly(cmps, Everything, Matched(Listing(cmps), pic));
    PlacesDecide(Listing(cmps), pic, Asked(w, f, cmps), db, off);
  }

  /** Foo/query anywhere in any run: the slice of the list its reads make, under the state
      read last. */
  method QueryInRun(w: Scope, f: Filter, cmps: seq<Comparator>, anchor: Option<Id>, anchorOffset: int, position: int,
          limit: nat, state: nat, ghost local: Local, ghost props: set<Name>, ghost run: seq<Store>, ghost h: History,
          ghost i: nat, ghost j: nat)
      returns (r: Options.Result<Reply>, ghost pic: Table)
    requires CallSpan(w, local, f, cmps, props, run, h, i, j) && StateSeen(run, w.t, j, state)
    requires WellStored(Stored(w)) && Sortable(w, f, cmps)
    requires var q := Asked(w, f, cmps); Orderly(q, Matched(q, TableAt(h, state)))
    ensures r.Ok? ==> Pictured(w, f, cmps, None, None, pic) && Comparable(cmps, Matched(Listing(cmps), pic))
    ensures r.Ok? ==> Slices(r.value, WholeList(cmps, pic), anchor, anchorOffset, position, limit)
    ensures r.Ok? ==> (WholeList(cmps, pic) == Results.Result(Asked(w, f, cmps), TableAt(h, state))
      <==> forall x :: x in Disturbed(run, h, i, j) ==>
             KeepsPlace(Listing(cmps), pic, Asked(w, f, cmps), TableAt(h, state), x))
    ensures r.Err? ==>
      || Fails(w, f, []) || (exists id :: id in Stored(w) && Errs(w, f, Stored(w)[id]))
      || (anchor.Some? && !Judged(w, f, cmps, None, None, anchor.value))
  {
    r, pic := Answer(w, f, cmps, None, anchor, anchorOffset, position, limit);
    if r.Ok? {
      QueryPairIff(w, local, f, cmps, props, run, h, i, j, pic, state);
      WholeAnswers(cmps, pic);
    } else if anchor.Some? && Comparable(cmps, Matched(Listing(cmps), pic)) {
      WholeAnswers(cmps, pic);
    }
  }

  lemma WholeAnswers(cmps: seq<Comparator>, pic: Table)
    requires Comparable(cmps, Matched(Listing(cmps), pic))
    ensures Answers(Listing(cmps), pic, None, 0, WholeList(cmps, pic))
    ensures forall x :: x in WholeList(cmps, pic) <==> x in pic
  {
    ComparatorsOrderly(cmps, Everything, Matched(Listing(cmps), pic));
    var list := WholeList(cmps, pic);
    forall full | IsResult(Listing(cmps), pic, full) ensures Reads(list, 0, full) {
      ResultUnique(Listing(cmps), pic, list, full);
    }
    assert forall x :: x in list <==> x in Elems(list);
  }
}
