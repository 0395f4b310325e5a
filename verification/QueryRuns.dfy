/** Foo/queryChanges (core/runtime/query.go:275-542) over a run of the database: what one
    attempt reads at its own moments, and that its reply is the one module QueryChanges
    reasons about. */
module QueryRuns {
  import opened Options
  import opened ByteOrder
  import opened Records
  import opened Lists
  import opened Splice
  import opened Store
  import opened Schema
  import opened Results
  import opened History
  import opened Commits
  import opened ChangeLog
  import opened Runs
  import opened LogReaders
  import opened QueryChanges
  import opened Comparators
  import opened RecordSort
  import opened Places
  import opened Planner
  import opened Evaluate
  import opened QueryReads
  import opened TornReads
  import opened QueryPairs

  // ---- The call ----

  /** What one attempt reads besides the evaluation: the sequence, the state, the log, the
      changed records, and, when it has positions to report, the sequence again. */
  datatype CallReads = CallReads(global: nat, state: nat, upTo: nat, floor: nat, rows: seq<LogRow>, floorAfter: nat,
                                 record: Id -> Option<Object>, again: nat)

  /** lastAt: the last record or index row read; againAt: the second look at the sequence. */
  datatype CallMoments = CallMoments(globalAt: nat, stateAt: nat, log: Moments, recordAt: Id -> nat,
                                     lastAt: nat, againAt: nat)

  ghost predicate CallSeenIn(run: seq<Store>, t: Name, since: nat, m: CallMoments, seen: CallReads) {
    && SinceSeenIn(run, since, m.log, seen.upTo, seen.floor, seen.rows, seen.floorAfter)
    && m.globalAt <= m.stateAt <= m.log.seqAt && m.log.floorAgainAt <= m.lastAt <= m.againAt < |run|
    && seen.global == Sequence(run[m.globalAt]) && seen.again == Sequence(run[m.againAt])
    && StateSeen(run, t, m.stateAt, seen.state)
    && (forall id :: RecordSeen(run, t, m, seen, id))
  }

  ghost predicate RecordSeen(run: seq<Store>, t: Name, m: CallMoments, seen: CallReads, id: Id) {
    && m.log.seqAt <= m.recordAt(id) <= m.lastAt < |run|
    && seen.record(id) == ObjectAt(run[m.recordAt(id)], t, id)
  }

  datatype Reply = Nothing | Dropped(removed: set<Id>) | Changed(removed: set<Id>, added: seq<AddedItem<Id>>)

  /** The call as QueryChanges sees it. */
  ghost function CallOf(run: seq<Store>, m: CallMoments, seen: CallReads, r: Reply): Call
    requires m.stateAt < |run| && m.lastAt < |run|
  {
    var answer := match r case Nothing => Unchanged case Dropped(_) => NoPositions case Changed(_, _) => Positions;
    Call(Sequence(run[m.stateAt]), seen.state, seen.upTo, Sequence(run[m.lastAt]), answer)
  }

  /** What a client makes of its list. */
  function AfterReply(list: seq<Id>, r: Reply): seq<Id> {
    match r
    case Nothing => list
    case Dropped(removed) => Without(list, removed)
    case Changed(removed, added) => SpliceReply(list, removed, added)
  }

  /** What the reply does to any cached list is what that call does. */
  ghost predicate Replies(h: History, q: Query, immutable: bool, since: nat, k: Call, r: Reply)
    requires Setting(h, q, immutable)
  {
    forall list :: RepliesTo(h, q, immutable, Client(list, since), k, r)
  }

  ghost predicate RepliesTo(h: History, q: Query, immutable: bool, c: Client, k: Call, r: Reply)
    requires Setting(h, q, immutable)
  {
    Answered(h, q, immutable, c, k) && Spliced(h, q, immutable, c, k) == Client(AfterReply(c.list, r), k.state)
  }

  /** The readings are in order. */
  ghost predicate Timely(h: History, since: nat, k: Call) {
    && Window(h, k.stateRead, k.upTo) && Window(h, k.upTo, k.done)
    && since <= k.stateRead && TypeState(h, k.stateRead) <= k.state <= k.stateRead
  }

  lemma ChangedReplies(h: History, q: Query, immutable: bool, since: nat, k: Call, ch: Change, results: seq<Id>)
    requires Setting(h, q, immutable) && k.answer.Positions? && NetChangeIs(h, since, k.upTo, ch) && Timely(h, since, k)
    requires k.done == k.upTo && results == Results.Result(q, h.states[k.upTo])
    ensures var r := Changed(RemovedSet(ch.created, ch.updated, ch.destroyed, {}, immutable),
                             AddedOf(results, AddCand(ch.created, ch.updated, {}, immutable)));
      Replies(h, q, immutable, since, k, r)
  {
  }

  lemma DroppedReplies(h: History, q: Query, immutable: bool, since: nat, k: Call, ch: Change)
    requires Setting(h, q, immutable) && k.answer.NoPositions?
    requires NetChangeIs(h, since, k.upTo, ch) && Timely(h, since, k)
    requires forall id :: id in AddCand(ch.created, ch.updated, {}, immutable) && Shows(h, q, k.upTo, id)
               ==> id in Moved(h, immutable, k.upTo, k.done)
    ensures Replies(h, q, immutable, since, k, Dropped(RemovedSet(ch.created, ch.updated, ch.destroyed, {}, immutable)))
  {
  }

  lemma NothingReplies(h: History, q: Query, immutable: bool, since: nat, k: Call)
    requires Setting(h, q, immutable) && k.answer.Unchanged? && Timely(h, since, k) && k.state <= since
    ensures Replies(h, q, immutable, since, k, Nothing)
  {
  }

  /** Tier 1: does any changed record match now? */
  method AnyMatches(w: Scope, f: Filter, ids: set<Id>, record: Id -> Option<Object>) returns (r: Options.Result<bool>)
    requires w.t in w.sc.types
    ensures r == Ok(false) ==> forall id :: id in ids && record(id).Some? ==> !Meaning(w, f, record(id).value)
    ensures r == Ok(true) ==> exists id :: id in ids && record(id).Some? && Meaning(w, f, record(id).value)
    ensures r.Err? ==> exists id :: id in ids && record(id).Some? && Errs(w, f, record(id).value)
  {
    var todo, any := ids, false;
    while todo != {}
      invariant todo <= ids
      invariant any ==> exists id :: id in ids && record(id).Some? && Meaning(w, f, record(id).value)
      invariant !any ==> forall id :: id in ids - todo && record(id).Some? ==> !Meaning(w, f, record(id).value)
    {
      var id :| id in todo;
      todo := todo - {id};
      if record(id).Some? {
        var ok := Matches(w, f, record(id).value);
        if ok.Err? {
          return Err;
        }
        any := any || ok.value;
      }
    }
    r := Ok(any);
  }

  // ---- What a call may rely on ----

  /** A call on a type of a run: its reads, and what the query watches. On the immutable
      diet it watches only immutable properties, which updates keep, and no id comes back. */
  ghost predicate Ready(w: Scope, local: Local, norm: Raw -> Raw, f: Filter, cmps: seq<Comparator>, props: set<Name>,
          run: seq<Store>, h: History, since: nat, m: CallMoments, seen: CallReads, immutable: bool) {
    && IsHistory(w.sc, run, w.t, h) && CallSeenIn(run, w.t, since, m, seen)
    && Span(w, local, norm, f, cmps, props, run, m.log.seqAt, m.lastAt)
    && (forall n :: 0 <= n < |h.states| ==> Orderly(Asked(w, f, cmps), Matched(Asked(w, f, cmps), h.states[n])))
    && (immutable ==> NoReuse(h) && KeepsImmutable(w.sc.types[w.t], h, norm) && OnlyImmutable(w.sc.types[w.t], props))
  }

  ghost predicate OnlyImmutable(ty: Type, props: set<Name>) {
    forall p :: p in props ==> p in ty.props && ty.props[p].immutable
  }

  lemma SettingHolds(w: Scope, local: Local, norm: Raw -> Raw, f: Filter, cmps: seq<Comparator>, props: set<Name>,
          run: seq<Store>, h: History, since: nat, m: CallMoments, seen: CallReads, immutable: bool)
    requires Ready(w, local, norm, f, cmps, props, run, h, since, m, seen, immutable)
    ensures Setting(h, Asked(w, f, cmps), immutable)
  {
    if immutable {
      QueryReadsOnly(w, local, norm, f, cmps, props);
      DietKeepsStanding(w.sc.types[w.t], h, Asked(w, f, cmps), props, norm);
    }
  }

  lemma CallTimely(sc: Schema, t: Name, run: seq<Store>, h: History, since: nat, m: CallMoments, seen: CallReads,
          r: Reply)
    requires IsHistory(sc, run, t, h) && CallSeenIn(run, t, since, m, seen) && since <= seen.global
    ensures Timely(h, since, CallOf(run, m, seen, r))
  {
    StateInRun(sc, run, t, h, m.stateAt, seen.state);
    FloorTellsTruth(sc, run, m.globalAt, m.stateAt);
    SpanWindow(sc, run, t, h, m.stateAt, m.log.seqAt);
    SpanWindow(sc, run, t, h, m.log.seqAt, m.lastAt);
  }

  /** A record that did not move while the call read stood still in all the query reads. */
  lemma UnmovedStill(w: Scope, local: Local, norm: Raw -> Raw, f: Filter, cmps: seq<Comparator>, props: set<Name>,
          run: seq<Store>, h: History, since: nat, m: CallMoments, seen: CallReads, immutable: bool, id: Id)
    requires Ready(w, local, norm, f, cmps, props, run, h, since, m, seen, immutable)
    requires Window(h, seen.upTo, Sequence(run[m.lastAt]))
    requires id !in Moved(h, immutable, seen.upTo, Sequence(run[m.lastAt]))
    ensures StoodStill(run, m.log.seqAt, m.lastAt, w.t, id, props, norm)
  {
    if immutable {
      ImmutableStill(w.sc, run, w.t, h, m.log.seqAt, m.lastAt, id, props, norm);
    } else {
      UntouchedStill(w.sc, run, w.t, h, m.log.seqAt, m.lastAt, id, props);
      StillCoarser(run, m.log.seqAt, m.lastAt, w.t, id, props, norm);
    }
  }

  lemma StillCoarser(run: seq<Store>, i: nat, j: nat, t: Name, id: Id, props: set<Name>, norm: Raw -> Raw)
    requires StoodStill(run, i, j, t, id, props, Verbatim)
    ensures StoodStill(run, i, j, t, id, props, norm)
  {
    forall k | i <= k <= j < |run| ensures SameRecord(ObjectAt(run[i], t, id), ObjectAt(run[k], t, id), props, norm) {
      var a, b := ObjectAt(run[i], t, id), ObjectAt(run[k], t, id);
      assert SameRecord(a, b, props, Verbatim);
      if a.Some? {
        forall p | p in props ensures NormAt(a.value, p, norm) == NormAt(b.value, p, norm) {
          assert NormAt(a.value, p, Verbatim) == NormAt(b.value, p, Verbatim);
        }
      }
    }
  }

  // ---- Tier 1 ----

  /** A record that does not match as it was read did not show then. */
  lemma ReadDoesNotShow(w: Scope, local: Local, norm: Raw -> Raw, f: Filter, cmps: seq<Comparator>, props: set<Name>,
          run: seq<Store>, h: History, i: nat, id: Id)
    requires IsHistory(w.sc, run, w.t, h) && i < |run| && Watches(w, local, norm, f, cmps, props)
    requires ObjectAt(run[i], w.t, id).Some? ==> !Meaning(w, f, ObjectAt(run[i], w.t, id).value)
    ensures Sequence(run[i]) < |h.states| && !Shows(h, Asked(w, f, cmps), Sequence(run[i]), id)
  {
    assert Recorded(w.sc, run[i], w.t, h);
    VisibleAt(w.sc, run[i], w.t, id);
    var o := ObjectAt(run[i], w.t, id);
    if o.Some? { SeenStanding(w, local, norm, f, cmps, props, o.value, o.value); }
  }

  /** A candidate that did not match as it was read did not show at the bound, or moved. */
  lemma NoneMatched(w: Scope, local: Local, norm: Raw -> Raw, f: Filter, cmps: seq<Comparator>, props: set<Name>,
          run: seq<Store>, h: History, since: nat, m: CallMoments, seen: CallReads, immutable: bool, id: Id)
    requires Ready(w, local, norm, f, cmps, props, run, h, since, m, seen, immutable)
    requires seen.record(id).Some? ==> !Meaning(w, f, seen.record(id).value)
    ensures Window(h, seen.upTo, Sequence(run[m.lastAt]))
    ensures Shows(h, Asked(w, f, cmps), seen.upTo, id) ==> id in Moved(h, immutable, seen.upTo, Sequence(run[m.lastAt]))
  {
    assert RecordSeen(run, w.t, m, seen, id);
    var i := m.recordAt(id);
    SettingHolds(w, local, norm, f, cmps, props, run, h, since, m, seen, immutable);
    SpanWindow(w.sc, run, w.t, h, m.log.seqAt, i);
    SpanWindow(w.sc, run, w.t, h, i, m.lastAt);
    ReadDoesNotShow(w, local, norm, f, cmps, props, run, h, i, id);
    ReadingAnswers(h, Asked(w, f, cmps), immutable, seen.upTo, Sequence(run[i]), Sequence(run[m.lastAt]), id);
  }

  // ---- Tier 2 ----

  /** A type's own producers keep their promise about records that did not move. */
  ghost predicate Promised(w: Scope, f: Filter, run: seq<Store>, h: History, m: CallMoments, seen: CallReads,
          immutable: bool)
    requires w.t in w.sc.types && m.log.seqAt < |run| && m.lastAt < |run|
  {
    w.sem.Custom? && Window(h, seen.upTo, Sequence(run[m.lastAt])) ==>
      forall x :: x !in Moved(h, immutable, seen.upTo, Sequence(run[m.lastAt])) ==>
        TrueScans(w, f, VisibleTable(w.sc, run[m.log.seqAt], w.t), x)
  }

  /** The torn evaluation is right about a record that did not move. */
  lemma UnmovedReads(w: Scope, local: Local, norm: Raw -> Raw, f: Filter, cmps: seq<Comparator>, props: set<Name>,
          run: seq<Store>, h: History, since: nat, m: CallMoments, seen: CallReads, immutable: bool, id: Id)
    requires Ready(w, local, norm, f, cmps, props, run, h, since, m, seen, immutable)
    requires Promised(w, f, run, h, m, seen, immutable) && Window(h, seen.upTo, Sequence(run[m.lastAt]))
    requires id !in Moved(h, immutable, seen.upTo, Sequence(run[m.lastAt]))
    ensures TrueReads(w, f, cmps, h.states[seen.upTo], id)
  {
    UnmovedStill(w, local, norm, f, cmps, props, run, h, since, m, seen, immutable, id);
    StillReads(w, local, norm, f, cmps, props, run, m.log.seqAt, m.log.seqAt, m.lastAt, id);
    assert Recorded(w.sc, run[m.log.seqAt], w.t, h);
  }

  /** So a candidate that shows at the bound, and that the evaluation does not list, moved. */
  lemma UnlistedMoved(w: Scope, local: Local, norm: Raw -> Raw, f: Filter, cmps: seq<Comparator>, props: set<Name>,
          run: seq<Store>, h: History, since: nat, m: CallMoments, seen: CallReads, immutable: bool, pic: Table, id: Id)
    requires Ready(w, local, norm, f, cmps, props, run, h, since, m, seen, immutable)
    requires Promised(w, f, run, h, m, seen, immutable) && Pictured(w, f, cmps, None, None, pic) && id !in pic
    ensures Window(h, seen.upTo, Sequence(run[m.lastAt]))
    ensures Shows(h, Asked(w, f, cmps), seen.upTo, id) ==> id in Moved(h, immutable, seen.upTo, Sequence(run[m.lastAt]))
  {
    SpanWindow(w.sc, run, w.t, h, m.log.seqAt, m.lastAt);
    if id !in Moved(h, immutable, seen.upTo, Sequence(run[m.lastAt])) {
      UnmovedReads(w, local, norm, f, cmps, props, run, h, since, m, seen, immutable, id);
      JudgedAsIn(w, f, cmps, h.states[seen.upTo], id);
    }
  }

  /** When the sequence has not moved either, the evaluation lists the result at the bound. */
  lemma EvaluatedAt(w: Scope, local: Local, norm: Raw -> Raw, f: Filter, cmps: seq<Comparator>, props: set<Name>,
          run: seq<Store>, h: History, since: nat, m: CallMoments, seen: CallReads, immutable: bool,
          pic: Table, list: seq<Id>)
    requires Ready(w, local, norm, f, cmps, props, run, h, since, m, seen, immutable)
    requires Promised(w, f, run, h, m, seen, immutable) && Pictured(w, f, cmps, None, None, pic)
    requires Answers(Listing(cmps), pic, None, 0, list) && seen.again == seen.upTo
    ensures seen.upTo < |h.states| && Sequence(run[m.lastAt]) == seen.upTo
    ensures list == Results.Result(Asked(w, f, cmps), h.states[seen.upTo])
  {
    SpanWindow(w.sc, run, w.t, h, m.log.seqAt, m.lastAt);
    FloorTellsTruth(w.sc, run, m.lastAt, m.againAt);
    forall x ensures TrueReads(w, f, cmps, h.states[seen.upTo], x) {
      UnmovedReads(w, local, norm, f, cmps, props, run, h, since, m, seen, immutable, x);
    }
    WholeRight(w, f, cmps, h.states[seen.upTo], pic, list);
  }

  /** Reads that are right about every id list the result. */
  lemma WholeRight(w: Scope, f: Filter, cmps: seq<Comparator>, db: Table, pic: Table, list: seq<Id>)
    requires w.t in w.sc.types && Pictured(w, f, cmps, None, None, pic) && Answers(Listing(cmps), pic, None, 0, list)
    requires (forall x :: TrueReads(w, f, cmps, db, x)) && Orderly(Asked(w, f, cmps), Matched(Asked(w, f, cmps), db))
    ensures list == Results.Result(Asked(w, f, cmps), db)
  {
    AnswerAlike(w, f, cmps, None, None, db, pic, {});
    assert Within(db, None) == db;
    ListedAs(Asked(w, f, cmps), db, Listing(cmps), pic, list);
  }

  lemma ListedAs(q: Query, db: Table, q': Query, pic: Table, list: seq<Id>)
    requires Orderly(q, Matched(q, db)) && AlikeOutside(q', pic, q, db, {}) && Answers(q', pic, None, 0, list)
    ensures list == Results.Result(q, db)
  {
    var full := Results.Result(q, db);
    assert SameListing(q, db, q', pic) by {
      forall x ensures x in Matching(q, db) <==> x in Matching(q', pic) { }
      forall x, y | x in Matching(q, db) && y in Matching(q, db) ensures SameSide(q, db, q', pic, x, y) {
        assert SameSide(q', pic, q, db, x, y);
      }
    }
    ListingCarries(q, db, q', pic, full);
    assert Reads(list, 0, full);
  }

  /** An empty report lists no candidate. */
  lemma {:induction false} NoneAdded(results: seq<Id>, cand: set<Id>)
    requires AddedOf(results, cand) == []
    ensures forall x :: x in results ==> x !in cand
  {
    if results != [] {
      var n := |results| - 1;
      NoneAdded(results[..n], cand);
      assert results == results[..n] + [results[n]];
    }
  }

  // ---- One attempt ----

  /** The changes of the type since the client's state. */
  ghost function OneHistory(sc: Schema, run: seq<Store>, t: Name, h: History): (hs: map<Name, History>)
    requires IsHistory(sc, run, t, h)
    ensures Histories(sc, run, {t}, hs)
  {
    map[t := h]
  }

  method ChangesOf(t: Name, since: nat, budget: nat, seen: CallReads, ghost sc: Schema, ghost run: seq<Store>,
          ghost h: History, ghost m: CallMoments)
      returns (r: Options.Result<Change>)
    requires IsHistory(sc, run, t, h)
    requires SinceSeenIn(run, since, m.log, seen.upTo, seen.floor, seen.rows, seen.floorAfter)
    ensures r.Ok? ==> NetChangeIs(h, since, seen.upTo, r.value)
    ensures r.Err? <==> Refuses(h, t, since, budget, seen)
  {
    var all := ChangedSinceInRun({t}, since, seen.upTo, seen.floor, seen.rows, seen.floorAfter,
                                 budget, budget, sc, run, OneHistory(sc, run, t, h), m.log);
    if all.Err? {
      return Err;
    }
    r := Ok(all.value[t]);
  }

  /** The log walk refuses: a state never issued or trimmed away, or too much work. */
  ghost predicate Refuses(h: History, t: Name, since: nat, budget: nat, seen: CallReads) {
    || since > seen.upTo || since + 1 < seen.floorAfter || (budget > 0 && seen.upTo - since > budget)
    || OverBudget({t}, map[t := h], since, seen.upTo, budget)
  }

  /** A condition fails to evaluate, in a producer or on a record. */
  ghost predicate Unevaluable(w: Scope, f: Filter, seen: CallReads)
    requires w.t in w.sc.types
  {
    || Fails(w, f, [])
    || (exists id :: seen.record(id).Some? && Errs(w, f, seen.record(id).value))
    || (exists id :: id in Stored(w) && Errs(w, f, Stored(w)[id]))
  }

  /** Candidates all of which did not match when read, or are not listed, are dropped. */
  lemma DroppedInRun(w: Scope, local: Local, norm: Raw -> Raw, f: Filter, cmps: seq<Comparator>, props: set<Name>,
          run: seq<Store>, h: History, since: nat, m: CallMoments, seen: CallReads, immutable: bool, ch: Change)
    requires Ready(w, local, norm, f, cmps, props, run, h, since, m, seen, immutable)
    requires since <= seen.global && NetChangeIs(h, since, seen.upTo, ch)
    requires Window(h, seen.upTo, Sequence(run[m.lastAt]))
    requires forall id ::
      id in AddCand(ch.created, ch.updated, {}, immutable) && Shows(h, Asked(w, f, cmps), seen.upTo, id)
      ==> id in Moved(h, immutable, seen.upTo, Sequence(run[m.lastAt]))
    ensures Setting(h, Asked(w, f, cmps), immutable)
    ensures var r := Dropped(RemovedSet(ch.created, ch.updated, ch.destroyed, {}, immutable));
      Replies(h, Asked(w, f, cmps), immutable, since, CallOf(run, m, seen, r), r)
  {
    var r := Dropped(RemovedSet(ch.created, ch.updated, ch.destroyed, {}, immutable));
    SettingHolds(w, local, norm, f, cmps, props, run, h, since, m, seen, immutable);
    CallTimely(w.sc, w.t, run, h, since, m, seen, r);
    DroppedReplies(h, Asked(w, f, cmps), immutable, since, CallOf(run, m, seen, r), ch);
  }

  lemma NothingInRun(w: Scope, local: Local, norm: Raw -> Raw, f: Filter, cmps: seq<Comparator>, props: set<Name>,
          run: seq<Store>, h: History, since: nat, m: CallMoments, seen: CallReads, immutable: bool)
    requires Ready(w, local, norm, f, cmps, props, run, h, since, m, seen, immutable)
    requires since <= seen.global && seen.state <= since
    ensures Setting(h, Asked(w, f, cmps), immutable)
    ensures Replies(h, Asked(w, f, cmps), immutable, since, CallOf(run, m, seen, Nothing), Nothing)
  {
    SettingHolds(w, local, norm, f, cmps, props, run, h, since, m, seen, immutable);
    CallTimely(w.sc, w.t, run, h, since, m, seen, Nothing);
    NothingReplies(h, Asked(w, f, cmps), immutable, since, CallOf(run, m, seen, Nothing));
  }

  lemma ChangedInRun(w: Scope, local: Local, norm: Raw -> Raw, f: Filter, cmps: seq<Comparator>, props: set<Name>,
          run: seq<Store>, h: History, since: nat, m: CallMoments, seen: CallReads, immutable: bool, ch: Change,
          results: seq<Id>)
    requires Ready(w, local, norm, f, cmps, props, run, h, since, m, seen, immutable)
    requires since <= seen.global && NetChangeIs(h, since, seen.upTo, ch) && Sequence(run[m.lastAt]) == seen.upTo
    requires results == Results.Result(Asked(w, f, cmps), h.states[seen.upTo])
    ensures Setting(h, Asked(w, f, cmps), immutable)
    ensures var r := Changed(RemovedSet(ch.created, ch.updated, ch.destroyed, {}, immutable),
                             AddedOf(results, AddCand(ch.created, ch.updated, {}, immutable)));
      Replies(h, Asked(w, f, cmps), immutable, since, CallOf(run, m, seen, r), r)
  {
    SettingHolds(w, local, norm, f, cmps, props, run, h, since, m, seen, immutable);
    var r := Changed(RemovedSet(ch.created, ch.updated, ch.destroyed, {}, immutable),
                     AddedOf(results, AddCand(ch.created, ch.updated, {}, immutable)));
    CallTimely(w.sc, w.t, run, h, since, m, seen, r);
    ChangedAt(Asked(w, f, cmps), run, h, since, m, seen, immutable, ch, results, r);
  }

  lemma ChangedAt(q: Query, run: seq<Store>, h: History, since: nat, m: CallMoments, seen: CallReads,
          immutable: bool, ch: Change, results: seq<Id>, r: Reply)
    requires Setting(h, q, immutable) && m.stateAt < |run| && m.lastAt < |run| && Sequence(run[m.lastAt]) == seen.upTo
    requires Timely(h, since, CallOf(run, m, seen, r)) && NetChangeIs(h, since, seen.upTo, ch)
    requires results == Results.Result(q, h.states[seen.upTo])
    requires r == Changed(RemovedSet(ch.created, ch.updated, ch.destroyed, {}, immutable),
                          AddedOf(results, AddCand(ch.created, ch.updated, {}, immutable)))
    ensures Replies(h, q, immutable, since, CallOf(run, m, seen, r), r)
  {
    ChangedReplies(h, q, immutable, since, CallOf(run, m, seen, r), ch, results);
  }

  /** What the evaluation hooks and the loaded records promise. */
  ghost predicate Evaluable(w: Scope, f: Filter, cmps: seq<Comparator>, run: seq<Store>, h: History, m: CallMoments,
          seen: CallReads, immutable: bool)
    requires w.t in w.sc.types && m.log.seqAt < |run| && m.lastAt < |run|
  {
    WellStored(Stored(w)) && Sortable(w, f, cmps) && Promised(w, f, run, h, m, seen, immutable)
  }

  /** The evaluation lists a candidate, so its reply carries a position. */
  ghost predicate SomeListed(w: Scope, f: Filter, cmps: seq<Comparator>, cand: set<Id>)
    requires w.t in w.sc.types
  {
    exists x :: x in cand && Judged(w, f, cmps, None, None, x)
  }

  lemma SomeAdded(list: seq<Id>, cand: set<Id>)
    ensures AddedOf(list, cand) != [] ==> exists x :: x in list && x in cand
  {
    if forall x :: x in list ==> x !in cand {
      NoCandidates([], list, cand);
      assert [] + list == list;
    }
  }

  /** Tier 2: evaluate; with nothing to add there are no positions to protect, otherwise the
      sequence is read again. */
  method EvaluateReply(w: Scope, f: Filter, cmps: seq<Comparator>, immutable: bool, ch: Change, seen: CallReads,
          ghost since: nat, ghost local: Local, ghost norm: Raw -> Raw, ghost props: set<Name>, ghost run: seq<Store>,
          ghost h: History, ghost m: CallMoments)
      returns (r: Options.Result<Reply>)
    requires Ready(w, local, norm, f, cmps, props, run, h, since, m, seen, immutable)
    requires Evaluable(w, f, cmps, run, h, m, seen, immutable)
    requires since <= seen.global && NetChangeIs(h, since, seen.upTo, ch)
    ensures Setting(h, Asked(w, f, cmps), immutable)
    ensures r.Ok? ==> Replies(h, Asked(w, f, cmps), immutable, since, CallOf(run, m, seen, r.value), r.value)
    ensures r.Err? && !Unevaluable(w, f, seen) ==>
      seen.again != seen.upTo && SomeListed(w, f, cmps, AddCand(ch.created, ch.updated, {}, immutable))
  {
    SettingHolds(w, local, norm, f, cmps, props, run, h, since, m, seen, immutable);
    var removed := RemovedSet(ch.created, ch.updated, ch.destroyed, {}, immutable);
    var cand := AddCand(ch.created, ch.updated, {}, immutable);
    ghost var pic;
    var results;
    results, pic := EvaluateWith(w, f, cmps, None, None, 0);
    if results.Err? {
      return Err;
    }
    var added := AddedOf(results.value, cand);
    if added == [] {
      UnlistedDropped(w, local, norm, f, cmps, props, run, h, since, m, seen, immutable, ch, pic, results.value);
      return Ok(Dropped(removed));
    }
    if seen.again != seen.upTo {
      ListHolds(cmps, pic, results.value);
      SomeAdded(results.value, cand);
      return Err;
    }
    EvaluatedAt(w, local, norm, f, cmps, props, run, h, since, m, seen, immutable, pic, results.value);
    ChangedInRun(w, local, norm, f, cmps, props, run, h, since, m, seen, immutable, ch, results.value);
    r := Ok(Changed(removed, added));
  }

  /** An evaluation that lists no candidate, however torn, is a reply without positions. */
  lemma UnlistedDropped(w: Scope, local: Local, norm: Raw -> Raw, f: Filter, cmps: seq<Comparator>, props: set<Name>,
          run: seq<Store>, h: History, since: nat, m: CallMoments, seen: CallReads, immutable: bool,
          ch: Change, pic: Table, list: seq<Id>)
    requires Ready(w, local, norm, f, cmps, props, run, h, since, m, seen, immutable)
    requires Promised(w, f, run, h, m, seen, immutable) && Pictured(w, f, cmps, None, None, pic)
    requires Answers(Listing(cmps), pic, None, 0, list) && Comparable(cmps, Matched(Listing(cmps), pic))
    requires AddedOf(list, AddCand(ch.created, ch.updated, {}, immutable)) == []
    requires since <= seen.global && NetChangeIs(h, since, seen.upTo, ch)
    ensures Setting(h, Asked(w, f, cmps), immutable)
    ensures var r := Dropped(RemovedSet(ch.created, ch.updated, ch.destroyed, {}, immutable));
      Replies(h, Asked(w, f, cmps), immutable, since, CallOf(run, m, seen, r), r)
  {
    var cand := AddCand(ch.created, ch.updated, {}, immutable);
    NoneAdded(list, cand);
    ListHolds(cmps, pic, list);
    SpanWindow(w.sc, run, w.t, h, m.log.seqAt, m.lastAt);
    forall id | id in cand && Shows(h, Asked(w, f, cmps), seen.upTo, id)
      ensures id in Moved(h, immutable, seen.upTo, Sequence(run[m.lastAt]))
    {
      UnlistedMoved(w, local, norm, f, cmps, props, run, h, since, m, seen, immutable, pic, id);
    }
    DroppedInRun(w, local, norm, f, cmps, props, run, h, since, m, seen, immutable, ch);
  }

  lemma ListHolds(cmps: seq<Comparator>, pic: Table, list: seq<Id>)
    requires Answers(Listing(cmps), pic, None, 0, list) && Comparable(cmps, Matched(Listing(cmps), pic))
    ensures forall x :: x in list <==> x in pic
  {
    ComparatorsOrderly(cmps, Everything, Matched(Listing(cmps), pic));
    var full := Results.Result(Listing(cmps), pic);
    assert Reads(list, 0, full);
    assert list == full;
    assert forall x :: x in list <==> x in Elems(list);
  }

  /** The tiers below the first: candidates that match nowhere, or the evaluation. */
  method ReplyTo(w: Scope, f: Filter, cmps: seq<Comparator>, immutable: bool, ch: Change, seen: CallReads,
          ghost since: nat, ghost local: Local, ghost norm: Raw -> Raw, ghost props: set<Name>, ghost run: seq<Store>,
          ghost h: History, ghost m: CallMoments)
      returns (r: Options.Result<Reply>)
    requires Ready(w, local, norm, f, cmps, props, run, h, since, m, seen, immutable)
    requires Evaluable(w, f, cmps, run, h, m, seen, immutable)
    requires since <= seen.global && NetChangeIs(h, since, seen.upTo, ch)
    ensures Setting(h, Asked(w, f, cmps), immutable)
    ensures r.Ok? ==> Replies(h, Asked(w, f, cmps), immutable, since, CallOf(run, m, seen, r.value), r.value)
    ensures r.Err? && !Unevaluable(w, f, seen) ==>
      seen.again != seen.upTo && SomeListed(w, f, cmps, AddCand(ch.created, ch.updated, {}, immutable))
  {
    SettingHolds(w, local, norm, f, cmps, props, run, h, since, m, seen, immutable);
    var cand := AddCand(ch.created, ch.updated, {}, immutable);
    var any := AnyMatches(w, f, cand, seen.record);
    if any.Err? {
      return Err;
    }
    if any.value {
      r := EvaluateReply(w, f, cmps, immutable, ch, seen, since, local, norm, props, run, h, m);
      return;
    }
    SpanWindow(w.sc, run, w.t, h, m.log.seqAt, m.lastAt);
    forall id | id in cand && Shows(h, Asked(w, f, cmps), seen.upTo, id)
      ensures id in Moved(h, immutable, seen.upTo, Sequence(run[m.lastAt]))
    {
      NoneMatched(w, local, norm, f, cmps, props, run, h, since, m, seen, immutable, id);
    }
    DroppedInRun(w, local, norm, f, cmps, props, run, h, since, m, seen, immutable, ch);
    r := Ok(Dropped(RemovedSet(ch.created, ch.updated, ch.destroyed, {}, immutable)));
  }

  /** One attempt of Foo/queryChanges, its reads spread over a run in which commits and
      trims go on: unless it is refused, or has positions to report and the sequence moved,
      its reply does to any cached list what one of the three answers of QueryChanges does. */
  method Attempt(w: Scope, f: Filter, cmps: seq<Comparator>, immutable: bool, since: nat, budget: nat, seen: CallReads,
          ghost local: Local, ghost norm: Raw -> Raw, ghost props: set<Name>, ghost run: seq<Store>, ghost h: History,
          ghost m: CallMoments)
      returns (r: Options.Result<Reply>)
    requires Ready(w, local, norm, f, cmps, props, run, h, since, m, seen, immutable)
    requires Evaluable(w, f, cmps, run, h, m, seen, immutable)
    ensures Setting(h, Asked(w, f, cmps), immutable)
    ensures r.Ok? ==> Replies(h, Asked(w, f, cmps), immutable, since, CallOf(run, m, seen, r.value), r.value)
    ensures r.Err? ==>
      || since > seen.global || Refuses(h, w.t, since, budget, seen) || Unevaluable(w, f, seen)
      || (&& seen.again != seen.upTo && Window(h, since, seen.upTo)
          && SomeListed(w, f, cmps, Candidates(h, immutable, since, seen.upTo)))
  {
    SettingHolds(w, local, norm, f, cmps, props, run, h, since, m, seen, immutable);
    if since > seen.global {
      return Err;
    }
    if seen.state <= since {
      NothingInRun(w, local, norm, f, cmps, props, run, h, since, m, seen, immutable);
      return Ok(Nothing);
    }
    var changes := ChangesOf(w.t, since, budget, seen, w.sc, run, h, m);
    if changes.Err? {
      return Err;
    }
    r := ReplyTo(w, f, cmps, immutable, changes.value, seen, since, local, norm, props, run, h, m);
  }
}
