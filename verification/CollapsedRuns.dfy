/** Foo/queryChanges on a collapsed query (core/runtime/query.go:349-422) against the
    commit history. `listed[n - 1]` holds the groups commit n logged for the companion
    type; the companion is to list, in the same commit, every group with a changed member.
    A client's list then stands to the collapsed results as an uncollapsed one stands to
    the results, with the members of the listed groups moved along. */
module CollapsedRuns {
  import opened ByteOrder
  import opened Records
  import opened Lists
  import opened Splice
  import opened Results
  import opened History
  import C = Collapse
  import QC = QueryChanges

  type Client = QC.Client

  /** A call, and when it read the members of each group. */
  datatype Round = Round(call: QC.Call, at: Raw -> nat)

  ghost predicate Setting(h: History, q: Query, key: Name, listed: seq<set<Raw>>) {
    && Legal(h) && |listed| == |h.entries|
    && (forall n :: 0 <= n < |h.states| ==> Orderly(q, Matched(q, h.states[n])))
    && forall n :: 0 <= n < |h.entries| ==> StepListed(h, key, listed, n)
  }

  /** Commit n + 1 lists every group with a member it changed. */
  ghost predicate StepListed(h: History, key: Name, listed: seq<set<Raw>>, n: nat)
    requires Legal(h) && n < |h.entries| == |listed|
  {
    C.GroupsListed(h.states[n], h.states[n + 1], key, h.entries[n].updated, listed[n])
  }

  ghost predicate Spans(h: History, listed: seq<set<Raw>>, a: int, b: int) {
    Window(h, a, b) && |listed| == |h.entries|
  }

  /** Every group the companion logged in commits a+1 .. b. */
  ghost function Listed(h: History, listed: seq<set<Raw>>, a: nat, b: nat): set<Raw>
    requires Spans(h, listed, a, b)
  {
    if a == b then {} else Listed(h, listed, a, b - 1) + listed[b - 1]
  }

  /** The companion's state after commit n. */
  ghost function GroupState(h: History, listed: seq<set<Raw>>, n: nat): (s: nat)
    requires Spans(h, listed, n, n)
    ensures s <= n
  {
    if n == 0 || listed[n - 1] != {} then n else GroupState(h, listed, n - 1)
  }

  /** The ids whose standing a window may have changed: those logged, and the members of
      the groups listed. */
  ghost function Moved(h: History, key: Name, listed: seq<set<Raw>>, a: nat, b: nat): set<Id>
    requires Spans(h, listed, a, b)
  {
    Touched(h, a, b) + C.Expanded(h.states[b], key, Listed(h, listed, a, b))
  }

  /** The members of the listed groups, each group read at a moment of its own. */
  ghost function Found(h: History, key: Name, groups: set<Raw>, at: Raw -> nat): set<Id>
    requires forall g :: at(g) < |h.states|
  {
    set g, id | g in groups && id in h.states[at(g)] && C.GroupOf(h.states[at(g)][id], key) == g :: id
  }

  ghost predicate ReadWithin(h: History, listed: seq<set<Raw>>, c: Client, r: Round) {
    && Window(h, r.call.stateRead, r.call.upTo) && Window(h, r.call.upTo, r.call.done)
    && |listed| == |h.entries| && c.since <= r.call.stateRead
    && forall g :: r.call.upTo <= r.at(g) <= r.call.done
  }

  ghost function Removed(h: History, key: Name, listed: seq<set<Raw>>, c: Client, r: Round): set<Id>
    requires ReadWithin(h, listed, c, r)
  {
    var a, b := c.since, r.call.upTo;
    RemovedSet(NetCreated(h, a, b), NetUpdated(h, a, b), NetDestroyed(h, a, b),
               Found(h, key, Listed(h, listed, a, b), r.at), false)
  }

  ghost function Candidates(h: History, key: Name, listed: seq<set<Raw>>, c: Client, r: Round): set<Id>
    requires ReadWithin(h, listed, c, r)
  {
    var a, b := c.since, r.call.upTo;
    AddCand(NetCreated(h, a, b), NetUpdated(h, a, b), Found(h, key, Listed(h, listed, a, b), r.at), false)
  }

  /** The collapsed result after commit n. */
  ghost function ResultAt(h: History, q: Query, key: Name, n: nat): (list: seq<Id>)
    requires n < |h.states| && Orderly(q, Matched(q, h.states[n]))
    ensures C.IsCollapsed(q, h.states[n], key, list)
  {
    var full := Result(q, h.states[n]);
    C.CollapseCorrect(q, h.states[n], key, full);
    C.Firsts(full, h.states[n], key, {})
  }

  /** The state is the later of the type's and the companion's; a reply with positions
      left in the state they were computed in; and a candidate that represents its group at
      the bound without being given a position moved after it. */
  ghost predicate Answered(h: History, q: Query, key: Name, listed: seq<set<Raw>>, c: Client, r: Round) {
    var k := r.call;
    && ReadWithin(h, listed, c, r) && k.state <= k.stateRead
    && TypeState(h, k.stateRead) <= k.state && GroupState(h, listed, k.stateRead) <= k.state
    && match k.answer
       case Unchanged => k.state <= c.since
       case NoPositions =>
         forall id :: id in Candidates(h, key, listed, c, r) && C.Represents(q, h.states[k.upTo], key, id) ==>
           id in Moved(h, key, listed, k.upTo, k.done)
       case Positions => k.done == k.upTo
  }

  /** No representative was created between the state read and the bound read. */
  ghost predicate NothingCreatedBetween(h: History, q: Query, key: Name, k: QC.Call)
    requires Window(h, k.state, k.upTo)
  {
    forall id :: id in NetCreated(h, k.state, k.upTo) ==> !C.Represents(q, h.states[k.upTo], key, id)
  }

  ghost function Spliced(h: History, q: Query, key: Name, listed: seq<set<Raw>>, c: Client, r: Round): Client
    requires Setting(h, q, key, listed) && Answered(h, q, key, listed, c, r)
  {
    match r.call.answer
    case Unchanged => QC.Client(c.list, r.call.state)
    case NoPositions => QC.Client(Without(c.list, Removed(h, key, listed, c, r)), r.call.state)
    case Positions =>
      QC.Client(SpliceReply(c.list, Removed(h, key, listed, c, r),
                            AddedOf(ResultAt(h, q, key, r.call.upTo), Candidates(h, key, listed, c, r))), r.call.state)
  }

  /** The list agrees with the collapsed result at `now` on every id not moved since the
      client's state, and holds only ids that existed at that state. */
  ghost predicate Synced(h: History, q: Query, key: Name, listed: seq<set<Raw>>, c: Client, now: nat) {
    && Setting(h, q, key, listed) && Window(h, c.since, now)
    && Elems(c.list) <= h.states[c.since].Keys
    && Without(c.list, Moved(h, key, listed, c.since, now))
       == Without(ResultAt(h, q, key, now), Moved(h, key, listed, c.since, now))
  }

  // ---- Stability over a window ----

  lemma {:induction false} ListedSplit(h: History, listed: seq<set<Raw>>, a: nat, b: nat, c: nat)
    requires Spans(h, listed, a, b) && Spans(h, listed, b, c)
    ensures Listed(h, listed, a, c) == Listed(h, listed, a, b) + Listed(h, listed, b, c)
  {
    if b < c { ListedSplit(h, listed, a, b, c - 1); }
  }

  lemma MovedSplit(h: History, key: Name, listed: seq<set<Raw>>, a: nat, b: nat, c: nat)
    requires Spans(h, listed, a, b) && Spans(h, listed, b, c)
    ensures Moved(h, key, listed, a, c) == Moved(h, key, listed, a, b) + Moved(h, key, listed, b, c)
  {
    TouchedSplit(h, a, b, c);
    ListedSplit(h, listed, a, b, c);
    forall id | id !in Touched(h, b, c)
      ensures id in h.states[b] <==> id in h.states[c]
      ensures id in h.states[b] && id in h.states[c] ==> h.states[b][id] == h.states[c][id]
    {
      UntouchedSame(h, b, c, id);
    }
  }

  /** Two results agree outside what the window between them moved. */
  ghost predicate Agree(h: History, q: Query, key: Name, listed: seq<set<Raw>>, a: nat, b: nat)
    requires Setting(h, q, key, listed) && Window(h, a, b)
  {
    var moved := Moved(h, key, listed, a, b);
    Without(ResultAt(h, q, key, a), moved) == Without(ResultAt(h, q, key, b), moved)
  }

  lemma OneCommit(h: History, key: Name, listed: seq<set<Raw>>, n: nat)
    requires Spans(h, listed, n, n + 1)
    ensures Moved(h, key, listed, n, n + 1) == h.entries[n].All() + C.Expanded(h.states[n + 1], key, listed[n])
  {
    assert Touched(h, n, n) == {} && Listed(h, listed, n, n) == {};
  }

  /** One commit: what it does not move keeps its place among the representatives. */
  lemma StepStable(h: History, q: Query, key: Name, listed: seq<set<Raw>>, n: nat)
    requires Setting(h, q, key, listed) && n < |h.entries|
    ensures Agree(h, q, key, listed, n, n + 1)
  {
    assert LegalStep(h.states[n], h.entries[n], h.states[n + 1]);
    assert StepListed(h, key, listed, n);
    OneCommit(h, key, listed, n);
    ChangeStable(q, h.states[n], h.entries[n], h.states[n + 1], key, listed[n],
                 ResultAt(h, q, key, n), ResultAt(h, q, key, n + 1));
  }

  lemma ChangeStable(q: Query, db0: Table, c: Change, db1: Table, key: Name, groups: set<Raw>,
                     l0: seq<Id>, l1: seq<Id>)
    requires Orderly(q, Matched(q, db0)) && LegalStep(db0, c, db1) && C.GroupsListed(db0, db1, key, c.updated, groups)
    requires C.IsCollapsed(q, db0, key, l0) && C.IsCollapsed(q, db1, key, l1)
    ensures Without(l0, c.All() + C.Expanded(db1, key, groups)) == Without(l1, c.All() + C.Expanded(db1, key, groups))
  {
    C.CollapsedSplice(q, db0, db1, key, c.updated, groups, l0, l1);
    var removed, cand := C.Removed(db0, db1, key, c.updated, groups), C.Candidates(db0, db1, key, c.updated, groups);
    var moved := c.All() + C.Expanded(db1, key, groups);
    SpliceExact(l0, l1, removed, cand);
    assert forall id :: id in l0 ==> C.Represents(q, db0, key, id) && id in db0;
    WithoutSame(l0, removed, moved);
    assert forall id :: id in l1 ==> C.Represents(q, db1, key, id) && id in db1;
    WithoutSame(l1, cand, moved);
  }

  /** Agreement outside one set and then outside another is agreement outside both. */
  lemma AgreeChains(r: seq<Id>, s: seq<Id>, t: seq<Id>, m: set<Id>, n: set<Id>)
    requires Without(r, m) == Without(s, m) && Without(s, n) == Without(t, n)
    ensures Without(r, m + n) == Without(t, m + n)
  {
    WithoutTwice(r, m, n);
    WithoutTwice(s, m, n);
    WithoutTwice(s, n, m);
    WithoutTwice(t, n, m);
    assert m + n == n + m;
  }

  lemma AgreeOneMore(h: History, q: Query, key: Name, listed: seq<set<Raw>>, a: nat, n: nat)
    requires Setting(h, q, key, listed) && Window(h, a, n) && n < |h.entries| && Agree(h, q, key, listed, a, n)
    ensures Agree(h, q, key, listed, a, n + 1)
  {
    StepStable(h, q, key, listed, n);
    MovedSplit(h, key, listed, a, n, n + 1);
    AgreeChains(ResultAt(h, q, key, a), ResultAt(h, q, key, n), ResultAt(h, q, key, n + 1),
                Moved(h, key, listed, a, n), Moved(h, key, listed, n, n + 1));
  }

  /** What holds at `a` and survives every commit holds at `b`. */
  lemma {:induction false} Onwards(p: nat -> bool, a: nat, b: nat)
    requires a <= b && p(a) && forall n :: a <= n < b && p(n) ==> p(n + 1)
    ensures p(b)
    decreases b
  {
    if a < b { Onwards(p, a, b - 1); }
  }

  /** Agreement since commit a, as a property of the commit. */
  ghost function AgreesSince(h: History, q: Query, key: Name, listed: seq<set<Raw>>, a: nat): nat -> bool
    requires Setting(h, q, key, listed)
  {
    (n: nat) => Window(h, a, n) ==> Agree(h, q, key, listed, a, n)
  }

  lemma StableFrom(h: History, q: Query, key: Name, listed: seq<set<Raw>>, a: nat, b: nat, p: nat -> bool)
    requires Setting(h, q, key, listed) && p == AgreesSince(h, q, key, listed, a) && p(a) && a <= b <= |h.entries|
    ensures p(b)
  {
    forall n: nat | a <= n < b && p(n) ensures p(n + 1) { AgreeOneMore(h, q, key, listed, a, n); }
    Onwards(p, a, b);
  }

  lemma StableOver(h: History, q: Query, key: Name, listed: seq<set<Raw>>, a: nat, b: nat)
    requires Setting(h, q, key, listed) && Window(h, a, b)
    ensures Agree(h, q, key, listed, a, b)
  {
    StableFrom(h, q, key, listed, a, b, AgreesSince(h, q, key, listed, a));
  }

  lemma SyncedLater(h: History, q: Query, key: Name, listed: seq<set<Raw>>, c: Client, now: nat, later: nat)
    requires Synced(h, q, key, listed, c, now) && Window(h, now, later)
    ensures Synced(h, q, key, listed, c, later)
  {
    MovedSplit(h, key, listed, c.since, now, later);
    StableOver(h, q, key, listed, now, later);
    AgreeChains(c.list, ResultAt(h, q, key, now), ResultAt(h, q, key, later),
                Moved(h, key, listed, c.since, now), Moved(h, key, listed, now, later));
  }

  /** An id not logged while the groups were read was found exactly if it was a member. */
  lemma FoundMember(h: History, key: Name, groups: set<Raw>, at: Raw -> nat, b: nat, done: nat, id: Id)
    requires Window(h, b, done) && id !in Touched(h, b, done) && forall g :: b <= at(g) <= done
    ensures id in Found(h, key, groups, at) <==> id in C.Expanded(h.states[b], key, groups)
  {
    forall g
      ensures id in h.states[b] <==> id in h.states[at(g)]
      ensures id in h.states[b] && id in h.states[at(g)] ==> h.states[b][id] == h.states[at(g)][id]
    {
      TouchedSplit(h, b, at(g), done);
      UntouchedSame(h, b, at(g), id);
    }
    if id in C.Expanded(h.states[b], key, groups) {
      var g := C.GroupOf(h.states[b][id], key);
      assert g in groups && id in h.states[at(g)] && C.GroupOf(h.states[at(g)][id], key) == g;
    }
  }

  /** Up to what moved while the call ran, an id that existed at the client's state is
      removed exactly when it moved, and one that exists at the bound is a candidate exactly
      when it moved. */
  lemma ReportsCoverMoves(h: History, key: Name, listed: seq<set<Raw>>, c: Client, r: Round, id: Id)
    requires ReadWithin(h, listed, c, r) && id !in Moved(h, key, listed, r.call.upTo, r.call.done)
    ensures var early := Moved(h, key, listed, c.since, r.call.upTo);
      && (id in h.states[c.since] ==> (id in Removed(h, key, listed, c, r) <==> id in early))
      && (id in h.states[r.call.upTo] ==> (id in Candidates(h, key, listed, c, r) <==> id in early))
  {
    var a, b := c.since, r.call.upTo;
    FoundMember(h, key, Listed(h, listed, a, b), r.at, b, r.call.done, id);
    if id !in Touched(h, a, b) { UntouchedSame(h, a, b, id); }
  }

  // ---- The replies ----

  lemma PositionsExact(h: History, q: Query, key: Name, listed: seq<set<Raw>>, c: Client, r: Round)
    requires Synced(h, q, key, listed, c, r.call.upTo) && Answered(h, q, key, listed, c, r) && r.call.answer.Positions?
    ensures Spliced(h, q, key, listed, c, r).list == ResultAt(h, q, key, r.call.upTo)
  {
    var results, moved := ResultAt(h, q, key, r.call.upTo), Moved(h, key, listed, c.since, r.call.upTo);
    var removed, cand := Removed(h, key, listed, c, r), Candidates(h, key, listed, c, r);
    assert Moved(h, key, listed, r.call.upTo, r.call.done) == {};
    forall id | id in c.list ensures id in removed <==> id in moved {
      assert id in Elems(c.list);
      ReportsCoverMoves(h, key, listed, c, r, id);
    }
    WithoutSame(c.list, removed, moved);
    forall id | id in results ensures id in cand <==> id in moved {
      assert C.Represents(q, h.states[r.call.upTo], key, id);
      ReportsCoverMoves(h, key, listed, c, r, id);
    }
    WithoutSame(results, cand, moved);
    SpliceExact(c.list, results, removed, cand);
  }

  lemma PositionsKeepSync(h: History, q: Query, key: Name, listed: seq<set<Raw>>, c: Client, r: Round)
    requires Synced(h, q, key, listed, c, r.call.upTo) && Answered(h, q, key, listed, c, r) && r.call.answer.Positions?
    requires NothingCreatedBetween(h, q, key, r.call)
    ensures Synced(h, q, key, listed, Spliced(h, q, key, listed, c, r), r.call.done)
  {
    PositionsExact(h, q, key, listed, c, r);
    forall id | id in Elems(ResultAt(h, q, key, r.call.upTo)) ensures id in h.states[r.call.state] {
      assert C.Represents(q, h.states[r.call.upTo], key, id);
      assert id !in NetCreated(h, r.call.state, r.call.upTo);
    }
  }

  /** The next reply with positions is right if and only if no representative was created
      between the state read and the bound read of the one before. */
  lemma NextReplyIff(h: History, q: Query, key: Name, listed: seq<set<Raw>>, c: Client, r: Round, r2: Round)
    requires Synced(h, q, key, listed, c, r.call.upTo) && Answered(h, q, key, listed, c, r) && r.call.answer.Positions?
    requires Answered(h, q, key, listed, Spliced(h, q, key, listed, c, r), r2)
    requires r2.call.answer.Positions? && r.call.done <= r2.call.stateRead
    ensures Spliced(h, q, key, listed, Spliced(h, q, key, listed, c, r), r2).list == ResultAt(h, q, key, r2.call.upTo)
       <==> NothingCreatedBetween(h, q, key, r.call)
  {
    var c1 := Spliced(h, q, key, listed, c, r);
    if NothingCreatedBetween(h, q, key, r.call) {
      PositionsKeepSync(h, q, key, listed, c, r);
      SyncedLater(h, q, key, listed, c1, r.call.done, r2.call.upTo);
      PositionsExact(h, q, key, listed, c1, r2);
    } else {
      PositionsExact(h, q, key, listed, c, r);
      var id :| id in NetCreated(h, r.call.state, r.call.upTo) && C.Represents(q, h.states[r.call.upTo], key, id);
      assert id in ResultAt(h, q, key, r.call.upTo);
      LeftOver(h, q, key, listed, c1, r2, id);
    }
  }

  /** An id in the list that did not exist at the client's state spoils the splice. */
  lemma LeftOver(h: History, q: Query, key: Name, listed: seq<set<Raw>>, c: Client, r: Round, id: Id)
    requires Setting(h, q, key, listed) && Answered(h, q, key, listed, c, r) && r.call.answer.Positions?
    requires c.since < |h.states| && id in Elems(c.list) && id !in h.states[c.since]
    ensures Spliced(h, q, key, listed, c, r).list != ResultAt(h, q, key, r.call.upTo)
  {
    var results := ResultAt(h, q, key, r.call.upTo);
    var removed, cand := Removed(h, key, listed, c, r), Candidates(h, key, listed, c, r);
    assert id in Without(c.list, removed) by { WithoutMembers(c.list, removed); }
    assert id !in Without(results, cand) by {
      WithoutMembers(results, cand);
      if id in results { assert C.Represents(q, h.states[r.call.upTo], key, id); }
    }
    SpliceExact(c.list, results, removed, cand);
  }

  lemma {:induction false} GroupStateTruth(h: History, listed: seq<set<Raw>>, a: nat, b: nat)
    requires Spans(h, listed, a, b)
    ensures GroupState(h, listed, a) <= GroupState(h, listed, b)
    ensures GroupState(h, listed, b) <= a ==> Listed(h, listed, a, b) == {}
  {
    if a < b { GroupStateTruth(h, listed, a, b - 1); }
  }

  /** A state reported below the client's own: nothing moved in between. */
  lemma EarlierState(h: History, q: Query, key: Name, listed: seq<set<Raw>>, c: Client, r: Round)
    requires Setting(h, q, key, listed) && Answered(h, q, key, listed, c, r) && r.call.state <= c.since
    ensures Moved(h, key, listed, r.call.state, c.since) == {} && h.states[r.call.state] == h.states[c.since]
  {
    StateAgrees(h, c.since, r.call.stateRead);
    StateTellsTruth(h, r.call.state, c.since);
    GroupStateTruth(h, listed, c.since, r.call.stateRead);
    GroupStateTruth(h, listed, r.call.state, c.since);
  }

  lemma UnchangedKeepsSync(h: History, q: Query, key: Name, listed: seq<set<Raw>>, c: Client, r: Round)
    requires Synced(h, q, key, listed, c, r.call.upTo) && Answered(h, q, key, listed, c, r) && r.call.answer.Unchanged?
    ensures Synced(h, q, key, listed, Spliced(h, q, key, listed, c, r), r.call.done)
  {
    SyncedLater(h, q, key, listed, c, r.call.upTo, r.call.done);
    assert h.states[r.call.state] == h.states[c.since]
      && Moved(h, key, listed, r.call.state, r.call.done) == Moved(h, key, listed, c.since, r.call.done) by {
      EarlierState(h, q, key, listed, c, r);
      MovedSplit(h, key, listed, r.call.state, c.since, r.call.done);
    }
  }

  /** A result at the end of a call without positions moved early only if it moved late. */
  lemma DroppedStaysOut(h: History, q: Query, key: Name, listed: seq<set<Raw>>, c: Client, r: Round, id: Id)
    requires Setting(h, q, key, listed) && Answered(h, q, key, listed, c, r) && r.call.answer.NoPositions?
    requires id in ResultAt(h, q, key, r.call.done)
    ensures id in Moved(h, key, listed, c.since, r.call.upTo) ==> id in Moved(h, key, listed, r.call.upTo, r.call.done)
  {
    var b, late := r.call.upTo, Moved(h, key, listed, r.call.upTo, r.call.done);
    if id !in late {
      StableOver(h, q, key, listed, b, r.call.done);
      WithoutMembers(ResultAt(h, q, key, b), late);
      WithoutMembers(ResultAt(h, q, key, r.call.done), late);
      assert id in Without(ResultAt(h, q, key, b), late);
      assert C.Represents(q, h.states[b], key, id);
      ReportsCoverMoves(h, key, listed, c, r, id);
    }
  }

  lemma NoPositionsAgrees(h: History, q: Query, key: Name, listed: seq<set<Raw>>, c: Client, r: Round)
    requires Synced(h, q, key, listed, c, r.call.upTo) && Answered(h, q, key, listed, c, r)
    requires r.call.answer.NoPositions?
    ensures var late := Moved(h, key, listed, r.call.upTo, r.call.done);
      Without(Without(c.list, Removed(h, key, listed, c, r)), late) == Without(ResultAt(h, q, key, r.call.done), late)
  {
    var a, b, now := c.since, r.call.upTo, r.call.done;
    SyncedLater(h, q, key, listed, c, b, now);
    MovedSplit(h, key, listed, a, b, now);
    var removed, results := Removed(h, key, listed, c, r), ResultAt(h, q, key, now);
    var early, late := Moved(h, key, listed, a, b), Moved(h, key, listed, b, now);
    forall id | id in c.list ensures id in removed + late <==> id in early + late {
      assert id in Elems(c.list);
      if id !in late { ReportsCoverMoves(h, key, listed, c, r, id); }
    }
    WithoutSame(c.list, removed + late, early + late);
    WithoutTwice(c.list, removed, late);
    forall id | id in results ensures id in early + late <==> id in late {
      DroppedStaysOut(h, q, key, listed, c, r, id);
    }
    WithoutSame(results, early + late, late);
  }

  /** What the reply leaves in the list existed at the reported state. */
  lemma KeptExists(h: History, q: Query, key: Name, listed: seq<set<Raw>>, c: Client, r: Round, id: Id)
    requires Synced(h, q, key, listed, c, r.call.upTo) && Answered(h, q, key, listed, c, r)
    requires id in Without(c.list, Removed(h, key, listed, c, r))
    ensures id in h.states[r.call.state]
  {
    var a, b, state := c.since, r.call.upTo, r.call.state;
    WithoutMembers(c.list, Removed(h, key, listed, c, r));
    assert id in Elems(c.list);
    if state < a {
      EarlierState(h, q, key, listed, c, r);
    } else {
      TouchedSplit(h, a, state, b);
      UntouchedSame(h, a, state, id);
    }
  }

  lemma NoPositionsKeepsSync(h: History, q: Query, key: Name, listed: seq<set<Raw>>, c: Client, r: Round)
    requires Synced(h, q, key, listed, c, r.call.upTo) && Answered(h, q, key, listed, c, r)
    requires r.call.answer.NoPositions?
    ensures Synced(h, q, key, listed, Spliced(h, q, key, listed, c, r), r.call.done)
  {
    var b, now := r.call.upTo, r.call.done;
    var list := Without(c.list, Removed(h, key, listed, c, r));
    var late, extra := Moved(h, key, listed, b, now), Moved(h, key, listed, r.call.state, b);
    MovedSplit(h, key, listed, r.call.state, b, now);
    NoPositionsAgrees(h, q, key, listed, c, r);
    WithoutTwice(list, late, extra);
    WithoutTwice(ResultAt(h, q, key, now), late, extra);
    assert late + extra == extra + late;
    forall id | id in list ensures id in h.states[r.call.state] { KeptExists(h, q, key, listed, c, r, id); }
  }

  // ---- Whole runs ----

  ghost predicate Run(h: History, q: Query, key: Name, listed: seq<set<Raw>>, clients: seq<Client>,
                      rounds: seq<Round>) {
    && Setting(h, q, key, listed)
    && |clients| == |rounds| + 1
    && (forall i :: 0 <= i < |rounds| ==>
          && Answered(h, q, key, listed, clients[i], rounds[i])
          && (rounds[i].call.answer.Positions? ==> NothingCreatedBetween(h, q, key, rounds[i].call))
          && clients[i + 1] == Spliced(h, q, key, listed, clients[i], rounds[i]))
    && (forall i :: 0 < i < |rounds| ==> rounds[i - 1].call.done <= rounds[i].call.stateRead)
  }

  /** Over every run that starts from a right list, the client agrees with the collapsed
      result on all ids not moved since its state, and every reply with positions leaves it
      holding exactly the collapsed result in the state they were computed in. */
  lemma {:induction false} RunKeepsSync(h: History, q: Query, key: Name, listed: seq<set<Raw>>,
          clients: seq<Client>, rounds: seq<Round>, i: nat)
    requires Run(h, q, key, listed, clients, rounds) && i < |rounds|
    requires Window(h, clients[0].since, clients[0].since)
    requires clients[0].list == ResultAt(h, q, key, clients[0].since)
    ensures Synced(h, q, key, listed, clients[i + 1], rounds[i].call.done)
    ensures rounds[i].call.answer.Positions? ==> clients[i + 1].list == ResultAt(h, q, key, rounds[i].call.upTo)
  {
    var c, r := clients[i], rounds[i];
    if i == 0 {
      assert forall id :: id in c.list ==> C.Represents(q, h.states[c.since], key, id);
      SyncedLater(h, q, key, listed, c, c.since, r.call.upTo);
    } else {
      RunKeepsSync(h, q, key, listed, clients, rounds, i - 1);
      SyncedLater(h, q, key, listed, c, rounds[i - 1].call.done, r.call.upTo);
    }
    match r.call.answer {
      case Unchanged => UnchangedKeepsSync(h, q, key, listed, c, r);
      case NoPositions => NoPositionsKeepsSync(h, q, key, listed, c, r);
      case Positions =>
        PositionsExact(h, q, key, listed, c, r);
        PositionsKeepSync(h, q, key, listed, c, r);
    }
  }
}
