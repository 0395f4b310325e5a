/** Foo/queryChanges (core/runtime/query.go, section 5.6 of RFC 8620) against the
    commit history: what a client's cached list is worth after each reply.

    Sequence numbers are the clock. A call reads the query state, then the bound
    `upTo` of the log walk; an answer carrying positions evaluates the query and
    is only sent if no commit landed in between, an answer without positions may
    have read every candidate record at its own moment. The query state is the
    type's own, or, for a type with a group companion, the later of the two. */
module QueryChanges {
  import opened ByteOrder
  import opened Records
  import opened Lists
  import opened Splice
  import opened Results
  import opened History
  import opened Places

  /** A client: its cached list and the query state it belongs to. */
  datatype Client = Client(list: seq<Id>, since: nat)

  datatype Answer =
    | Unchanged   // tier 0: no commit past the client's state
    | NoPositions // tier 1, or tier 2 with nothing to add: no candidate matched when it was read
    | Positions   // tier 2: evaluated, sequence re-checked

  /** stateRead: the sequence when the query state was read; state: what it was; upTo:
      the bound of the log walk; done: the sequence when the reply left. */
  datatype Call = Call(stateRead: nat, state: nat, upTo: nat, done: nat, answer: Answer)

  /** What the query is over: in every table its matches are comparable, and - on the
      immutable diet - no update moves a record and no id comes back. */
  ghost predicate Setting(h: History, q: Query, immutable: bool) {
    && Legal(h)
    && (forall n :: 0 <= n < |h.states| ==> Orderly(q, Matched(q, h.states[n])))
    && (immutable ==> UpdatesKeepStanding(h, q) && NoReuse(h))
  }

  ghost predicate UpdatesKeepStanding(h: History, q: Query)
    requires Legal(h)
  {
    forall n :: 0 <= n < |h.entries| ==> KeepsStanding(q, h.states[n], h.entries[n], h.states[n + 1])
  }

  ghost predicate KeepsStanding(q: Query, before: Table, c: Change, after: Table) {
    forall id :: id in c.updated && id in before && id in after ==> SameStanding(q, before[id], after[id])
  }

  ghost predicate NoReuse(h: History)
    requires Legal(h)
  {
    forall n, m, id :: 0 <= m <= n < |h.entries| && id in h.entries[n].created ==> id !in h.states[m]
  }

  /** The ids whose standing a window may have changed. */
  ghost function Moved(h: History, immutable: bool, a: nat, b: nat): set<Id>
    requires Window(h, a, b)
  {
    if immutable then CameOrWent(h, a, b) else Touched(h, a, b)
  }

  ghost function Removed(h: History, immutable: bool, a: nat, b: nat): set<Id>
    requires Window(h, a, b)
  {
    RemovedSet(NetCreated(h, a, b), NetUpdated(h, a, b), NetDestroyed(h, a, b), {}, immutable)
  }

  ghost function Candidates(h: History, immutable: bool, a: nat, b: nat): set<Id>
    requires Window(h, a, b)
  {
    AddCand(NetCreated(h, a, b), NetUpdated(h, a, b), {}, immutable)
  }

  /** The record is in the result after commit n. */
  ghost predicate Shows(h: History, q: Query, n: nat, id: Id)
    requires n < |h.states|
  {
    id in h.states[n] && q.matches(h.states[n][id])
  }

  /** The state is one the type could report, the reply left in the state its positions
      were computed in, and a candidate that shows at the bound without being given a
      position moved after it. */
  ghost predicate Answered(h: History, q: Query, immutable: bool, c: Client, k: Call) {
    && Window(h, k.stateRead, k.upTo) && Window(h, k.upTo, k.done)
    && c.since <= k.stateRead && TypeState(h, k.stateRead) <= k.state <= k.stateRead
    && match k.answer
       case Unchanged => k.state <= c.since
       case NoPositions =>
         forall id :: id in Candidates(h, immutable, c.since, k.upTo) && Shows(h, q, k.upTo, id) ==>
           id in Moved(h, immutable, k.upTo, k.done)
       case Positions => k.done == k.upTo
  }

  /** The window the code leaves open, between the state read (query.go:299) and the
      bound read (changedids.go:69): no result of the reply was created in it. */
  ghost predicate NothingCreatedBetween(h: History, q: Query, k: Call)
    requires Window(h, k.state, k.upTo)
  {
    forall id :: id in NetCreated(h, k.state, k.upTo) ==> !q.matches(h.states[k.upTo][id])
  }

  /** The client after splicing the reply. */
  ghost function Spliced(h: History, q: Query, immutable: bool, c: Client, k: Call): Client
    requires Setting(h, q, immutable) && Answered(h, q, immutable, c, k)
  {
    match k.answer
    case Unchanged => Client(c.list, k.state)
    case NoPositions => Client(Without(c.list, Removed(h, immutable, c.since, k.upTo)), k.state)
    case Positions =>
      var results := Result(q, h.states[k.upTo]);
      Client(SpliceReply(c.list, Removed(h, immutable, c.since, k.upTo),
                         AddedOf(results, Candidates(h, immutable, c.since, k.upTo))), k.state)
  }

  /** The client's list agrees with the result at `now` on every id the log has not
      moved since the client's state, in the same order; and it holds only ids that
      existed at that state. */
  ghost predicate Synced(h: History, q: Query, immutable: bool, c: Client, now: nat) {
    && Setting(h, q, immutable)
    && Window(h, c.since, now)
    && Elems(c.list) <= h.states[c.since].Keys
    && Without(c.list, Moved(h, immutable, c.since, now))
       == Without(Result(q, h.states[now]), Moved(h, immutable, c.since, now))
  }

  // ---- Stability over a window ----

  lemma StandingKept(h: History, q: Query, a: nat, b: nat, id: Id)
    requires Setting(h, q, true) && Window(h, a, b) && id !in CameOrWent(h, a, b)
    requires id in h.states[a] && id in h.states[b]
    ensures SameStanding(q, h.states[a][id], h.states[b][id])
  {
    forall n | a < n <= b ensures Steady(q, h.states[n - 1], h.states[n], id) { StepSteady(h, q, a, n, b, id); }
    SteadyThroughout(q, h.states, a, b, id);
  }

  /** The record is on both sides of a step, and the query treats it alike. */
  ghost predicate Steady(q: Query, before: Table, after: Table, id: Id) {
    id in before && id in after && SameStanding(q, before[id], after[id])
  }

  lemma StepSteady(h: History, q: Query, a: nat, n: nat, b: nat, id: Id)
    requires Setting(h, q, true) && Window(h, a, b) && a < n <= b && id !in CameOrWent(h, a, b) && id in h.states[a]
    ensures Steady(q, h.states[n - 1], h.states[n], id)
  {
    TouchedSplit(h, a, n, b);
    StayedPresent(h, a, n - 1, id);
    StayedPresent(h, a, n, id);
    LastStanding(h, q, n, id);
  }

  lemma {:induction false} SteadyThroughout(q: Query, states: seq<Table>, a: nat, b: nat, id: Id)
    requires a <= b < |states| && id in states[a]
    requires forall n :: a < n <= b ==> Steady(q, states[n - 1], states[n], id)
    ensures id in states[b] && SameStanding(q, states[a][id], states[b][id])
    decreases b
  {
    if a < b {
      SteadyThroughout(q, states, a, b - 1, id);
      assert Steady(q, states[b - 1], states[b], id);
      StandingChains(q, states[a][id], states[b - 1][id], states[b][id]);
    }
  }

  lemma LastStanding(h: History, q: Query, b: nat, id: Id)
    requires Setting(h, q, true) && Window(h, b, b) && b > 0 && id in h.states[b - 1] && id in h.states[b]
    requires id !in h.entries[b - 1].created && id !in h.entries[b - 1].destroyed
    ensures SameStanding(q, h.states[b - 1][id], h.states[b][id])
  {
    assert LegalStep(h.states[b - 1], h.entries[b - 1], h.states[b]);
    assert KeepsStanding(q, h.states[b - 1], h.entries[b - 1], h.states[b]);
  }

  lemma StandingChains(q: Query, x: Object, y: Object, z: Object)
    requires SameStanding(q, x, y) && SameStanding(q, y, z)
    ensures SameStanding(q, x, z)
  {
  }

  lemma WindowStable(h: History, q: Query, immutable: bool, a: nat, b: nat)
    requires Setting(h, q, immutable) && Window(h, a, b)
    ensures StableOutside(q, h.states[a], h.states[b], Moved(h, immutable, a, b))
  {
    forall id | id !in Moved(h, immutable, a, b)
      ensures id in h.states[a] <==> id in h.states[b]
      ensures id in h.states[a] && id in h.states[b] ==> SameStanding(q, h.states[a][id], h.states[b][id])
    {
      if immutable {
        StayedPresent(h, a, b, id);
        if id in h.states[a] { StandingKept(h, q, a, b, id); }
      } else {
        UntouchedSame(h, a, b, id);
      }
    }
  }

  /** A reply without positions may read each candidate at a moment of its own: one
      that fails to match there did not show at the bound, or moved after it. */
  lemma ReadingAnswers(h: History, q: Query, immutable: bool, upTo: nat, at: nat, done: nat, id: Id)
    requires Setting(h, q, immutable) && Window(h, upTo, at) && Window(h, at, done) && !Shows(h, q, at, id)
    ensures Shows(h, q, upTo, id) ==> id in Moved(h, immutable, upTo, done)
  {
    MovedSplit(h, immutable, upTo, at, done);
    WindowStable(h, q, immutable, upTo, at);
  }

  lemma MovedSplit(h: History, immutable: bool, a: nat, b: nat, c: nat)
    requires Window(h, a, b) && Window(h, b, c)
    ensures Moved(h, immutable, a, c) == Moved(h, immutable, a, b) + Moved(h, immutable, b, c)
  {
    TouchedSplit(h, a, b, c);
  }

  /** Agreement survives later commits: what they move leaves the comparison. */
  lemma SyncedLater(h: History, q: Query, immutable: bool, c: Client, now: nat, later: nat)
    requires Synced(h, q, immutable, c, now) && Window(h, now, later)
    ensures Synced(h, q, immutable, c, later)
  {
    var m0, m1 := Moved(h, immutable, c.since, now), Moved(h, immutable, now, later);
    MovedSplit(h, immutable, c.since, now, later);
    var r0, r1 := Result(q, h.states[now]), Result(q, h.states[later]);
    WindowStable(h, q, immutable, now, later);
    StableResults(q, h.states[now], h.states[later], m1, r0, r1);
    WithoutTwice(c.list, m0, m1);
    WithoutTwice(r0, m0, m1);
    WithoutTwice(r0, m1, m0);
    WithoutTwice(r1, m1, m0);
    assert m0 + m1 == m1 + m0;
  }

  /** Over a window, an id that existed at its start is removed exactly when it
      moved; one that exists at its end is a candidate exactly when it moved. */
  lemma {:induction false} ReportsCoverMoves(h: History, q: Query, immutable: bool, a: nat, b: nat, id: Id)
    requires Setting(h, q, immutable) && Window(h, a, b)
    ensures id in h.states[a] ==> (id in Removed(h, immutable, a, b) <==> id in Moved(h, immutable, a, b))
    ensures id in h.states[b] ==> (id in Candidates(h, immutable, a, b) <==> id in Moved(h, immutable, a, b))
  {
    if immutable {
      if id !in CameOrWent(h, a, b) {
        StayedPresent(h, a, b, id);
      } else {
        CameAndStayed(h, a, b, id);
      }
    } else if id !in Touched(h, a, b) {
      UntouchedSame(h, a, b, id);
    }
  }

  /** Without reuse, an id that came or went is missing at one end. */
  lemma {:induction false} CameAndStayed(h: History, a: nat, b: nat, id: Id)
    requires Window(h, a, b) && NoReuse(h) && id in CameOrWent(h, a, b)
    ensures id !in h.states[a] || id !in h.states[b]
  {
    assert LegalStep(h.states[b - 1], h.entries[b - 1], h.states[b]);
    if id in CameOrWent(h, a, b - 1) {
      CameAndStayed(h, a, b - 1, id);
      assert id in h.entries[b - 1].created ==> id !in h.states[a];
    }
  }

  // ---- The replies ----

  /** A reply with positions resynchronizes exactly: whatever the client missed
      before, its list becomes the true result in the one committed state the
      positions were computed in. */
  lemma PositionsExact(h: History, q: Query, immutable: bool, c: Client, k: Call)
    requires Synced(h, q, immutable, c, k.upTo) && Answered(h, q, immutable, c, k) && k.answer.Positions?
    ensures Spliced(h, q, immutable, c, k).list == Result(q, h.states[k.upTo])
  {
    var a, b := c.since, k.upTo;
    var results := Result(q, h.states[b]);
    var removed, cand := Removed(h, immutable, a, b), Candidates(h, immutable, a, b);
    var moved := Moved(h, immutable, a, b);
    forall id | id in c.list ensures id in removed <==> id in moved {
      assert id in Elems(c.list);
      ReportsCoverMoves(h, q, immutable, a, b, id);
    }
    WithoutSame(c.list, removed, moved);
    forall id | id in results ensures id in cand <==> id in moved {
      assert id in Elems(results);
      ReportsCoverMoves(h, q, immutable, a, b, id);
    }
    WithoutSame(results, cand, moved);
    SpliceExact(c.list, results, removed, cand);
  }

  /** Such a reply keeps the agreement if no result was created between its state read
      and its bound read. */
  lemma PositionsKeepSync(h: History, q: Query, immutable: bool, c: Client, k: Call)
    requires Synced(h, q, immutable, c, k.upTo) && Answered(h, q, immutable, c, k) && k.answer.Positions?
    requires NothingCreatedBetween(h, q, k)
    ensures Synced(h, q, immutable, Spliced(h, q, immutable, c, k), k.done)
  {
    PositionsExact(h, q, immutable, c, k);
    forall id | id in Elems(Result(q, h.states[k.upTo])) ensures id in h.states[k.state] {
      assert id in Matching(q, h.states[k.upTo]);
      assert id !in NetCreated(h, k.state, k.upTo);
    }
  }

  /** What the race does: the next reply with positions leaves the client holding the
      true result if and only if no result was created between the state read and the
      bound read of the one before - whether the record created there still shows, has
      stopped matching or is gone by then. */
  lemma NextReplyIff(h: History, q: Query, immutable: bool, c: Client, k: Call, k2: Call)
    requires Synced(h, q, immutable, c, k.upTo) && Answered(h, q, immutable, c, k) && k.answer.Positions?
    requires Answered(h, q, immutable, Spliced(h, q, immutable, c, k), k2)
    requires k2.answer.Positions? && k.done <= k2.stateRead
    ensures Spliced(h, q, immutable, Spliced(h, q, immutable, c, k), k2).list == Result(q, h.states[k2.upTo])
       <==> NothingCreatedBetween(h, q, k)
  {
    var c1 := Spliced(h, q, immutable, c, k);
    if NothingCreatedBetween(h, q, k) {
      PositionsKeepSync(h, q, immutable, c, k);
      SyncedLater(h, q, immutable, c1, k.done, k2.upTo);
      PositionsExact(h, q, immutable, c1, k2);
    } else {
      PositionsExact(h, q, immutable, c, k);
      var id :| id in NetCreated(h, k.state, k.upTo) && q.matches(h.states[k.upTo][id]);
      LeftOver(h, q, immutable, c1, k2, id);
    }
  }

  /** An id in the list that did not exist at the client's state spoils the splice: it
      is never removed, and if it is still a result it is added once more. */
  lemma LeftOver(h: History, q: Query, immutable: bool, c: Client, k: Call, id: Id)
    requires Setting(h, q, immutable) && Answered(h, q, immutable, c, k) && k.answer.Positions?
    requires c.since < |h.states| && id in Elems(c.list) && id !in h.states[c.since]
    ensures Spliced(h, q, immutable, c, k).list != Result(q, h.states[k.upTo])
  {
    var a, b, results := c.since, k.upTo, Result(q, h.states[k.upTo]);
    var removed, cand := Removed(h, immutable, a, b), Candidates(h, immutable, a, b);
    WithoutMembers(c.list, removed);
    WithoutMembers(results, cand);
    assert id in Without(c.list, removed);
    assert id in Elems(results) ==> id in NetCreated(h, a, b);
    SpliceExact(c.list, results, removed, cand);
  }

  /** With no commit to the type in that window, the list is the result at the
      reply's own query state. */
  lemma PositionsAtQueryState(h: History, q: Query, immutable: bool, c: Client, k: Call)
    requires Synced(h, q, immutable, c, k.upTo) && Answered(h, q, immutable, c, k) && k.answer.Positions?
    requires TypeState(h, k.upTo) <= k.state
    ensures NothingCreatedBetween(h, q, k)
    ensures Spliced(h, q, immutable, c, k).list == Result(q, h.states[Spliced(h, q, immutable, c, k).since])
  {
    PositionsExact(h, q, immutable, c, k);
    StateTellsTruth(h, k.state, k.upTo);
  }

  /** A reply without positions keeps the agreement under any race with commits: a
      candidate it dropped either still does not match, or the log names it again
      past the reply's query state. */
  lemma NoPositionsKeepsSync(h: History, q: Query, immutable: bool, c: Client, k: Call)
    requires Synced(h, q, immutable, c, k.upTo) && Answered(h, q, immutable, c, k) && k.answer.NoPositions?
    ensures Synced(h, q, immutable, Spliced(h, q, immutable, c, k), k.done)
  {
    var a, b, now := c.since, k.upTo, k.done;
    var list := Without(c.list, Removed(h, immutable, a, b));
    var late, extra := Moved(h, immutable, b, now), Moved(h, immutable, k.state, b);
    MovedSplit(h, immutable, k.state, b, now);
    NoPositionsAgrees(h, q, immutable, c, k);
    WithoutTwice(list, late, extra);
    WithoutTwice(Result(q, h.states[now]), late, extra);
    assert late + extra == extra + late;
    forall id | id in list ensures id in h.states[k.state] {
      KeptExists(h, q, immutable, c, k, id);
    }
  }

  /** What the reply leaves in the list existed at the reported state. */
  lemma KeptExists(h: History, q: Query, immutable: bool, c: Client, k: Call, id: Id)
    requires Synced(h, q, immutable, c, k.upTo) && Answered(h, q, immutable, c, k)
    requires id in Without(c.list, Removed(h, immutable, c.since, k.upTo))
    ensures id in h.states[k.state]
  {
    var a, state := c.since, k.state;
    WithoutMembers(c.list, Removed(h, immutable, a, k.upTo));
    assert id in Elems(c.list);
    if state < a {
      StateAgrees(h, a, k.stateRead);
      StateTellsTruth(h, state, a);
    } else {
      ReportsCoverMoves(h, q, immutable, a, k.upTo, id);
      MovedSplit(h, immutable, a, state, k.upTo);
      WindowStable(h, q, immutable, a, state);
    }
  }

  lemma NoPositionsAgrees(h: History, q: Query, immutable: bool, c: Client, k: Call)
    requires Synced(h, q, immutable, c, k.upTo) && Answered(h, q, immutable, c, k) && k.answer.NoPositions?
    ensures Without(Without(c.list, Removed(h, immutable, c.since, k.upTo)), Moved(h, immutable, k.upTo, k.done))
         == Without(Result(q, h.states[k.done]), Moved(h, immutable, k.upTo, k.done))
  {
    var a, b, now := c.since, k.upTo, k.done;
    SyncedLater(h, q, immutable, c, b, now);
    MovedSplit(h, immutable, a, b, now);
    var removed := Removed(h, immutable, a, b);
    var early, late := Moved(h, immutable, a, b), Moved(h, immutable, b, now);
    var results := Result(q, h.states[now]);
    forall id | id in c.list ensures id in removed + late <==> id in early + late {
      assert id in Elems(c.list);
      ReportsCoverMoves(h, q, immutable, a, b, id);
    }
    WithoutSame(c.list, removed + late, early + late);
    WithoutTwice(c.list, removed, late);
    forall id | id in results ensures id in early + late <==> id in late {
      DroppedStaysOut(h, q, immutable, c, k, id);
    }
    WithoutSame(results, early + late, late);
  }

  /** A result at the end of a call without positions moved early only if it also
      moved late. */
  lemma DroppedStaysOut(h: History, q: Query, immutable: bool, c: Client, k: Call, id: Id)
    requires Synced(h, q, immutable, c, k.upTo) && Answered(h, q, immutable, c, k) && k.answer.NoPositions?
    requires id in Result(q, h.states[k.done])
    ensures id in Moved(h, immutable, c.since, k.upTo) ==> id in Moved(h, immutable, k.upTo, k.done)
  {
    var a, b, now := c.since, k.upTo, k.done;
    assert id in Elems(Result(q, h.states[now]));
    WindowStable(h, q, immutable, b, now);
    ReportsCoverMoves(h, q, immutable, a, b, id);
    assert id !in Moved(h, immutable, b, now) ==> Shows(h, q, b, id);
  }

  /** An empty reply is right: no commit touched the type past the client's state. */
  lemma UnchangedKeepsSync(h: History, q: Query, immutable: bool, c: Client, k: Call)
    requires Synced(h, q, immutable, c, k.upTo) && Answered(h, q, immutable, c, k)
    requires k.answer.Unchanged?
    ensures Synced(h, q, immutable, Spliced(h, q, immutable, c, k), k.done)
  {
    SyncedLater(h, q, immutable, c, k.upTo, k.done);
    StateAgrees(h, c.since, k.stateRead);
    StateTellsTruth(h, k.state, c.since);
    MovedSplit(h, immutable, k.state, c.since, k.done);
    assert Moved(h, immutable, k.state, k.done) == Moved(h, immutable, c.since, k.done);
  }

  // ---- Whole runs ----

  /** A client's run: each call starts where the previous one left off, at a later
      moment, with any number of commits in between. */
  ghost predicate Run(h: History, q: Query, immutable: bool, clients: seq<Client>, calls: seq<Call>) {
    && Setting(h, q, immutable)
    && |clients| == |calls| + 1
    && (forall i :: 0 <= i < |calls| ==>
          && Answered(h, q, immutable, clients[i], calls[i])
          && (calls[i].answer.Positions? ==> NothingCreatedBetween(h, q, calls[i]))
          && clients[i + 1] == Spliced(h, q, immutable, clients[i], calls[i]))
    && (forall i :: 0 < i < |calls| ==> calls[i - 1].done <= calls[i].stateRead)
  }

  /** Over every run, from a list that was right at its state: the client agrees
      with the current result on all ids not moved since, and every reply with
      positions leaves it holding exactly the result in the state it was computed in. */
  lemma {:induction false} RunKeepsSync(h: History, q: Query, immutable: bool, clients: seq<Client>,
          calls: seq<Call>, i: nat)
    requires Run(h, q, immutable, clients, calls) && i < |calls|
    requires Window(h, clients[0].since, clients[0].since)
    requires IsResult(q, h.states[clients[0].since], clients[0].list)
    ensures Synced(h, q, immutable, clients[i + 1], calls[i].done)
    ensures calls[i].answer.Positions? ==>
      clients[i + 1].list == Result(q, h.states[calls[i].upTo])
  {
    var c, k := clients[i], calls[i];
    if i == 0 {
      ResultUnique(q, h.states[c.since], c.list, Result(q, h.states[c.since]));
      SyncedLater(h, q, immutable, c, c.since, k.upTo);
    } else {
      RunKeepsSync(h, q, immutable, clients, calls, i - 1);
      SyncedLater(h, q, immutable, c, calls[i - 1].done, k.upTo);
    }
    match k.answer {
      case Unchanged => UnchangedKeepsSync(h, q, immutable, c, k);
      case NoPositions => NoPositionsKeepsSync(h, q, immutable, c, k);
      case Positions =>
        PositionsExact(h, q, immutable, c, k);
        PositionsKeepSync(h, q, immutable, c, k);
    }
  }

  /** One commit, creating `x`; and the query that matches everything. */
  function OneCreate(x: Id, o: Object): History { History([map[], map[x := o]], [Change({x}, {}, {})]) }

  const everything: Query := Query((r: Object) => true, (r: Object, s: Object) => 0)

  lemma OneCreateFacts(x: Id, o: Object)
    ensures var h := OneCreate(x, o);
      && Setting(h, everything, false)
      && TypeState(h, 0) == 0 && TypeState(h, 1) == 1
      && Removed(h, false, 0, 1) == {} && Candidates(h, false, 0, 1) == {x}
      && Result(everything, h.states[0]) == [] && Result(everything, h.states[1]) == [x]
  {
    var h := OneCreate(x, o);
    assert LegalStep(h.states[0], h.entries[0], h.states[1]);
    assert IsResult(everything, h.states[0], []) && IsResult(everything, h.states[1], [x]);
    ResultUnique(everything, h.states[0], [], Result(everything, h.states[0]));
    ResultUnique(everything, h.states[1], [x], Result(everything, h.states[1]));
    assert NetUpdated(h, 0, 1) == {};
  }

  lemma SpliceTwice(x: Id)
    ensures SpliceReply([], {}, AddedOf([x], {x})) == [x] && SpliceReply([x], {}, AddedOf([x], {x})) == [x, x]
  {
    var none: seq<Id> := [];
    assert AddedOf([x], {x}) == AddedOf(none, {x}) + [AddedItem(x, 0)] by { assert [x][..0] == none; }
    WithoutNone([x], {});
    InsertAllSnoc([], [], AddedItem(x, 0));
    InsertAllSnoc([x], [], AddedItem(x, 0));
  }

  /** The bad run: a record created between the two reads is reported now, reported
      again by the next call, and ends up in the client's list twice. */
  lemma RaceDuplicates(x: Id, o: Object)
    ensures var h, q := OneCreate(x, o), everything;
      var c, k1, k2 := Client([], 0), Call(0, 0, 1, 1, Positions), Call(1, 1, 1, 1, Positions);
      && Setting(h, q, false) && IsResult(q, h.states[0], c.list)
      && Answered(h, q, false, c, k1) && !NothingCreatedBetween(h, q, k1)
      && var c1 := Spliced(h, q, false, c, k1);
         Answered(h, q, false, c1, k2) && Spliced(h, q, false, c1, k2).list == [x, x] != Result(q, h.states[1])
  {
    OneCreateFacts(x, o);
    SpliceTwice(x);
    var h, q := OneCreate(x, o), everything;
    assert x in NetCreated(h, 0, 1);
    assert Spliced(h, q, false, Client([], 0), Call(0, 0, 1, 1, Positions)) == Client([x], 0);
  }

  /** The same window in Foo/query: the record created after the evaluation and before
      the state read is in no list, and the next reply does not report it. */
  lemma LateStateHides(x: Id, o: Object)
    ensures var h, q := OneCreate(x, o), everything;
      var c, k := Client(Result(q, h.states[0]), TypeState(h, 1)), Call(1, 1, 1, 1, Positions);
      && !KeepsPlace(q, h.states[0], q, h.states[1], x) && Answered(h, q, false, c, k)
      && Spliced(h, q, false, c, k).list == [] != Result(q, h.states[1])
  {
    OneCreateFacts(x, o);
    var h, q := OneCreate(x, o), everything;
    assert x in Matching(q, h.states[1]);
    assert NetCreated(h, 1, 1) == {} && NetUpdated(h, 1, 1) == {};
    var none: seq<Id> := [];
    WithoutNone(none, {});
    assert AddedOf([x], {}) == AddedOf(none, {}) by { assert [x][..0] == none; }
  }
}
