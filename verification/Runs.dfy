/** Runs of one account's store: any interleaving of commits, trims and upload or
    sweep writes, each one atomic batch. What every reachable store keeps, and the
    one history per type that all of them record. */
module Runs {
  import opened Options
  import opened ByteOrder
  import opened Records
  import opened Keys
  import opened Store
  import opened Schema
  import opened Results
  import opened History
  import opened Commits
  import opened ChangeLog
  import opened Trim

  ghost predicate BlobsOnly(s: Store, s': Store) {
    forall k: Key :: !k.Upload? && !k.Pending? ==> Lookup(s', k) == Lookup(s, k)
  }

  ghost predicate Step(sc: Schema, s: Store, s': Store) {
    || (exists staged: Staging, bumped: set<Name> :: Committed(sc, s, staged, bumped, s'))
    || (exists floor: nat :: Trimmed(s, s', floor))
    || BlobsOnly(s, s')
  }

  ghost predicate StepAt(sc: Schema, run: seq<Store>, i: int)
    requires 0 <= i < |run| - 1
  {
    Step(sc, run[i], run[i + 1])
  }

  /** A run from the empty account. */
  ghost predicate IsRun(sc: Schema, run: seq<Store>) {
    && |run| > 0 && run[0] == map[]
    && forall i :: 0 <= i < |run| - 1 ==> StepAt(sc, run, i)
  }

  lemma RunSnoc(sc: Schema, run: seq<Store>, s: Store)
    requires IsRun(sc, run) && Step(sc, run[|run| - 1], s)
    ensures IsRun(sc, run + [s])
  {
    var run' := run + [s];
    forall i | 0 <= i < |run'| - 1 ensures StepAt(sc, run', i) {
      if i < |run| - 1 { assert StepAt(sc, run, i); }
    }
  }

  // ---- What one step does to the log ----

  /** The later store holds every entry of the earlier one that its floor spares. */
  ghost predicate LogKept(s: Store, s': Store) {
    && LogFloor(s) <= LogFloor(s') && Sequence(s) <= Sequence(s')
    && forall n: nat :: LogFloor(s') <= n <= Sequence(s) ==> Lookup(s', Key.Log(n)) == Lookup(s, Key.Log(n))
  }

  lemma CommitKeepsLog(sc: Schema, s: Store, staged: Staging, bumped: set<Name>, s': Store)
    requires Bounded(s) && Committed(sc, s, staged, bumped, s')
    ensures Bounded(s') && LogKept(s, s') && LogFloor(s') == LogFloor(s)
  {
    var e := CommittedRest(sc, s, staged, bumped, s');
    forall n: nat | Key.Log(n) in s' ensures s'[Key.Log(n)].Entry? && LogFloor(s') <= n && 1 <= n <= Sequence(s') {
      assert n != Sequence(s) + 1 ==> Lookup(s', Key.Log(n)) == Lookup(s, Key.Log(n));
    }
  }

  lemma TrimKeepsLog(s: Store, s': Store, floor: nat)
    requires Bounded(s) && Trimmed(s, s', floor)
    ensures Bounded(s') && LogKept(s, s') && Sequence(s') == Sequence(s)
  {
    TrimKeepsBounded(s, s', floor);
    forall n: nat | floor <= n ensures Lookup(s', Key.Log(n)) == Lookup(s, Key.Log(n)) {
      assert Lookup(s', Key.Log(n)) == if n < floor then None else Lookup(s, Key.Log(n));
    }
  }

  lemma BlobsKeepLog(s: Store, s': Store)
    requires Bounded(s) && BlobsOnly(s, s')
    ensures Bounded(s') && LogKept(s, s') && Sequence(s') == Sequence(s)
  {
    assert Lookup(s', Floor) == Lookup(s, Floor) && Lookup(s', Seq) == Lookup(s, Seq);
    forall n: nat ensures Lookup(s', Key.Log(n)) == Lookup(s, Key.Log(n)) { }
    forall n: nat | Key.Log(n) in s' ensures s'[Key.Log(n)].Entry? && LogFloor(s') <= n && 1 <= n <= Sequence(s') {
      assert Lookup(s', Key.Log(n)) == Lookup(s, Key.Log(n));
    }
  }

  lemma StepKeepsLog(sc: Schema, s: Store, s': Store)
    requires Bounded(s) && Step(sc, s, s')
    ensures Bounded(s') && LogKept(s, s')
  {
    if BlobsOnly(s, s') {
      BlobsKeepLog(s, s');
    } else if floor: nat :| Trimmed(s, s', floor) {
      TrimKeepsLog(s, s', floor);
    } else {
      var staged: Staging, bumped: set<Name> :| Committed(sc, s, staged, bumped, s');
      CommitKeepsLog(sc, s, staged, bumped, s');
    }
  }

  lemma LogKeptChains(a: Store, b: Store, c: Store)
    requires LogKept(a, b) && LogKept(b, c)
    ensures LogKept(a, c)
  {
    forall n: nat | LogFloor(c) <= n <= Sequence(a) ensures Lookup(c, Key.Log(n)) == Lookup(a, Key.Log(n)) {
      assert Lookup(b, Key.Log(n)) == Lookup(a, Key.Log(n));
    }
  }

  /** The floor only rises, nothing below it is left, and every entry at or above it
      that was ever committed is still there. */
  lemma {:induction false} FloorTellsTruth(sc: Schema, run: seq<Store>, i: nat, j: nat)
    requires IsRun(sc, run) && i <= j < |run|
    ensures Bounded(run[i]) && Bounded(run[j]) && LogKept(run[i], run[j])
    decreases j
  {
    if i < j {
      FloorTellsTruth(sc, run, i, j - 1);
      assert StepAt(sc, run, j - 1);
      StepKeepsLog(sc, run[j - 1], run[j]);
      LogKeptChains(run[i], run[j - 1], run[j]);
    } else if i > 0 {
      FloorTellsTruth(sc, run, i - 1, i - 1);
      assert StepAt(sc, run, i - 1);
      StepKeepsLog(sc, run[i - 1], run[i]);
    }
  }

  // ---- The history a run records ----

  /** What a store's log says about a type at one sequence number. */
  function Logs(s: Store, t: Name, n: nat): Change {
    if Names(s, t, n) then var te := s[Key.Log(n)].entry.types[t]; Change(te.created, te.updated, te.destroyed)
    else Change({}, {}, {})
  }

  predicate Names(s: Store, t: Name, n: nat) {
    Key.Log(n) in s && s[Key.Log(n)].Entry? && t in s[Key.Log(n)].entry.types
  }

  ghost predicate EntryRecorded(s: Store, t: Name, h: History, n: nat)
    requires 1 <= n < |h.states| && |h.states| == |h.entries| + 1
  {
    && h.entries[n - 1] == Logs(s, t, n)
    && (Names(s, t, n) <==> h.entries[n - 1].All() != {})
    && (Names(s, t, n) ==> EntryPropsTell(h.states[n - 1], s[Key.Log(n)].entry.types[t], h.states[n]))
  }

  /** The store is the history's table at its own sequence number, its log is the
      history's log from the floor on, and its state string is not older than the
      last commit that touched the type. */
  ghost predicate Recorded(sc: Schema, s: Store, t: Name, h: History) {
    && |h.states| == |h.entries| + 1 && Sequence(s) < |h.states|
    && h.states[Sequence(s)] == VisibleTable(sc, s, t)
    && (forall n: nat :: LogFloor(s) <= n && 1 <= n <= Sequence(s) ==> EntryRecorded(s, t, h, n))
    && StateOf(s, t) <= Sequence(s)
    && (forall n :: StateOf(s, t) < n <= Sequence(s) ==> Untouched(h, n))
  }

  ghost predicate Untouched(h: History, n: int) { 1 <= n <= |h.entries| && h.entries[n - 1].All() == {} }

  ghost predicate IsHistory(sc: Schema, run: seq<Store>, t: Name, h: History) {
    IsRun(sc, run) && RecordedTo(sc, run, t, h, |run| - 1)
  }

  /** The run's first stores, up to index n, record the history. */
  ghost predicate RecordedTo(sc: Schema, run: seq<Store>, t: Name, h: History, n: nat)
    requires n < |run|
  {
    && Legal(h) && |h.entries| == Sequence(run[n])
    && forall i :: 0 <= i <= n ==> Recorded(sc, run[i], t, h)
  }

  lemma SameRecords(sc: Schema, s: Store, s': Store, t: Name)
    requires t in sc.types && forall id :: ObjectAt(s', t, id) == ObjectAt(s, t, id)
    ensures VisibleTable(sc, s', t) == VisibleTable(sc, s, t)
  {
    var a, b := VisibleTable(sc, s, t), VisibleTable(sc, s', t);
    forall id ensures (id in a <==> id in b) && (id in a ==> a[id] == b[id]) {
      assert ObjectAt(s', t, id) == ObjectAt(s, t, id);
      VisibleAt(sc, s, t, id);
      VisibleAt(sc, s', t, id);
    }
  }

  /** A step that does not advance the sequence changes no record and no state. */
  lemma QuietStep(sc: Schema, s: Store, s': Store, t: Name)
    requires Bounded(s) && Step(sc, s, s') && Sequence(s') == Sequence(s) && t in sc.types
    ensures VisibleTable(sc, s', t) == VisibleTable(sc, s, t) && StateOf(s', t) == StateOf(s, t)
    ensures forall id :: ObjectAt(s', t, id) == ObjectAt(s, t, id)
  {
    forall staged: Staging, bumped: set<Name> | Committed(sc, s, staged, bumped, s') ensures false {
      CommittedNumbers(sc, s, staged, bumped, s', t);
    }
    forall id ensures ObjectAt(s', t, id) == ObjectAt(s, t, id) {
      assert Lookup(s', Obj(t, id)) == Lookup(s, Obj(t, id));
    }
    assert Lookup(s', State(t)) == Lookup(s, State(t));
    SameRecords(sc, s, s', t);
  }

  lemma QuietStepRecorded(sc: Schema, s: Store, s': Store, t: Name, h: History)
    requires Bounded(s) && Step(sc, s, s') && Sequence(s') == Sequence(s) && t in sc.types && Recorded(sc, s, t, h)
    ensures Recorded(sc, s', t, h)
  {
    QuietStep(sc, s, s', t);
    StepKeepsLog(sc, s, s');
    forall n: nat | LogFloor(s') <= n && 1 <= n <= Sequence(s') ensures EntryRecorded(s', t, h, n) {
      assert Lookup(s', Key.Log(n)) == Lookup(s, Key.Log(n));
      assert EntryRecorded(s, t, h, n);
    }
  }

  /** Adding a commit to the history leaves what earlier stores record. */
  ghost function Extended(sc: Schema, h: History, s': Store, t: Name): History {
    History(h.states + [VisibleTable(sc, s', t)], h.entries + [Logs(s', t, Sequence(s'))])
  }

  lemma StillRecorded(sc: Schema, s: Store, t: Name, h: History, s': Store)
    requires Recorded(sc, s, t, h)
    ensures Recorded(sc, s, t, Extended(sc, h, s', t))
  {
    var h' := Extended(sc, h, s', t);
    forall n: nat | LogFloor(s) <= n && 1 <= n <= Sequence(s) ensures EntryRecorded(s, t, h', n) {
      assert EntryRecorded(s, t, h, n);
    }
    forall n | StateOf(s, t) < n <= Sequence(s) ensures Untouched(h', n) { assert Untouched(h, n); }
  }

  /** The entry a commit writes is the change it makes to the visible table. */
  lemma CommitLogged(sc: Schema, s: Store, staged: Staging, bumped: set<Name>, s': Store, t: Name)
    requires Committed(sc, s, staged, bumped, s') && t in sc.types && Bounded(s)
    ensures Sequence(s') == Sequence(s) + 1
    ensures Names(s', t, Sequence(s')) <==> TouchesType(staged, t)
    ensures Logs(s', t, Sequence(s')) == ChangeOf(staged, t)
    ensures Names(s', t, Sequence(s')) ==> EntryFor(sc, staged, t, s'[Key.Log(Sequence(s'))].entry.types[t])
  {
    var e := CommittedRest(sc, s, staged, bumped, s');
    TouchesIffLogged(staged, t);
    NamedInEntry(sc, staged, t, e, s', Sequence(s) + 1);
    if !TouchesType(staged, t) { assert ChangeOf(staged, t) == Change({}, {}, {}); }
  }

  lemma NamedInEntry(sc: Schema, staged: Staging, t: Name, e: Option<Option<Val>>, s': Store, n: nat)
    requires LogEffect(sc, staged, e) && (e.Some? ==> Lookup(s', Key.Log(n)) == e.value)
    requires (e.None? ==> Key.Log(n) !in s')
    ensures Names(s', t, n) <==> TouchesType(staged, t)
    ensures Names(s', t, n) ==> EntryFor(sc, staged, t, s'[Key.Log(n)].entry.types[t])
  {
    if TouchesType(staged, t) { assert exists u :: TouchesType(staged, u); }
  }

  lemma CommitPropsTell(sc: Schema, s: Store, staged: Staging, bumped: set<Name>, s': Store, t: Name, te: TypeEntry)
    requires Committed(sc, s, staged, bumped, s') && t in sc.types && EntryFor(sc, staged, t, te)
    ensures EntryPropsTell(VisibleTable(sc, s, t), te, VisibleTable(sc, s', t))
  {
    var a, b := VisibleTable(sc, s, t), VisibleTable(sc, s', t);
    if te.updatedProps.Some? {
      forall id | id in te.updated && id in a && id in b ensures DiffProps(a[id], b[id]) <= te.updatedProps.value {
        PropsCoverUpdates(sc, s, staged, bumped, s', t, id);
        VisibleAt(sc, s, t, id);
        VisibleAt(sc, s', t, id);
        DiffOfVisible(sc.types[t], ObjectAt(s, t, id).value, ObjectAt(s', t, id).value);
      }
    }
  }

  lemma DiffOfVisible(ty: Type, x: Object, y: Object)
    ensures DiffProps(Visible(ty, x), Visible(ty, y)) <= VisibleDiff(ty, x, y)
  {
  }

  lemma LegalSnoc(h: History, c: Change, after: Table)
    requires Legal(h) && LegalStep(h.states[|h.entries|], c, after)
    ensures Legal(History(h.states + [after], h.entries + [c]))
  {
    var h' := History(h.states + [after], h.entries + [c]);
    forall n | 0 <= n < |h'.entries| ensures LegalStep(h'.states[n], h'.entries[n], h'.states[n + 1]) {
      if n < |h.entries| { assert LegalStep(h.states[n], h.entries[n], h.states[n + 1]); }
    }
  }

  lemma CommitLegal(sc: Schema, s: Store, staged: Staging, bumped: set<Name>, s': Store, t: Name, h: History)
    requires Committed(sc, s, staged, bumped, s') && t in sc.types && Bounded(s)
    requires Recorded(sc, s, t, h) && Legal(h) && |h.entries| == Sequence(s)
    ensures Legal(Extended(sc, h, s', t))
  {
    CommitLogged(sc, s, staged, bumped, s', t);
    CommitLogsTruth(sc, s, staged, bumped, s', t);
    LegalSnoc(h, Logs(s', t, Sequence(s')), VisibleTable(sc, s', t));
  }

  lemma SameEntryRecorded(s: Store, s': Store, t: Name, h: History, n: nat)
    requires 1 <= n < |h.states| && |h.states| == |h.entries| + 1
    requires EntryRecorded(s, t, h, n) && Lookup(s', Key.Log(n)) == Lookup(s, Key.Log(n))
    ensures EntryRecorded(s', t, h, n)
  {
  }

  lemma NewEntryRecorded(sc: Schema, s: Store, s': Store, t: Name, h: History)
    requires |h.states| == |h.entries| + 1 && |h.entries| + 1 == Sequence(s')
    requires h.states[|h.entries|] == VisibleTable(sc, s, t)
    requires Names(s', t, Sequence(s')) <==> Logs(s', t, Sequence(s')).All() != {}
    requires Names(s', t, Sequence(s')) ==>
      EntryPropsTell(VisibleTable(sc, s, t), s'[Key.Log(Sequence(s'))].entry.types[t], VisibleTable(sc, s', t))
    ensures EntryRecorded(s', t, Extended(sc, h, s', t), Sequence(s'))
  {
  }

  lemma CommitNewEntry(sc: Schema, s: Store, staged: Staging, bumped: set<Name>, s': Store, t: Name, h: History)
    requires Committed(sc, s, staged, bumped, s') && t in sc.types
    requires Bounded(s) && Recorded(sc, s, t, h) && |h.entries| == Sequence(s)
    ensures Sequence(s') == Sequence(s) + 1 && EntryRecorded(s', t, Extended(sc, h, s', t), Sequence(s'))
  {
    CommitLogged(sc, s, staged, bumped, s', t);
    TouchesIffLogged(staged, t);
    if Names(s', t, Sequence(s')) {
      CommitPropsTell(sc, s, staged, bumped, s', t, s'[Key.Log(Sequence(s'))].entry.types[t]);
    }
    NewEntryRecorded(sc, s, s', t, h);
  }

  lemma CommitOldEntry(sc: Schema, s: Store, staged: Staging, bumped: set<Name>, s': Store, t: Name, h: History, n: nat)
    requires Committed(sc, s, staged, bumped, s') && Bounded(s) && Recorded(sc, s, t, h)
    requires LogFloor(s') <= n && 1 <= n <= Sequence(s)
    ensures EntryRecorded(s', t, Extended(sc, h, s', t), n)
  {
    CommitKeepsLog(sc, s, staged, bumped, s');
    StillRecorded(sc, s, t, h, s');
    assert EntryRecorded(s, t, Extended(sc, h, s', t), n);
    SameEntryRecorded(s, s', t, Extended(sc, h, s', t), n);
  }

  lemma CommitStateRecorded(sc: Schema, s: Store, staged: Staging, bumped: set<Name>, s': Store, t: Name,
          h: History, n: nat)
    requires Committed(sc, s, staged, bumped, s') && t in sc.types && Bounded(s)
    requires Recorded(sc, s, t, h) && |h.entries| == Sequence(s) && StateOf(s', t) < n <= Sequence(s) + 1
    ensures Untouched(Extended(sc, h, s', t), n)
  {
    CommitLogged(sc, s, staged, bumped, s', t);
    CommittedNumbers(sc, s, staged, bumped, s', t);
    TouchesIffLogged(staged, t);
    if n <= Sequence(s) { assert Untouched(h, n); }
  }

  lemma CommitRecorded(sc: Schema, s: Store, staged: Staging, bumped: set<Name>, s': Store, t: Name, h: History)
    requires Committed(sc, s, staged, bumped, s') && t in sc.types && Bounded(s)
    requires Recorded(sc, s, t, h) && Legal(h) && |h.entries| == Sequence(s)
    ensures Recorded(sc, s', t, Extended(sc, h, s', t)) && Legal(Extended(sc, h, s', t))
  {
    CommitLegal(sc, s, staged, bumped, s', t, h);
    CommittedNumbers(sc, s, staged, bumped, s', t);
    var h' := Extended(sc, h, s', t);
    forall n: nat | LogFloor(s') <= n && 1 <= n <= Sequence(s') ensures EntryRecorded(s', t, h', n) {
      if n <= Sequence(s) {
        CommitOldEntry(sc, s, staged, bumped, s', t, h, n);
      } else {
        CommitNewEntry(sc, s, staged, bumped, s', t, h);
      }
    }
    forall n | StateOf(s', t) < n <= Sequence(s') ensures Untouched(h', n) {
      CommitStateRecorded(sc, s, staged, bumped, s', t, h, n);
    }
  }

  /** Every run records one legal history of every type. */
  lemma RunHasHistory(sc: Schema, run: seq<Store>, t: Name) returns (h: History)
    requires IsRun(sc, run) && t in sc.types
    ensures IsHistory(sc, run, t, h)
  {
    h := HistoryTo(sc, run, t, |run| - 1);
  }

  lemma {:induction false} HistoryTo(sc: Schema, run: seq<Store>, t: Name, n: nat) returns (h: History)
    requires IsRun(sc, run) && t in sc.types && n < |run|
    ensures RecordedTo(sc, run, t, h, n)
  {
    if n == 0 {
      h := History([VisibleTable(sc, run[0], t)], []);
    } else {
      var h0 := HistoryTo(sc, run, t, n - 1);
      h := OneStepMore(sc, run, t, h0, n);
    }
  }

  lemma OneStepMore(sc: Schema, run: seq<Store>, t: Name, h0: History, n: nat) returns (h: History)
    requires IsRun(sc, run) && t in sc.types && 0 < n < |run| && RecordedTo(sc, run, t, h0, n - 1)
    ensures RecordedTo(sc, run, t, h, n)
  {
    FloorTellsTruth(sc, run, n - 1, n - 1);
    assert StepAt(sc, run, n - 1);
    h := ExtendHistory(sc, run[n - 1], run[n], t, h0);
    forall i | 0 <= i <= n ensures Recorded(sc, run[i], t, h) {
      if i < n { StillRecorded(sc, run[i], t, h0, run[n]); }
    }
  }

  lemma ExtendHistory(sc: Schema, s: Store, s': Store, t: Name, h0: History) returns (h: History)
    requires Bounded(s) && Step(sc, s, s') && t in sc.types
    requires Recorded(sc, s, t, h0) && Legal(h0) && |h0.entries| == Sequence(s)
    ensures Legal(h) && Recorded(sc, s', t, h) && |h.entries| == Sequence(s')
    ensures h == h0 || h == Extended(sc, h0, s', t)
  {
    StepKeepsLog(sc, s, s');
    if Sequence(s') == Sequence(s) {
      QuietStepRecorded(sc, s, s', t, h0);
      h := h0;
    } else {
      StepCommits(sc, s, s');
      var staged: Staging, bumped: set<Name> :| Committed(sc, s, staged, bumped, s');
      CommitRecorded(sc, s, staged, bumped, s', t, h0);
      CommittedNumbers(sc, s, staged, bumped, s', t);
      h := Extended(sc, h0, s', t);
    }
  }

  lemma StepCommits(sc: Schema, s: Store, s': Store)
    requires Bounded(s) && Step(sc, s, s') && Sequence(s') != Sequence(s)
    ensures exists staged: Staging, bumped: set<Name> :: Committed(sc, s, staged, bumped, s')
  {
    if BlobsOnly(s, s') { BlobsKeepLog(s, s'); }
    if floor: nat :| Trimmed(s, s', floor) { TrimKeepsLog(s, s', floor); }
  }

  // ---- What follows for a reader ----

  /** From the floor on, a store's log is the whole truth about every window. */
  lemma LogIsComplete(sc: Schema, run: seq<Store>, t: Name, h: History, i: nat, a: nat, b: nat)
    requires IsHistory(sc, run, t, h) && i < |run|
    requires LogFloor(run[i]) <= a + 1 && a <= b <= Sequence(run[i])
    ensures LogTells(h, StoreLog(run[i]), t, a, b) && PropsTell(h, StoreLog(run[i]), t, a, b)
  {
    var s, log := run[i], StoreLog(run[i]);
    SequenceWithin(sc, run, t, h, i);
    assert Recorded(sc, s, t, h);
    forall n: nat | a < n <= b ensures LogLine(h, log, t, n) {
      LogAt(s, n);
      assert EntryRecorded(s, t, h, n);
    }
    LogByLine(h, log, t, a, b);
  }

  ghost predicate LogLine(h: History, log: map<nat, LogEntry>, t: Name, n: nat) {
    && 1 <= n <= |h.entries| && |h.states| == |h.entries| + 1
    && (n in log && t in log[n].types <==> h.entries[n - 1].All() != {})
    && (n in log && t in log[n].types ==>
          && Change(log[n].types[t].created, log[n].types[t].updated, log[n].types[t].destroyed) == h.entries[n - 1]
          && EntryPropsTell(h.states[n - 1], log[n].types[t], h.states[n]))
  }

  lemma LogByLine(h: History, log: map<nat, LogEntry>, t: Name, a: nat, b: nat)
    requires Window(h, a, b) && forall n: nat :: a < n <= b ==> LogLine(h, log, t, n)
    ensures LogTells(h, log, t, a, b) && PropsTell(h, log, t, a, b)
  {
    forall n | a < n <= b
      ensures n in log && t in log[n].types <==> h.entries[n - 1].All() != {}
      ensures n in log && t in log[n].types ==>
        Change(log[n].types[t].created, log[n].types[t].updated, log[n].types[t].destroyed) == h.entries[n - 1]
    {
      assert LogLine(h, log, t, n);
    }
    forall n | a < n <= b && n in log && t in log[n].types
      ensures EntryPropsTell(h.states[n - 1], log[n].types[t], h.states[n])
    {
      assert LogLine(h, log, t, n);
    }
  }

  lemma SequenceWithin(sc: Schema, run: seq<Store>, t: Name, h: History, i: nat)
    requires IsHistory(sc, run, t, h) && i < |run|
    ensures Sequence(run[i]) <= |h.entries|
  {
    FloorTellsTruth(sc, run, i, |run| - 1);
  }

  /** State strings tell the truth: where a type's state at a later point is one the
      earlier point already had or had passed, every record shows the same at every
      point in between. */
  lemma StatesTellTruth(sc: Schema, run: seq<Store>, t: Name, i: nat, k: nat, j: nat)
    requires IsRun(sc, run) && t in sc.types && i <= k <= j < |run|
    requires StateOf(run[j], t) <= Sequence(run[i])
    ensures VisibleTable(sc, run[k], t) == VisibleTable(sc, run[i], t) == VisibleTable(sc, run[j], t)
  {
    var h := RunHasHistory(sc, run, t);
    FloorTellsTruth(sc, run, i, k);
    FloorTellsTruth(sc, run, k, j);
    var a, b, c := Sequence(run[i]), Sequence(run[k]), Sequence(run[j]);
    SequenceWithin(sc, run, t, h, j);
    assert Recorded(sc, run[i], t, h) && Recorded(sc, run[k], t, h) && Recorded(sc, run[j], t, h);
    QuietWindow(h, a, b);
    QuietWindow(h, b, c);
  }

  lemma {:induction false} QuietWindow(h: History, a: nat, b: nat)
    requires Window(h, a, b) && forall n :: a < n <= b ==> Untouched(h, n)
    ensures h.states[a] == h.states[b] && Touched(h, a, b) == {}
  {
    if a < b {
      QuietWindow(h, a, b - 1);
      assert Untouched(h, b) && LegalStep(h.states[b - 1], h.entries[b - 1], h.states[b]);
    }
  }

  /** Bracketing a read with the sequence: if it is the same before and after, no
      record of any type changed at any moment in between, byte for byte. */
  lemma {:induction false} BracketedReads(sc: Schema, run: seq<Store>, t: Name, i: nat, k: nat, j: nat, id: Id)
    requires IsRun(sc, run) && t in sc.types && i <= k <= j < |run| && Sequence(run[i]) == Sequence(run[j])
    ensures ObjectAt(run[k], t, id) == ObjectAt(run[i], t, id)
    ensures Sequence(run[k]) == Sequence(run[i]) && StateOf(run[k], t) == StateOf(run[i], t)
    decreases k
  {
    FloorTellsTruth(sc, run, i, k);
    FloorTellsTruth(sc, run, k, j);
    if i < k {
      FloorTellsTruth(sc, run, i, k - 1);
      BracketedReads(sc, run, t, i, k - 1, j, id);
      assert StepAt(sc, run, k - 1);
      QuietStep(sc, run[k - 1], run[k], t);
    }
  }

  // ---- Index agreement over runs ----

  /** No update of the commit, if the step is one, moves an OrderBy sibling of a
      property it keeps indexed. */
  ghost predicate KeepsOrder(sc: Schema, run: seq<Store>, i: int)
    requires 0 <= i < |run| - 1
  {
    CommitsKeepOrder(sc, run[i], run[i + 1])
  }

  ghost predicate CommitsKeepOrder(sc: Schema, s: Store, s': Store) {
    forall staged: Staging, bumped: set<Name> :: Committed(sc, s, staged, bumped, s') ==> AllOrderKept(sc, staged)
  }

  lemma SameKeysAgree(sc: Schema, s: Store, s': Store)
    requires Agrees(sc, s) && forall k: Key :: k.Obj? || k.Idx? || k.Ref? ==> Lookup(s', k) == Lookup(s, k)
    ensures Agrees(sc, s')
  {
    forall t: Name, n: Name, v: Bytes, ord: seq<Bytes>, id: Id ensures IdxAgrees(sc, s', t, n, v, ord, id) {
      assert IdxAgrees(sc, s, t, n, v, ord, id);
      assert Lookup(s', Idx(t, n, v, ord, id)) == Lookup(s, Idx(t, n, v, ord, id));
      assert Lookup(s', Obj(t, id)) == Lookup(s, Obj(t, id));
    }
    forall blob: Id, t: Name, id: Id ensures RefAgrees(sc, s', blob, t, id) {
      assert RefAgrees(sc, s, blob, t, id);
      assert Lookup(s', Ref(blob, t, id)) == Lookup(s, Ref(blob, t, id));
      assert Lookup(s', Obj(t, id)) == Lookup(s, Obj(t, id));
    }
  }

  lemma StepKeepsAgreement(sc: Schema, run: seq<Store>, i: nat)
    requires ValidSchema(sc) && i < |run| - 1 && StepAt(sc, run, i) && Agrees(sc, run[i]) && KeepsOrder(sc, run, i)
    ensures Agrees(sc, run[i + 1])
  {
    var s, s' := run[i], run[i + 1];
    if staged: Staging, bumped: set<Name> :| Committed(sc, s, staged, bumped, s') {
      CommitKeepsAgreement(sc, s, staged, bumped, s');
    } else {
      SameKeysAgree(sc, s, s');
    }
  }

  lemma {:induction false} AgreesUpTo(sc: Schema, run: seq<Store>, i: nat)
    requires ValidSchema(sc) && IsRun(sc, run) && i < |run| && forall j :: 0 <= j < i ==> KeepsOrder(sc, run, j)
    ensures Agrees(sc, run[i])
  {
    if i == 0 {
      EmptyAgrees(sc);
    } else {
      AgreesUpTo(sc, run, i - 1);
      assert StepAt(sc, run, i - 1) && KeepsOrder(sc, run, i - 1);
      StepKeepsAgreement(sc, run, i - 1);
    }
  }

  lemma EmptyAgrees(sc: Schema)
    ensures Agrees(sc, map[])
  {
  }

  /** In every run, indexes and references agree with the records at every point if and
      only if no commit moved an OrderBy sibling of a property it kept indexed. */
  lemma RunAgrees(sc: Schema, run: seq<Store>)
    requires ValidSchema(sc) && IsRun(sc, run)
    ensures (forall i :: 0 <= i < |run| ==> Agrees(sc, run[i])) <==>
      (forall i :: 0 <= i < |run| - 1 ==> KeepsOrder(sc, run, i))
  {
    if forall i :: 0 <= i < |run| ==> Agrees(sc, run[i]) {
      forall i | 0 <= i < |run| - 1 ensures KeepsOrder(sc, run, i) {
        var s, s' := run[i], run[i + 1];
        assert Agrees(sc, s) && Agrees(sc, s');
        forall staged: Staging, bumped: set<Name> | Committed(sc, s, staged, bumped, s')
          ensures AllOrderKept(sc, staged)
        {
          AgreementNeedsOrderKept(sc, s, staged, bumped, s');
        }
      }
    }
    if forall i :: 0 <= i < |run| - 1 ==> KeepsOrder(sc, run, i) {
      forall i | 0 <= i < |run| ensures Agrees(sc, run[i]) { AgreesUpTo(sc, run, i); }
    }
  }

  // ---- Blob references ----

  /** A BlobRef property of the record holds the string that names the blob. */
  ghost predicate NamesBlob(sc: Schema, s: Store, t: Name, id: Id, blob: Id) {
    && t in sc.types && ObjectAt(s, t, id).Some?
    && exists n :: n in sc.types[t].props && NamesIn(sc, sc.types[t].props[n], ObjectAt(s, t, id).value, n, blob)
  }

  ghost predicate NamesIn(sc: Schema, p: Property, o: Object, n: Name, blob: Id) {
    p.blobRef && n in o && sc.str(o[n]) == Some(blob)
  }

  lemma {:induction false} RefsUpTo(sc: Schema, run: seq<Store>, i: nat, blob: Id, t: Name, id: Id)
    requires IsRun(sc, run) && i < |run|
    ensures RefAgrees(sc, run[i], blob, t, id)
  {
    if i > 0 {
      RefsUpTo(sc, run, i - 1, blob, t, id);
      assert StepAt(sc, run, i - 1);
      StepKeepsRef(sc, run[i - 1], run[i], blob, t, id);
    }
  }

  lemma StepKeepsRef(sc: Schema, s: Store, s': Store, blob: Id, t: Name, id: Id)
    requires Step(sc, s, s') && RefAgrees(sc, s, blob, t, id)
    ensures RefAgrees(sc, s', blob, t, id)
  {
    if staged: Staging, bumped: set<Name> :| Committed(sc, s, staged, bumped, s') {
      RefStaysInStep(sc, s, staged, bumped, s', blob, t, id);
    } else {
      assert Lookup(s', Ref(blob, t, id)) == Lookup(s, Ref(blob, t, id));
      assert Lookup(s', Obj(t, id)) == Lookup(s, Obj(t, id));
    }
  }

  /** Over every run, whatever the commits: the reference key of a record and a blob is
      there if and only if a BlobRef property of the record, mutable or not, names it. */
  lemma RefsAreNames(sc: Schema, run: seq<Store>, i: nat, blob: Id, t: Name, id: Id)
    requires IsRun(sc, run) && i < |run|
    ensures Ref(blob, t, id) in run[i] <==> NamesBlob(sc, run[i], t, id, blob)
  {
    RefsUpTo(sc, run, i, blob, t, id);
    if t in sc.types && ObjectAt(run[i], t, id).Some? {
      var ty, o := sc.types[t], ObjectAt(run[i], t, id);
      if blob in RefsOf(sc, ty, o) {
        var n :| n in ty.props && ty.props[n].blobRef && n in o.value && sc.str(o.value[n]) == Some(blob);
        assert NamesIn(sc, ty.props[n], o.value, n, blob);
      }
      if n :| n in ty.props && NamesIn(sc, ty.props[n], o.value, n, blob) {
        assert sc.str(o.value[n]).value in RefsOf(sc, ty, o);
      }
    }
  }
}
