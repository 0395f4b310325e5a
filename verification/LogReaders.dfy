/** Readers of the change log take no lease (core/objectdb: Changes, ChangedSince): each
    of their reads, and each step of their scan, sees the store at its own moment of a
    run of commits and trims. */
module LogReaders {
  import opened Options
  import opened ByteOrder
  import opened Records
  import opened Keys
  import opened Store
  import opened Schema
  import opened History
  import opened ChangeLog
  import opened Trim
  import opened Runs

  // ---- The scan ----

  function Cursor(from: nat, rows: seq<LogRow>, k: nat): nat
    requires k <= |rows|
  {
    if k == 0 then from else rows[k - 1].seqNo + 1
  }

  /** The store's next entry from `lo` on. */
  ghost predicate NextEntry(s: Store, lo: nat, row: LogRow) {
    && lo <= row.seqNo && row.seqNo in StoreLog(s) && StoreLog(s)[row.seqNo] == row.entry
    && forall n :: n in StoreLog(s) ==> !(lo <= n < row.seqNo)
  }

  /** A scan whose k-th row was read at moment `at[k]`, and which found nothing more at
      its last moment. */
  ghost predicate StepwiseScan(run: seq<Store>, at: seq<nat>, from: nat, rows: seq<LogRow>) {
    && |at| == |rows| + 1
    && (forall j, k :: 0 <= j <= k < |at| ==> at[j] <= at[k] < |run|)
    && (forall k :: 0 <= k < |rows| ==> RowRead(run, at, from, rows, k))
    && forall n :: n in StoreLog(run[at[|rows|]]) ==> n < Cursor(from, rows, |rows|)
  }

  ghost predicate RowRead(run: seq<Store>, at: seq<nat>, from: nat, rows: seq<LogRow>, k: int) {
    0 <= k < |rows| && k < |at| && at[k] < |run| && NextEntry(run[at[k]], Cursor(from, rows, k), rows[k])
  }

  /** No trim disturbed the scan: the floor, read after it, is not past its start. */
  ghost predicate Undisturbed(sc: Schema, run: seq<Store>, at: seq<nat>, from: nat, rows: seq<LogRow>, floorAt: nat) {
    && IsRun(sc, run) && StepwiseScan(run, at, from, rows)
    && at[|rows|] <= floorAt < |run| && LogFloor(run[floorAt]) <= from
  }

  /** An entry at or past the start of the scan, seen at the moment of one row, is in
      the last moment's log, and conversely. */
  lemma SameEntry(sc: Schema, run: seq<Store>, at: seq<nat>, from: nat, rows: seq<LogRow>, floorAt: nat, k: nat, n: nat)
    requires Undisturbed(sc, run, at, from, rows, floorAt) && k <= |rows| && from <= n <= Sequence(run[at[k]])
    ensures n in StoreLog(run[at[k]]) <==> n in StoreLog(run[at[|rows|]])
    ensures n in StoreLog(run[at[k]]) ==> StoreLog(run[at[k]])[n] == StoreLog(run[at[|rows|]])[n]
  {
    var a, b := at[k], at[|rows|];
    FloorTellsTruth(sc, run, a, b);
    FloorTellsTruth(sc, run, b, floorAt);
    assert Lookup(run[b], Key.Log(n)) == Lookup(run[a], Key.Log(n));
    LogAt(run[a], n);
    LogAt(run[b], n);
  }

  lemma EntryWithin(sc: Schema, run: seq<Store>, i: nat, n: nat)
    requires IsRun(sc, run) && i < |run| && n in StoreLog(run[i])
    ensures 1 <= n <= Sequence(run[i])
  {
    FloorTellsTruth(sc, run, i, i);
    LogAt(run[i], n);
  }

  lemma RowKept(sc: Schema, run: seq<Store>, at: seq<nat>, from: nat, rows: seq<LogRow>, floorAt: nat, k: nat)
    requires Undisturbed(sc, run, at, from, rows, floorAt) && k < |rows|
    ensures from <= rows[k].seqNo && rows[k].seqNo in StoreLog(run[at[|rows|]])
    ensures StoreLog(run[at[|rows|]])[rows[k].seqNo] == rows[k].entry
    ensures Cursor(from, rows, k) <= rows[k].seqNo
  {
    CursorRises(run, at, from, rows, k);
    assert RowRead(run, at, from, rows, k);
    EntryWithin(sc, run, at[k], rows[k].seqNo);
    SameEntry(sc, run, at, from, rows, floorAt, k, rows[k].seqNo);
  }

  lemma CursorRises(run: seq<Store>, at: seq<nat>, from: nat, rows: seq<LogRow>, k: nat)
    requires StepwiseScan(run, at, from, rows) && k <= |rows|
    ensures from <= Cursor(from, rows, k)
    ensures forall j :: 0 <= j < k ==> rows[j].seqNo < Cursor(from, rows, k)
  {
    forall j | 0 <= j < |rows| ensures Rises(from, rows, j) {
      assert RowRead(run, at, from, rows, j);
    }
    RisesThroughout(from, rows, k);
  }

  ghost predicate Rises(from: nat, rows: seq<LogRow>, k: int) {
    0 <= k < |rows| && Cursor(from, rows, k) <= rows[k].seqNo
  }

  lemma {:induction false} RisesThroughout(from: nat, rows: seq<LogRow>, k: nat)
    requires k <= |rows| && forall j :: 0 <= j < |rows| ==> Rises(from, rows, j)
    ensures from <= Cursor(from, rows, k)
    ensures forall j :: 0 <= j < k ==> rows[j].seqNo < Cursor(from, rows, k)
  {
    if k > 0 {
      RisesThroughout(from, rows, k - 1);
      assert Rises(from, rows, k - 1);
    }
  }

  /** Everything the final log holds from the start of the scan on has been read. */
  lemma NothingSkipped(sc: Schema, run: seq<Store>, at: seq<nat>, from: nat, rows: seq<LogRow>, floorAt: nat, n: nat)
    requires Undisturbed(sc, run, at, from, rows, floorAt) && n in StoreLog(run[at[|rows|]]) && from <= n
    ensures exists i :: 0 <= i < |rows| && rows[i].seqNo == n
  {
    forall k | 0 <= k < |rows| ensures NoGap(from, rows, n, k) {
      if Cursor(from, rows, k) <= n { NotBetween(sc, run, at, from, rows, floorAt, k, n); }
    }
    BelowCursor(from, rows, n, |rows|);
  }

  ghost predicate NoGap(from: nat, rows: seq<LogRow>, n: nat, k: int) {
    0 <= k < |rows| && (Cursor(from, rows, k) <= n ==> rows[k].seqNo <= n)
  }

  lemma {:induction false} BelowCursor(from: nat, rows: seq<LogRow>, n: nat, k: nat)
    requires k <= |rows| && (forall j :: 0 <= j < |rows| ==> NoGap(from, rows, n, j))
    requires from <= n < Cursor(from, rows, k)
    ensures exists i :: 0 <= i < k && rows[i].seqNo == n
  {
    assert NoGap(from, rows, n, k - 1);
    if n < Cursor(from, rows, k - 1) { BelowCursor(from, rows, n, k - 1); }
  }

  lemma NotBetween(sc: Schema, run: seq<Store>, at: seq<nat>, from: nat, rows: seq<LogRow>, floorAt: nat, k: nat,
          n: nat)
    requires Undisturbed(sc, run, at, from, rows, floorAt) && k < |rows|
    requires n in StoreLog(run[at[|rows|]]) && Cursor(from, rows, k) <= n
    ensures rows[k].seqNo <= n
  {
    assert RowRead(run, at, from, rows, k);
    CursorRises(run, at, from, rows, k);
    EntryWithin(sc, run, at[k], rows[k].seqNo);
    if n < rows[k].seqNo { SameEntry(sc, run, at, from, rows, floorAt, k, n); }
  }

  /** A scan that took its time under any interleaving of commits and trims, but whose
      start the floor read afterwards does not exceed, is a snapshot: exactly the log
      as it stood at the scan's last moment. */
  lemma ScanIsSnapshot(sc: Schema, run: seq<Store>, at: seq<nat>, from: nat, rows: seq<LogRow>, floorAt: nat)
    requires Undisturbed(sc, run, at, from, rows, floorAt)
    ensures IsScan(StoreLog(run[at[|rows|]]), from, rows)
  {
    var log := StoreLog(run[at[|rows|]]);
    forall k | 0 <= k < |rows|
      ensures from <= rows[k].seqNo && rows[k].seqNo in log && log[rows[k].seqNo] == rows[k].entry
    {
      RowKept(sc, run, at, from, rows, floorAt, k);
    }
    forall i, j | 0 <= i < j < |rows| ensures rows[i].seqNo < rows[j].seqNo {
      RowKept(sc, run, at, from, rows, floorAt, j);
      CursorRises(run, at, from, rows, j);
    }
    forall n | n in log && from <= n ensures exists i :: 0 <= i < |rows| && rows[i].seqNo == n {
      NothingSkipped(sc, run, at, from, rows, floorAt, n);
    }
  }

  // ---- Changes ----

  /** When a call made its reads. */
  datatype Moments = Moments(seqAt: nat, floorAt: nat, scanAt: seq<nat>, floorAgainAt: nat, stateAt: nat)

  /** The scan's last moment. */
  ghost function End(m: Moments): nat { if m.scanAt == [] then 0 else m.scanAt[|m.scanAt| - 1] }

  ghost predicate SeenIn(run: seq<Store>, t: Name, since: nat, m: Moments, seen: ChangesReads) {
    && StepwiseScan(run, m.scanAt, since + 1, seen.rows)
    && m.seqAt <= m.floorAt <= m.scanAt[0] && m.scanAt[|seen.rows|] <= m.floorAgainAt <= m.stateAt < |run|
    && seen.global == Sequence(run[m.seqAt]) && seen.floor == LogFloor(run[m.floorAt])
    && seen.floorAfter == LogFloor(run[m.floorAgainAt]) && seen.state == StateOf(run[m.stateAt], t)
  }

  /** The page is the net change of the type between two commits. */
  ghost predicate NetPage(h: History, a: nat, b: nat, c: ChangeSet) {
    && Window(h, a, b)
    && c.created == NetCreated(h, a, b) && c.updated == NetUpdated(h, a, b) && c.destroyed == NetDestroyed(h, a, b)
  }

  /** Where the page says which properties changed, it names all that did. */
  ghost predicate PropsCover(h: History, a: nat, b: nat, c: ChangeSet)
    requires Window(h, a, b)
  {
    c.updatedProps.Some? ==>
      forall id :: id in h.states[a] && id in h.states[b] ==>
      DiffProps(h.states[a][id], h.states[b][id]) <= c.updatedProps.value
  }

  /** Lists and properties are right. */
  ghost predicate Exact(h: History, a: nat, b: nat, c: ChangeSet) { NetPage(h, a, b, c) && PropsCover(h, a, b, c) }

  lemma PageInHistory(h: History, log: map<nat, LogEntry>, t: Name, a: nat, b: nat, c: ChangeSet)
    requires LogTells(h, log, t, a, b) && PropsTell(h, log, t, a, b) && Describes(c, log, t, a, b)
    ensures Exact(h, a, b, c)
  {
    PageIsNetChange(h, log, t, a, b, c);
    if c.updatedProps.Some? {
      forall id | id in h.states[a] && id in h.states[b]
        ensures DiffProps(h.states[a][id], h.states[b][id]) <= c.updatedProps.value
      {
        PropsCoverNet(h, log, t, a, b, id);
      }
    }
  }

  /** Entries of a run name an id once. */
  lemma LogsDisjoint(sc: Schema, run: seq<Store>, t: Name, h: History, i: nat)
    requires IsHistory(sc, run, t, h) && i < |run|
    ensures LogOk(StoreLog(run[i]), t)
  {
    var s, log := run[i], StoreLog(run[i]);
    FloorTellsTruth(sc, run, i, i);
    assert Recorded(sc, s, t, h);
    forall n | n in log && t in log[n].types ensures Disjoint(log[n].types[t]) {
      LogAt(s, n);
      assert EntryRecorded(s, t, h, n);
      assert LegalStep(h.states[n - 1], h.entries[n - 1], h.states[n]);
    }
  }

  /** What the refused scan saw, as a log of its own. */
  ghost function LogOf(rows: seq<LogRow>): map<nat, LogEntry> {
    if rows == [] then map[] else LogOf(rows[..|rows| - 1])[rows[|rows| - 1].seqNo := rows[|rows| - 1].entry]
  }

  lemma {:induction false} LogOfRows(rows: seq<LogRow>, from: nat)
    requires forall i, j :: 0 <= i < j < |rows| ==> rows[i].seqNo < rows[j].seqNo
    requires forall i :: 0 <= i < |rows| ==> from <= rows[i].seqNo
    ensures IsScan(LogOf(rows), from, rows)
  {
    if rows != [] {
      var front, log := rows[..|rows| - 1], LogOf(rows);
      LogOfRows(front, from);
      forall i | 0 <= i < |rows| ensures rows[i].seqNo in log && log[rows[i].seqNo] == rows[i].entry {
        assert i < |front| ==> front[i] == rows[i];
      }
      forall n | n in log ensures exists i :: 0 <= i < |rows| && rows[i].seqNo == n { LogOfFrom(rows, n); }
    }
  }

  lemma AscendingRows(run: seq<Store>, at: seq<nat>, from: nat, rows: seq<LogRow>)
    requires StepwiseScan(run, at, from, rows)
    ensures forall i, j :: 0 <= i < j < |rows| ==> rows[i].seqNo < rows[j].seqNo
    ensures forall i :: 0 <= i < |rows| ==> from <= rows[i].seqNo
  {
    forall j | 0 <= j < |rows|
      ensures from <= rows[j].seqNo && forall i :: 0 <= i < j ==> rows[i].seqNo < rows[j].seqNo
    {
      CursorRises(run, at, from, rows, j);
      assert RowRead(run, at, from, rows, j);
    }
  }

  lemma RowsDisjoint(sc: Schema, run: seq<Store>, t: Name, h: History, at: seq<nat>, from: nat, rows: seq<LogRow>)
    requires IsHistory(sc, run, t, h) && StepwiseScan(run, at, from, rows) && IsScan(LogOf(rows), from, rows)
    ensures LogOk(LogOf(rows), t)
    ensures forall n :: n in LogOf(rows) ==> n <= Sequence(run[at[|rows|]])
  {
    var log := LogOf(rows);
    forall n | n in log ensures n <= Sequence(run[at[|rows|]]) && (t in log[n].types ==> Disjoint(log[n].types[t])) {
      LogOfFrom(rows, n);
      var k :| 0 <= k < |rows| && rows[k].seqNo == n;
      assert RowRead(run, at, from, rows, k);
      LogsDisjoint(sc, run, t, h, at[k]);
      EntryWithin(sc, run, at[k], n);
      FloorTellsTruth(sc, run, at[k], at[|rows|]);
    }
  }

  lemma {:induction false} LogOfFrom(rows: seq<LogRow>, n: nat)
    requires n in LogOf(rows)
    ensures exists k :: 0 <= k < |rows| && rows[k].seqNo == n
  {
    var front := rows[..|rows| - 1];
    if n != rows[|rows| - 1].seqNo {
      LogOfFrom(front, n);
      var i :| 0 <= i < |front| && front[i].seqNo == n;
      assert rows[i].seqNo == n;
    }
  }

  /** The log a call's page is about: the scan's snapshot, or for a call that will be
      refused, whatever it saw. */
  lemma LogSeen(sc: Schema, run: seq<Store>, t: Name, h: History, since: nat, m: Moments, seen: ChangesReads)
      returns (log: map<nat, LogEntry>)
    requires IsHistory(sc, run, t, h) && SeenIn(run, t, since, m, seen)
    ensures IsScan(log, since + 1, seen.rows) && LogOk(log, t)
    ensures forall n :: n in log ==> n <= Sequence(run[m.scanAt[|seen.rows|]])
    ensures seen.floorAfter <= since + 1 ==> log == StoreLog(run[m.scanAt[|seen.rows|]])
  {
    var rows, end := seen.rows, m.scanAt[|seen.rows|];
    if seen.floorAfter <= since + 1 {
      log := StoreLog(run[end]);
      ScanIsSnapshot(sc, run, m.scanAt, since + 1, rows, m.floorAgainAt);
      LogsDisjoint(sc, run, t, h, end);
      forall n | n in log ensures n <= Sequence(run[end]) { EntryWithin(sc, run, end, n); }
    } else {
      log := LogOf(rows);
      RowsAsLog(run, m.scanAt, since + 1, rows);
      RowsDisjoint(sc, run, t, h, m.scanAt, since + 1, rows);
    }
  }

  /** A Changes call anywhere in any run: unless it is refused, its page is exactly the
      net change since the client's state, up to the boundary it names or, on the last
      page, up to the last commit its scan could see. It is refused only for a state
      never issued or trimmed away, or for one commit larger than a page. The state the
      last page names is the one its page leads to if and only if no commit between the
      scan and the state read did what the page does not show. */
  method ChangesInRun(seen: ChangesReads, t: Name, since: nat, maxChanges: nat,
          ghost sc: Schema, ghost run: seq<Store>, ghost h: History, ghost m: Moments)
      returns (r: Result<ChangeSet>)
    requires IsHistory(sc, run, t, h) && SeenIn(run, t, since, m, seen)
    ensures Refused(seen, since) ==> r.Err?
    ensures r.Err? && !Refused(seen, since) ==> Oversized(StoreLog(run[End(m)]), t, since, maxChanges)
    ensures !Refused(seen, since) ==> (r.Err? <==> Stuck(StoreLog(run[End(m)]), t, since, maxChanges))
    ensures r.Ok? && r.value.hasMore ==> LastFitting(StoreLog(run[End(m)]), t, since, maxChanges, r.value.newState)
    ensures r.Ok? && r.value.hasMore ==> maxChanges > 0 && since < r.value.newState <= Sequence(run[End(m)])
    ensures r.Ok? && !r.value.hasMore ==> r.value.newState == StateOf(run[m.stateAt], t) <= |h.entries|
    ensures r.Ok? ==> var upTo := if r.value.hasMore then r.value.newState else Sequence(run[End(m)]);
      Exact(h, since, upTo, r.value) && Describes(r.value, StoreLog(run[End(m)]), t, since, upTo)
    ensures r.Ok? && !r.value.hasMore ==> (Reaches(h, since, r.value)
      <==> forall id :: !MissedBy(h, since, Sequence(run[End(m)]), r.value, id))
  {
    ghost var end := End(m);
    ghost var last := Sequence(run[end]);
    FloorTellsTruth(sc, run, m.seqAt, end);
    if since > seen.global {
      return Err;
    }
    ghost var log := LogSeen(sc, run, t, h, since, m, seen);
    r := Changes(seen, t, since, maxChanges, log, last);
    if r.Ok? {
      ghost var upTo := if r.value.hasMore then r.value.newState else last;
      FloorTellsTruth(sc, run, end, m.floorAgainAt);
      LogIsComplete(sc, run, t, h, end, since, upTo);
      PageInHistory(h, log, t, since, upTo, r.value);
      if !r.value.hasMore { LastPageInRun(sc, run, t, h, since, end, m.stateAt, r.value); }
    }
  }

  // ---- The last page's state ----

  /** A commit between the scan and the state read touched the record in a way the page
      does not already show: it came or went, it changed for the first time, or it
      changed in a property the page says no update changed. */
  ghost predicate Missed(h: History, since: nat, last: nat, upTo: nat, c: ChangeSet, id: Id)
    requires Window(h, since, last) && Window(h, last, upTo)
  {
    && id in Touched(h, last, upTo)
    && (|| (id in h.states[last] <==> id !in h.states[upTo])
        || (id in h.states[since] && id !in Touched(h, since, last))
        || (&& id in h.states[since] && id in h.states[last] && id in h.states[upTo] && c.updatedProps.Some?
            && !(DiffProps(h.states[last][id], h.states[upTo][id]) <= c.updatedProps.value)))
  }

  /** The page is right about one record. */
  ghost predicate Told(h: History, a: nat, b: nat, c: ChangeSet, id: Id)
    requires Window(h, a, b)
  {
    && (id in c.created <==> id in NetCreated(h, a, b))
    && (id in c.updated <==> id in NetUpdated(h, a, b))
    && (id in c.destroyed <==> id in NetDestroyed(h, a, b))
    && (c.updatedProps.Some? && id in h.states[a] && id in h.states[b] ==>
          DiffProps(h.states[a][id], h.states[b][id]) <= c.updatedProps.value)
  }

  lemma ToldThroughout(h: History, a: nat, b: nat, c: ChangeSet)
    requires Window(h, a, b)
    ensures Exact(h, a, b, c) <==> forall id :: Told(h, a, b, c, id)
  {
    if forall id :: Told(h, a, b, c, id) {
      forall id
        ensures id in c.created <==> id in NetCreated(h, a, b)
        ensures id in c.updated <==> id in NetUpdated(h, a, b)
        ensures id in c.destroyed <==> id in NetDestroyed(h, a, b)
      {
        assert Told(h, a, b, c, id);
      }
      forall id | c.updatedProps.Some? && id in h.states[a] && id in h.states[b]
        ensures DiffProps(h.states[a][id], h.states[b][id]) <= c.updatedProps.value
      {
        assert Told(h, a, b, c, id);
      }
    }
  }

  lemma ListsFromFate(h: History, a: nat, b: nat, id: Id)
    requires Window(h, a, b)
    ensures id in NetCreated(h, a, b) <==> Fate(h, a, b, id) == Some(Created)
    ensures id in NetUpdated(h, a, b) <==> Fate(h, a, b, id) == Some(Updated)
    ensures id in NetDestroyed(h, a, b) <==> Fate(h, a, b, id) == Some(Destroyed)
  {
    if id !in Touched(h, a, b) { UntouchedSame(h, a, b, id); }
  }

  lemma ToldUnlessMissed(h: History, since: nat, last: nat, upTo: nat, c: ChangeSet, id: Id)
    requires Window(h, since, last) && Window(h, last, upTo) && Told(h, since, last, c, id)
    ensures Told(h, since, upTo, c, id) <==> !Missed(h, since, last, upTo, c, id)
  {
    TouchedSplit(h, since, last, upTo);
    ListsFromFate(h, since, last, id);
    ListsFromFate(h, since, upTo, id);
    if id !in Touched(h, last, upTo) { UntouchedSame(h, last, upTo, id); }
    if id !in Touched(h, since, last) { UntouchedSame(h, since, last, id); }
    if c.updatedProps.Some? && id in h.states[since] && id in h.states[last] && id in h.states[upTo] {
      DiffShift(h.states[since][id], h.states[last][id], h.states[upTo][id], c.updatedProps.value);
    }
  }

  /** Once the first difference is covered, covering the whole is covering the second. */
  lemma DiffShift(x: Object, y: Object, z: Object, props: set<Name>)
    requires DiffProps(x, y) <= props
    ensures DiffProps(x, z) <= props <==> DiffProps(y, z) <= props
    ensures y == z ==> DiffProps(y, z) == {}
  {
    assert DiffProps(y, x) == DiffProps(x, y);
    if DiffProps(x, z) <= props { DiffTriangle(y, x, z, props); }
    if DiffProps(y, z) <= props { DiffTriangle(x, y, z, props); }
  }

  /** A page right up to its scan is right up to a later state, lists and properties, if
      and only if no commit in between touched a record in a way it does not show. */
  lemma LastPageExact(h: History, since: nat, last: nat, newState: nat, c: ChangeSet)
    requires Exact(h, since, last, c) && Window(h, last, newState)
    ensures Exact(h, since, newState, c) <==> forall id :: !Missed(h, since, last, newState, c, id)
  {
    ToldThroughout(h, since, last, c);
    ToldThroughout(h, since, newState, c);
    forall id ensures Told(h, since, newState, c, id) <==> !Missed(h, since, last, newState, c, id) {
      assert Told(h, since, last, c, id);
      ToldUnlessMissed(h, since, last, newState, c, id);
    }
  }

  /** The page leads the client from its state to the table of the state it names. */
  ghost predicate Reaches(h: History, since: nat, c: ChangeSet) {
    var at := if c.newState < since then since else c.newState;
    Exact(h, since, at, c) && h.states[c.newState] == h.states[at]
  }

  /** What the page leaves out, where the state it names is past its scan. */
  ghost predicate MissedBy(h: History, since: nat, last: nat, c: ChangeSet, id: Id)
    requires Window(h, since, last) && c.newState <= |h.entries|
  {
    last < c.newState && Missed(h, since, last, c.newState, c, id)
  }

  /** Over a run: the state a last page names, read after its scan, is the one the page
      leads to if and only if the page misses nothing. In particular it is whenever the
      type was not touched in between. */
  lemma LastPageInRun(sc: Schema, run: seq<Store>, t: Name, h: History, since: nat, end: nat, stateAt: nat,
          c: ChangeSet)
    requires IsHistory(sc, run, t, h) && end <= stateAt < |run|
    requires Exact(h, since, Sequence(run[end]), c) && c.newState == StateOf(run[stateAt], t)
    ensures c.newState <= |h.entries|
    ensures Reaches(h, since, c) <==> forall id :: !MissedBy(h, since, Sequence(run[end]), c, id)
  {
    var last, ns := Sequence(run[end]), c.newState;
    SequenceWithin(sc, run, t, h, stateAt);
    FloorTellsTruth(sc, run, end, stateAt);
    assert Recorded(sc, run[stateAt], t, h);
    if ns <= last {
      forall n | ns < n <= last ensures Untouched(h, n) {
        assert StateOf(run[stateAt], t) < n <= Sequence(run[stateAt]);
      }
      QuietWindow(h, ns, last);
      NothingLate(h, since, ns, last, c);
    } else {
      LastPageExact(h, since, last, ns, c);
      assert forall id :: MissedBy(h, since, last, c, id) <==> Missed(h, since, last, ns, c, id);
    }
  }

  lemma NothingLate(h: History, since: nat, ns: nat, last: nat, c: ChangeSet)
    requires Exact(h, since, last, c) && Window(h, ns, last)
    requires (forall n :: ns < n <= last ==> Untouched(h, n)) && c.newState == ns
    ensures Reaches(h, since, c)
  {
    var at := if ns < since then since else ns;
    QuietWindow(h, ns, last);
    QuietWindow(h, at, last);
    TouchedSplit(h, since, at, last);
  }

  // ---- Following the pages ----

  /** One page of a client that holds the ids of state `at`. */
  method FollowPage(seen: ChangesReads, t: Name, at: nat, maxChanges: nat, ids: set<Id>,
          ghost sc: Schema, ghost run: seq<Store>, ghost h: History, ghost m: Moments)
      returns (ok: bool, ids': set<Id>, next: Option<nat>)
    requires IsHistory(sc, run, t, h) && SeenIn(run, t, at, m, seen) && at <= |h.entries| && ids == h.states[at].Keys
    ensures !ok ==> Refused(seen, at) || Oversized(StoreLog(run[End(m)]), t, at, maxChanges)
    ensures ok && next.Some? ==> at < next.value <= |h.entries| && ids' == h.states[next.value].Keys
    ensures ok && next.None? ==> Window(h, at, Sequence(run[End(m)])) && ids' == h.states[Sequence(run[End(m)])].Keys
  {
    var page := ChangesInRun(seen, t, at, maxChanges, sc, run, h, m);
    if page.Err? {
      return false, ids, None;
    }
    ghost var upTo := if page.value.hasMore then page.value.newState else Sequence(run[End(m)]);
    PageFollows(h, at, upTo, page.value);
    return true, ids + page.value.created - page.value.destroyed,
           if page.value.hasMore then Some(page.value.newState) else None;
  }

  lemma PageFollows(h: History, a: nat, b: nat, c: ChangeSet)
    requires NetPage(h, a, b, c)
    ensures h.states[a].Keys + c.created - c.destroyed == h.states[b].Keys && b <= |h.entries|
  {
  }

  /** What every call reads, whenever it is made and from whatever state. */
  ghost predicate AllSeen(run: seq<Store>, t: Name, moments: (nat, nat) -> Moments, seen: (nat, nat) -> ChangesReads) {
    forall i, n :: SeenIn(run, t, n, moments(i, n), seen(i, n))
  }

  /** A client following intermediate states page by page, every page read at its own
      moments of the run: it makes progress on every page and stops, and then holds
      exactly the ids of the last commit its last scan could see - or one call is
      refused, for its state or for a commit larger than its pages. */
  method CatchUpInRun(seen: (nat, nat) -> ChangesReads, t: Name, since: nat, maxChanges: nat, ids0: set<Id>,
          ghost moments: (nat, nat) -> Moments, ghost sc: Schema, ghost run: seq<Store>, ghost h: History)
      returns (r: Result<set<Id>>, calls: nat, at: nat)
    requires IsHistory(sc, run, t, h) && since <= |h.entries| && ids0 == h.states[since].Keys
    requires AllSeen(run, t, moments, seen)
    ensures since <= at
    ensures r.Err? ==>
      || Refused(seen(calls, at), at)
      || Oversized(StoreLog(run[End(moments(calls, at))]), t, at, maxChanges)
    ensures r.Ok? ==> Window(h, at, Sequence(run[End(moments(calls, at))]))
    ensures r.Ok? ==> r.value == h.states[Sequence(run[End(moments(calls, at))])].Keys
  {
    var ids := ids0;
    calls, at := 0, since;
    while true
      invariant since <= at <= |h.entries| && ids == h.states[at].Keys
      decreases |h.entries| - at
    {
      assert SeenIn(run, t, at, moments(calls, at), seen(calls, at));
      var ok, ids', next := FollowPage(seen(calls, at), t, at, maxChanges, ids, sc, run, h, moments(calls, at));
      if !ok {
        return Err, calls, at;
      }
      if next.None? {
        return Ok(ids'), calls, at;
      }
      ids, calls, at := ids', calls + 1, next.value;
    }
  }

  // ---- ChangedSince ----

  ghost predicate SinceSeenIn(run: seq<Store>, since: nat, m: Moments, upTo: nat, floor: nat, rows: seq<LogRow>,
          floorAfter: nat) {
    && StepwiseScan(run, m.scanAt, since + 1, rows)
    && m.seqAt <= m.floorAt <= m.scanAt[0] && m.scanAt[|rows|] <= m.floorAgainAt < |run|
    && upTo == Sequence(run[m.seqAt])
    && floor == LogFloor(run[m.floorAt]) && floorAfter == LogFloor(run[m.floorAgainAt])
  }

  /** Every type's history over the run. */
  ghost predicate Histories(sc: Schema, run: seq<Store>, types: set<Name>, hs: map<Name, History>) {
    hs.Keys == types && forall t :: t in types ==> IsHistory(sc, run, t, hs[t])
  }

  /** The (type, id) pairs the commits of a window touched. */
  ghost function TouchedPairs(types: set<Name>, hs: map<Name, History>, a: nat, b: nat): set<(Name, Id)>
    requires hs.Keys == types && forall t :: t in types ==> Window(hs[t], a, b)
  {
    set t, id | t in types && id in Touched(hs[t], a, b) :: (t, id)
  }

  /** Too many ids for the answer. */
  ghost predicate OverBudget(types: set<Name>, hs: map<Name, History>, a: nat, b: nat, maxIds: nat) {
    && hs.Keys == types && (forall t :: t in types ==> Window(hs[t], a, b))
    && 0 < maxIds < |TouchedPairs(types, hs, a, b)|
  }

  /** A ChangedSince call anywhere in any run: for every type, exactly the net change
      from the client's state to the sequence it read first, however many commits and
      trims passed while it read. It is refused exactly for a state never issued or
      trimmed away, for being too far behind, or for touching more ids than allowed. */
  method ChangedSinceInRun(types: set<Name>, since: nat, upTo: nat, floor: nat, rows: seq<LogRow>, floorAfter: nat,
          maxBehind: nat, maxIds: nat,
          ghost sc: Schema, ghost run: seq<Store>, ghost hs: map<Name, History>, ghost m: Moments)
      returns (r: Result<map<Name, Change>>)
    requires IsRun(sc, run) && SinceSeenIn(run, since, m, upTo, floor, rows, floorAfter)
    requires Histories(sc, run, types, hs)
    ensures r.Err? <==>
      || since > upTo || since + 1 < floorAfter || (maxBehind > 0 && upTo - since > maxBehind)
      || OverBudget(types, hs, since, upTo, maxIds)
    ensures r.Ok? ==> r.value.Keys == types
    ensures r.Ok? ==> forall t :: t in types ==> NetChangeIs(hs[t], since, upTo, r.value[t])
  {
    FloorTellsTruth(sc, run, m.floorAt, m.floorAgainAt);
    ghost var log := SinceLogSeen(sc, run, since, m, upTo, floor, rows, floorAfter);
    r := ChangedSince(types, since, upTo, floor, rows, floorAfter, maxBehind, maxIds, log);
    if since <= upTo && floorAfter <= since + 1 {
      AllLogsTell(sc, run, types, hs, since, m, upTo, floor, rows, floorAfter);
      PairsAreTouched(hs, log, types, since, upTo);
    }
    if r.Ok? {
      forall t | t in types ensures NetChangeIs(hs[t], since, upTo, r.value[t]) {
        ChangedSinceIsNetChange(hs[t], log, t, since, upTo, r.value[t]);
      }
    }
  }

  lemma AllLogsTell(sc: Schema, run: seq<Store>, types: set<Name>, hs: map<Name, History>, since: nat, m: Moments,
          upTo: nat, floor: nat, rows: seq<LogRow>, floorAfter: nat)
    requires Histories(sc, run, types, hs) && SinceSeenIn(run, since, m, upTo, floor, rows, floorAfter)
    requires floorAfter <= since + 1 && since <= upTo
    ensures forall t :: t in types ==>
      Window(hs[t], since, upTo) && LogTells(hs[t], StoreLog(run[m.scanAt[|rows|]]), t, since, upTo)
  {
    forall t | t in types ensures LogTells(hs[t], StoreLog(run[m.scanAt[|rows|]]), t, since, upTo) {
      SinceLogTells(sc, run, t, hs[t], since, m, upTo, floor, rows, floorAfter);
    }
  }

  /** The pairs the log names are the pairs that were touched. */
  lemma PairsAreTouched(hs: map<Name, History>, log: map<nat, LogEntry>, types: set<Name>, a: nat, b: nat)
    requires a <= b && hs.Keys == types
    requires forall t :: t in types ==> Window(hs[t], a, b) && LogTells(hs[t], log, t, a, b)
    ensures Pairs(log, types, a, b) == TouchedPairs(types, hs, a, b)
  {
    forall t, id ensures (t, id) in Pairs(log, types, a, b) <==> t in types && id in Touched(hs[t], a, b) {
      if t in types { PairIsTouched(hs[t], log, types, t, a, b, id); } else { PairTyped(log, types, t, a, b, id); }
    }
  }

  lemma {:induction false} PairIsTouched(h: History, log: map<nat, LogEntry>, types: set<Name>, t: Name, a: nat, b: nat,
          id: Id)
    requires t in types && LogTells(h, log, t, a, b)
    ensures (t, id) in Pairs(log, types, a, b) <==> id in Touched(h, a, b)
  {
    if a < b {
      LogTellsShorter(h, log, t, a, b - 1, b);
      PairIsTouched(h, log, types, t, a, b - 1, id);
      assert b in log ==> ((t, id) in EntryPairs(log[b], types) <==>
        t in log[b].types && id in AllIds(log[b].types[t]));
      assert LegalStep(h.states[b - 1], h.entries[b - 1], h.states[b]);
    }
  }

  lemma {:induction false} PairTyped(log: map<nat, LogEntry>, types: set<Name>, t: Name, a: nat, b: nat, id: Id)
    requires a <= b && t !in types
    ensures (t, id) !in Pairs(log, types, a, b)
  {
    if a < b { PairTyped(log, types, t, a, b - 1, id); }
  }

  lemma SinceLogSeen(sc: Schema, run: seq<Store>, since: nat, m: Moments, upTo: nat, floor: nat, rows: seq<LogRow>,
          floorAfter: nat)
      returns (log: map<nat, LogEntry>)
    requires IsRun(sc, run) && SinceSeenIn(run, since, m, upTo, floor, rows, floorAfter)
    ensures IsScan(log, since + 1, rows)
    ensures floorAfter <= since + 1 ==> log == StoreLog(run[m.scanAt[|rows|]])
  {
    if floorAfter <= since + 1 {
      log := StoreLog(run[m.scanAt[|rows|]]);
      assert Undisturbed(sc, run, m.scanAt, since + 1, rows, m.floorAgainAt);
      ScanIsSnapshot(sc, run, m.scanAt, since + 1, rows, m.floorAgainAt);
    } else {
      log := LogOf(rows);
      RowsAsLog(run, m.scanAt, since + 1, rows);
    }
  }

  lemma RowsAsLog(run: seq<Store>, at: seq<nat>, from: nat, rows: seq<LogRow>)
    requires StepwiseScan(run, at, from, rows)
    ensures IsScan(LogOf(rows), from, rows)
  {
    AscendingRows(run, at, from, rows);
    LogOfRows(rows, from);
  }

  lemma SinceLogTells(sc: Schema, run: seq<Store>, t: Name, h: History, since: nat, m: Moments, upTo: nat,
          floor: nat, rows: seq<LogRow>, floorAfter: nat)
    requires IsHistory(sc, run, t, h) && SinceSeenIn(run, since, m, upTo, floor, rows, floorAfter)
    requires floorAfter <= since + 1 && since <= upTo
    ensures LogTells(h, StoreLog(run[m.scanAt[|rows|]]), t, since, upTo)
  {
    var end := m.scanAt[|rows|];
    FloorTellsTruth(sc, run, m.seqAt, end);
    FloorTellsTruth(sc, run, end, m.floorAgainAt);
    LogIsComplete(sc, run, t, h, end, since, upTo);
  }

  ghost predicate NetChangeIs(h: History, a: nat, b: nat, c: Change) {
    Window(h, a, b) && c == Change(NetCreated(h, a, b), NetUpdated(h, a, b), NetDestroyed(h, a, b))
  }
}
