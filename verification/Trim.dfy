/** Trimming the change log (core/objectdb: TrimChanges, logFloor): the oldest entries
    go, as one contiguous prefix, in the batch that raises the floor past them. */
module Trim {
  import opened Options
  import opened Keys
  import opened Store
  import opened ChangeLog
  import opened ObjectDb

  const MAX_TRIM_PER_CALL := 4096

  /** The change log a store holds. */
  function StoreLog(s: Store): map<nat, LogEntry> {
    map k | k in s && k.Log? && s[k].Entry? :: k.seqNo := s[k].entry
  }

  lemma LogAt(s: Store, n: nat)
    ensures n in StoreLog(s) <==> Key.Log(n) in s && s[Key.Log(n)].Entry?
    ensures n in StoreLog(s) ==> StoreLog(s)[n] == s[Key.Log(n)].entry
  {
    if Key.Log(n) in s && s[Key.Log(n)].Entry? { assert Key.Log(n).seqNo in StoreLog(s); }
  }

  /** No entry below the floor or above the sequence. */
  ghost predicate Bounded(s: Store) {
    && LogFloor(s) <= Sequence(s) + 1
    && forall n: nat :: Key.Log(n) in s ==> s[Key.Log(n)].Entry? && LogFloor(s) <= n && 1 <= n <= Sequence(s)
  }

  /** Everything below `floor` is gone from the log, and nothing else changed. */
  ghost predicate Trimmed(s: Store, s': Store, floor: nat) {
    && LogFloor(s) <= floor <= Sequence(s) + 1
    && forall k :: Lookup(s', k) ==
         if k == Floor then Some(Num(floor))
         else if k.Log? && k.seqNo < floor then None else Lookup(s, k)
  }

  /** Old enough to go; an entry without a clock reading never is. */
  predicate Expired(e: LogEntry, now: int, retention: int) {
    retention > 0 && e.at != 0 && e.at <= Cutoff(now, retention)
  }

  /** Nanoseconds to whole milliseconds, rounding down. */
  function Cutoff(now: int, retention: int): int { (now - retention) / 1_000_000 }

  /** An entry with a clock reading, committed at `committed`, ages out once the retention
      has passed since the millisecond of its commit began. */
  lemma ExpiresWhen(e: LogEntry, committed: int, now: int, retention: int)
    requires retention > 0 && e.at != 0 && ClockRead(e.at, committed)
    ensures Expired(e, now, retention) <==> now - retention >= committed - committed % 1_000_000
    ensures now - committed >= retention ==> Expired(e, now, retention)
    ensures Expired(e, now, retention) ==> now - committed > retention - 1_000_000
  {
  }

  /** It is kept for the whole retention, whenever the trim comes, if and only if its commit
      was on a full millisecond. */
  lemma RetentionKeptIff(e: LogEntry, committed: int, retention: int)
    requires retention > 0 && e.at != 0 && ClockRead(e.at, committed)
    ensures (forall now :: Expired(e, now, retention) ==> now - committed >= retention) <==> committed % 1_000_000 == 0
  {
    forall now ensures Expired(e, now, retention) <==> now - retention >= committed - committed % 1_000_000 {
      ExpiresWhen(e, committed, now, retention);
    }
    var soonest := committed - committed % 1_000_000 + retention;
    assert Expired(e, soonest, retention);
  }

  /** An entry that goes half a millisecond before its second is over. */
  lemma ExpiredEarly() returns (e: LogEntry, committed: int, now: int)
    ensures ClockRead(e.at, committed) && Expired(e, now, 1_000_000_000) && now - committed < 1_000_000_000
  {
    e, committed, now := LogEntry(map[], 1), 1_500_000, 1_001_000_000;
  }

  /** How many leading rows have aged out. */
  function ExpiredPrefix(rows: seq<LogRow>, now: int, retention: int): nat {
    if rows != [] && Expired(rows[0].entry, now, retention) then 1 + ExpiredPrefix(rows[1..], now, retention) else 0
  }

  /** How many rows the cap asks to drop. */
  function Excess(count: nat, maxEntries: int): nat {
    if maxEntries > 0 && count > maxEntries then count - maxEntries else 0
  }

  function Min(a: nat, b: nat): nat { if a < b then a else b }
  function Max(a: nat, b: nat): nat { if a < b then b else a }

  /** Whichever trigger trims more, at most one call's worth. */
  function ToDrop(rows: seq<LogRow>, now: int, retention: int, maxEntries: int): nat {
    Min(MAX_TRIM_PER_CALL, Max(ExpiredPrefix(rows, now, retention), Excess(|rows|, maxEntries)))
  }

  lemma {:induction false} PrefixIs(rows: seq<LogRow>, now: int, retention: int, n: nat)
    requires n <= |rows| && (forall i :: 0 <= i < n ==> Expired(rows[i].entry, now, retention))
    ensures n <= ExpiredPrefix(rows, now, retention) <= |rows|
    ensures n == |rows| || !Expired(rows[n].entry, now, retention) ==> ExpiredPrefix(rows, now, retention) == n
    decreases rows
  {
    if rows != [] && Expired(rows[0].entry, now, retention) {
      assert n > 0 ==> forall i :: 0 <= i < n - 1 ==> rows[1..][i] == rows[i + 1];
      PrefixIs(rows[1..], now, retention, if n > 0 then n - 1 else 0);
    }
  }

  lemma {:induction false} PrefixExpired(rows: seq<LogRow>, now: int, retention: int, i: nat)
    requires i < ExpiredPrefix(rows, now, retention)
    ensures i < |rows| && Expired(rows[i].entry, now, retention)
    decreases i
  {
    if i > 0 { PrefixExpired(rows[1..], now, retention, i - 1); }
  }

  /** The retention guarantee: unless the cap forces it, only aged out entries go. */
  lemma OnlyExpiredGo(rows: seq<LogRow>, now: int, retention: int, maxEntries: int, i: nat)
    requires maxEntries <= 0 || |rows| <= maxEntries
    requires i < ToDrop(rows, now, retention, maxEntries)
    ensures i < |rows| && Expired(rows[i].entry, now, retention)
  {
    PrefixExpired(rows, now, retention, i);
  }

  /** Rows in the log number at most the span from the floor to the sequence. */
  lemma {:induction false} SpanBounds(rows: seq<LogRow>, lo: nat, hi: int)
    requires forall i, j :: 0 <= i < j < |rows| ==> rows[i].seqNo < rows[j].seqNo
    requires forall i :: 0 <= i < |rows| ==> lo <= rows[i].seqNo <= hi
    ensures rows != [] ==> lo + |rows| - 1 <= rows[|rows| - 1].seqNo && |rows| <= hi - lo + 1
  {
    if |rows| > 1 { SpanBounds(rows[..|rows| - 1], lo, hi); }
  }

  lemma RowsWithin(s: Store, rows: seq<LogRow>)
    requires Bounded(s) && IsScan(StoreLog(s), 0, rows)
    ensures forall i :: 0 <= i < |rows| ==> Max(LogFloor(s), 1) <= rows[i].seqNo <= Sequence(s)
  {
    forall i | 0 <= i < |rows| ensures Max(LogFloor(s), 1) <= rows[i].seqNo <= Sequence(s) { LogAt(s, rows[i].seqNo); }
  }

  /** Pass one: the aged out prefix, and the number of rows where the cap needs it. */
  method Count(rows: seq<LogRow>, now: int, retention: int, overCap: bool) returns (total: nat, expired: nat)
    ensures overCap ==> total == |rows| && expired == ExpiredPrefix(rows, now, retention)
    ensures !overCap ==> Min(expired, MAX_TRIM_PER_CALL) == Min(ExpiredPrefix(rows, now, retention), MAX_TRIM_PER_CALL)
  {
    total, expired := 0, 0;
    var prefixLive := false;
    var cutoff := Cutoff(now, retention);
    while total < |rows|
      invariant total <= |rows| && expired <= total
      invariant forall i :: 0 <= i < expired ==> Expired(rows[i].entry, now, retention)
      invariant prefixLive ==> overCap && expired < total && !Expired(rows[expired].entry, now, retention)
      invariant !prefixLive ==> expired == total
    {
      var entry := rows[total].entry;
      total := total + 1;
      if !prefixLive {
        if retention <= 0 || entry.at == 0 || entry.at > cutoff {
          prefixLive := true;
        } else {
          expired := expired + 1;
          if expired >= MAX_TRIM_PER_CALL && !overCap {
            break;
          }
        }
      }
      if prefixLive && !overCap {
        break;
      }
    }
    PrefixIs(rows, now, retention, expired);
  }

  /** Pass two: the batch that deletes the first rows and moves the floor. */
  method DeletePrefix(rows: seq<LogRow>, drop: nat) returns (ops: seq<Op>, deleted: nat, newFloor: nat)
    requires forall i, j :: 0 <= i < j < |rows| ==> rows[i].seqNo < rows[j].seqNo
    ensures deleted == Min(drop, |rows|)
    ensures deleted > 0 ==> newFloor == rows[deleted - 1].seqNo + 1
    ensures forall k :: EffectAt(ops, k) == DropEffect(rows[..deleted], k)
  {
    var batch := new Batch();
    deleted, newFloor := 0, 0;
    while deleted < |rows| && deleted != drop
      invariant deleted <= |rows| && deleted <= drop
      invariant deleted > 0 ==> newFloor == rows[deleted - 1].seqNo + 1
      invariant forall k :: EffectAt(batch.ops, k) == DropEffect(rows[..deleted], k)
    {
      ghost var before := batch.ops;
      batch.Delete(Key.Log(rows[deleted].seqNo));
      newFloor := rows[deleted].seqNo + 1;
      assert rows[..deleted + 1] == rows[..deleted] + [rows[deleted]];
      deleted := deleted + 1;
    }
    ops := batch.ops;
  }

  ghost predicate Among(rows: seq<LogRow>, k: Key) { exists i :: 0 <= i < |rows| && k == Key.Log(rows[i].seqNo) }

  ghost function DropEffect(rows: seq<LogRow>, k: Key): Option<Option<Val>> {
    if Among(rows, k) then Some(None) else None
  }

  /** The counting half: from two point reads and as few rows as will do, how many
      entries the two triggers ask for. */
  method CountDrop(rows: seq<LogRow>, floor: nat, global: nat, now: int, retention: int, maxEntries: int)
      returns (drop: nat)
    requires forall i, j :: 0 <= i < j < |rows| ==> rows[i].seqNo < rows[j].seqNo
    requires forall i :: 0 <= i < |rows| ==> Max(floor, 1) <= rows[i].seqNo <= global
    ensures drop == ToDrop(rows, now, retention, maxEntries) <= |rows|
  {
    PrefixIs(rows, now, retention, 0);
    var oldest := if floor < 1 then 1 else floor;
    SpanBounds(rows, oldest, global);
    if global < oldest {
      return 0;
    }
    var overCap := maxEntries > 0 && global - oldest + 1 > maxEntries;
    var total, expired := Count(rows, now, retention, overCap);
    drop := expired;
    if overCap && total - maxEntries > drop {
      drop := total - maxEntries;
    }
    if drop > MAX_TRIM_PER_CALL {
      drop := MAX_TRIM_PER_CALL;
    }
  }

  /** One call: exactly the entries the two triggers ask for go, up to one call's
      worth, whatever shortcuts the counting took. */
  method TrimChanges(db: Db, rows: seq<LogRow>, now: int, retention: int, maxEntries: int) returns (deleted: nat)
    requires Bounded(db.store) && IsScan(StoreLog(db.store), 0, rows)
    modifies db
    ensures deleted == ToDrop(rows, now, retention, maxEntries) <= |rows|
    ensures deleted <= 4096
    ensures deleted == 0 ==> db.store == old(db.store)
    ensures deleted > 0 ==> Trimmed(old(db.store), db.store, rows[deleted - 1].seqNo + 1)
  {
    if retention <= 0 && maxEntries <= 0 {
      return 0;
    }
    RowsWithin(db.store, rows);
    var drop := CountDrop(rows, LogFloor(db.store), Sequence(db.store), now, retention, maxEntries);
    if drop <= 0 {
      return 0;
    }
    deleted := drop;
    db.store := Write(db.store, rows, drop);
  }

  /** The batch of the deletions and the new floor, applied at once. */
  method Write(s: Store, rows: seq<LogRow>, drop: nat) returns (s': Store)
    requires Bounded(s) && IsScan(StoreLog(s), 0, rows) && 0 < drop <= |rows|
    ensures Trimmed(s, s', rows[drop - 1].seqNo + 1)
  {
    var ops, deleted, newFloor := DeletePrefix(rows, drop);
    s' := Apply(s, ops + [Op.Set(Floor, Num(newFloor))]);
    TrimApplied(s, rows, deleted, ops, s');
  }

  lemma TrimApplied(s: Store, rows: seq<LogRow>, deleted: nat, ops: seq<Op>, s': Store)
    requires Bounded(s) && IsScan(StoreLog(s), 0, rows) && 0 < deleted <= |rows|
    requires forall k :: EffectAt(ops, k) == DropEffect(rows[..deleted], k)
    requires s' == Apply(s, ops + [Op.Set(Floor, Num(rows[deleted - 1].seqNo + 1))])
    ensures Trimmed(s, s', rows[deleted - 1].seqNo + 1)
  {
    var floor := rows[deleted - 1].seqNo + 1;
    RowsWithin(s, rows);
    forall k
      ensures Lookup(s', k) ==
        if k == Floor then Some(Num(floor)) else if k.Log? && k.seqNo < floor then None else Lookup(s, k)
    {
      ApplyAt(s, ops + [Op.Set(Floor, Num(floor))], k);
      EffectSnoc(ops, Op.Set(Floor, Num(floor)), k);
      if k.Log? { PrefixBelow(s, rows, deleted, k.seqNo); }
    }
  }

  /** The dropped rows are exactly the entries below the new floor. */
  lemma PrefixBelow(s: Store, rows: seq<LogRow>, deleted: nat, n: nat)
    requires Bounded(s) && IsScan(StoreLog(s), 0, rows) && 0 < deleted <= |rows|
    ensures Among(rows[..deleted], Key.Log(n)) <==> Key.Log(n) in s && n <= rows[deleted - 1].seqNo
  {
    LogAt(s, n);
    if n in StoreLog(s) && n <= rows[deleted - 1].seqNo {
      var i :| 0 <= i < |rows| && rows[i].seqNo == n;
      assert rows[..deleted][i].seqNo == n;
    }
    if i :| 0 <= i < deleted && Key.Log(n) == Key.Log(rows[..deleted][i].seqNo) { assert rows[i].seqNo in StoreLog(s); }
  }

  lemma TrimKeepsBounded(s: Store, s': Store, floor: nat)
    requires Bounded(s) && Trimmed(s, s', floor)
    ensures Bounded(s') && LogFloor(s') == floor && Sequence(s') == Sequence(s)
  {
    assert Lookup(s', Floor) == Some(Num(floor));
    assert Lookup(s', Seq) == Lookup(s, Seq);
    forall n: nat | Key.Log(n) in s' ensures s'[Key.Log(n)].Entry? && floor <= n && 1 <= n <= Sequence(s') {
      assert Lookup(s', Key.Log(n)) == if n < floor then None else Lookup(s, Key.Log(n));
    }
  }

  /** What is left of the log is the rest of the rows. */
  lemma TrimmedScan(s: Store, s': Store, rows: seq<LogRow>, deleted: nat)
    requires Bounded(s) && IsScan(StoreLog(s), 0, rows) && 0 < deleted <= |rows|
    requires Trimmed(s, s', rows[deleted - 1].seqNo + 1)
    ensures IsScan(StoreLog(s'), 0, rows[deleted..])
  {
    var above := rows[deleted - 1].seqNo;
    forall n: nat ensures LogTail(StoreLog(s), StoreLog(s'), above, n) {
      LogAt(s, n);
      LogAt(s', n);
      assert Lookup(s', Key.Log(n)) == if n < above + 1 then None else Lookup(s, Key.Log(n));
    }
    ScanTail(StoreLog(s), StoreLog(s'), rows, deleted, above);
  }

  ghost predicate LogTail(log: map<nat, LogEntry>, log': map<nat, LogEntry>, above: nat, n: nat) {
    && (n in log' <==> n in log && n > above)
    && (n in log' ==> log'[n] == log[n])
  }

  lemma ScanTail(log: map<nat, LogEntry>, log': map<nat, LogEntry>, rows: seq<LogRow>, deleted: nat, above: nat)
    requires IsScan(log, 0, rows) && 0 < deleted <= |rows| && above == rows[deleted - 1].seqNo
    requires forall n: nat :: LogTail(log, log', above, n)
    ensures IsScan(log', 0, rows[deleted..])
  {
    var rest := rows[deleted..];
    forall i | 0 <= i < |rest| ensures rest[i].seqNo in log' && log'[rest[i].seqNo] == rest[i].entry {
      assert rest[i] == rows[i + deleted] && LogTail(log, log', above, rest[i].seqNo);
    }
    forall n | n in log' ensures exists i :: 0 <= i < |rest| && rest[i].seqNo == n {
      InTail(log, log', rows, deleted, above, n);
    }
    assert forall i, j :: 0 <= i < j < |rest| ==> rest[i].seqNo < rest[j].seqNo;
  }

  lemma InTail(log: map<nat, LogEntry>, log': map<nat, LogEntry>, rows: seq<LogRow>, deleted: nat, above: nat, n: nat)
    requires IsScan(log, 0, rows) && 0 < deleted <= |rows|
    requires above == rows[deleted - 1].seqNo && n in log' && LogTail(log, log', above, n)
    ensures exists i :: 0 <= i < |rows[deleted..]| && rows[deleted..][i].seqNo == n
  {
    var i :| 0 <= i < |rows| && rows[i].seqNo == n;
    assert rows[deleted..][i - deleted] == rows[i];
  }

  method ScanLog(log: map<nat, LogEntry>, from: nat, last: nat) returns (rows: seq<LogRow>)
    requires forall n :: n in log ==> n <= last
    ensures IsScan(log, from, rows)
  {
    rows := [];
    var n := from;
    while n <= last
      invariant n <= last + 1 || rows == []
      invariant from <= n
      invariant forall i :: 0 <= i < |rows| ==>
        from <= rows[i].seqNo < n && rows[i].seqNo in log && log[rows[i].seqNo] == rows[i].entry
      invariant forall i, j :: 0 <= i < j < |rows| ==> rows[i].seqNo < rows[j].seqNo
      invariant forall m :: m in log && from <= m < n ==> exists i :: 0 <= i < |rows| && rows[i].seqNo == m
    {
      ghost var prev := rows;
      if n in log {
        rows := rows + [LogRow(n, log[n])];
        assert rows[|prev|].seqNo == n;
      }
      forall m | m in log && from <= m < n + 1 ensures exists i :: 0 <= i < |rows| && rows[i].seqNo == m {
        if m < n {
          var i :| 0 <= i < |prev| && prev[i].seqNo == m;
          assert rows[i].seqNo == m;
        }
      }
      n := n + 1;
    }
  }

  /** Calling again until it returns zero: every call shrinks the log, and at the end
      the cap holds and the oldest entry left has not aged out. */
  method TrimAll(db: Db, now: int, retention: int, maxEntries: int) returns (rows: seq<LogRow>)
    requires Bounded(db.store)
    modifies db
    ensures Bounded(db.store) && IsScan(StoreLog(db.store), 0, rows)
    ensures maxEntries > 0 ==> |rows| <= maxEntries
    ensures rows != [] ==> !Expired(rows[0].entry, now, retention)
    ensures LogFloor(old(db.store)) <= LogFloor(db.store) && Sequence(db.store) == Sequence(old(db.store))
  {
    forall n | n in StoreLog(db.store) ensures n <= Sequence(db.store) { LogAt(db.store, n); }
    rows := ScanLog(StoreLog(db.store), 0, Sequence(db.store));
    var deleted := 1;
    while deleted > 0
      invariant Bounded(db.store) && IsScan(StoreLog(db.store), 0, rows)
      invariant LogFloor(old(db.store)) <= LogFloor(db.store) && Sequence(db.store) == Sequence(old(db.store))
      invariant deleted == 0 ==> ToDrop(rows, now, retention, maxEntries) == 0
      decreases |rows|, deleted
    {
      ghost var s := db.store;
      deleted := TrimChanges(db, rows, now, retention, maxEntries);
      if deleted > 0 {
        TrimKeepsBounded(s, db.store, rows[deleted - 1].seqNo + 1);
        TrimmedScan(s, db.store, rows, deleted);
      } else {
        assert rows[0..] == rows;
      }
      rows := rows[deleted..];
    }
  }
}
