/** What the lease (core/providers/lease) gives the object database: the stores of its
    fenced batches, in commit order, are a run. */
module LeasedRuns {
  import opened Options
  import opened Records
  import opened Keys
  import opened Store
  import opened Schema
  import opened Commits
  import opened ObjectDb
  import opened ChangeLog
  import opened Trim
  import opened Runs
  import Lease

  // ---- What the writers compute from what they read ----

  function NumIn(v: Option<Val>): nat { if v.Some? && v.value.Num? then v.value.n else 0 }

  function RecordIn(v: Option<Val>): Option<Object> { if v.Some? && v.value.Record? then Some(v.value.obj) else None }

  /** The staged record's committed version is the one read under the lease; a created
      record's id is new. */
  ghost predicate StagedFrom(sc: Schema, c: Lease.Commit, k: RecKey, st: Staged) {
    && k.typ in sc.types && (st.created <==> st.prior.None?)
    && (st.quiet && st.next.Some? ==> !st.created && VisibleDiff(sc.types[k.typ], st.prior.value, st.next.value) == {})
    && (st.created ==> ObjectAt(c.before, k.typ, k.id).None?)
    && (!st.created ==> Obj(k.typ, k.id) in c.view && RecordIn(c.view[Obj(k.typ, k.id)]) == st.prior)
  }

  /** An Update's batch: the staged records, the log entry and the states, with one more than
      the sequence it read. */
  ghost predicate UpdateBatch(sc: Schema, c: Lease.Commit, staged: Staging, bumped: set<Name>, ops: seq<Op>) {
    && Seq in c.view && (forall k :: k in staged ==> StagedFrom(sc, c, k, staged[k]))
    && var n := NumIn(c.view[Seq]) + 1;
       BatchOf(sc, staged, bumped, n, ops) && c.after == Apply(c.before, ops + [Op.Set(Seq, Num(n))])
  }

  /** A trim's batch: of the log rows it read, those below the new floor are deleted. */
  ghost predicate TrimBatch(c: Lease.Commit, last: nat, ops: seq<Op>) {
    && (forall n: nat :: n <= last ==> Key.Log(n) in c.view)
    && c.view[Key.Log(last)].Some?
    && (forall k :: EffectAt(ops, k) ==
          if k.Log? && k.seqNo <= last && c.view[k].Some? then Some(None) else None)
    && c.after == Apply(c.before, ops + [Op.Set(Floor, Num(last + 1))])
  }

  /** Every batch is an Update's, a trim's, or an upload's or sweep's, which write nothing but
      uploads and hints. */
  ghost predicate Computed(sc: Schema, c: Lease.Commit) {
    || (exists staged: Staging, bumped: set<Name>, ops :: UpdateBatch(sc, c, staged, bumped, ops))
    || (exists last: nat, ops :: TrimBatch(c, last, ops))
    || BlobsOnly(c.before, c.after)
  }

  /** What BuildBatch makes of a staging is an Update's batch on any store in which the
      records and the sequence it read still hold. */
  lemma BuiltFromReads(sc: Schema, base: Store, staged: Staging, bumped: set<Name>, ops: seq<Op>, c: Lease.Commit)
    requires StagingOk(sc, base, staged) && BatchOf(sc, staged, bumped, Sequence(base) + 1, ops)
    requires Seq in c.view && c.view[Seq] == Lookup(base, Seq)
    requires forall k :: k in staged && !staged[k].created ==>
      Obj(k.typ, k.id) in c.view && c.view[Obj(k.typ, k.id)] == Lookup(base, Obj(k.typ, k.id))
    requires forall k :: k in staged && staged[k].created ==> ObjectAt(c.before, k.typ, k.id).None?
    requires c.after == Apply(c.before, ops + [Op.Set(Seq, Num(Sequence(base) + 1))])
    ensures UpdateBatch(sc, c, staged, bumped, ops)
  {
    forall k | k in staged ensures StagedFrom(sc, c, k, staged[k]) { assert StagedOn(sc, base, k, staged[k]); }
  }

  /** What TrimChanges makes of the rows it scanned is a trim's batch on any store in which
      they still hold. */
  lemma TrimmedFromRows(base: Store, rows: seq<LogRow>, deleted: nat, ops: seq<Op>, c: Lease.Commit)
    requires Bounded(base) && IsScan(StoreLog(base), 0, rows) && 0 < deleted <= |rows|
    requires forall k :: EffectAt(ops, k) == DropEffect(rows[..deleted], k)
    requires forall n: nat :: n <= rows[deleted - 1].seqNo ==>
      Key.Log(n) in c.view && c.view[Key.Log(n)] == Lookup(base, Key.Log(n))
    requires c.after == Apply(c.before, ops + [Op.Set(Floor, Num(rows[deleted - 1].seqNo + 1))])
    ensures TrimBatch(c, rows[deleted - 1].seqNo, ops)
  {
    var last := rows[deleted - 1].seqNo;
    forall k ensures EffectAt(ops, k) == if k.Log? && k.seqNo <= last && c.view[k].Some? then Some(None) else None {
      if k.Log? { PrefixBelow(base, rows, deleted, k.seqNo); }
    }
    LogAt(base, last);
  }

  // ---- On current reads, each is a step ----

  lemma UpdateSteps(sc: Schema, c: Lease.Commit, staged: Staging, bumped: set<Name>, ops: seq<Op>)
    requires Lease.ReadsCurrent(c) && UpdateBatch(sc, c, staged, bumped, ops)
    ensures Committed(sc, c.before, staged, bumped, c.after)
  {
    assert c.view[Seq] == Lookup(c.before, Seq);
    forall k | k in staged ensures StagedOn(sc, c.before, k, staged[k]) {
      assert StagedFrom(sc, c, k, staged[k]);
      if !staged[k].created { assert c.view[Obj(k.typ, k.id)] == Lookup(c.before, Obj(k.typ, k.id)); }
    }
    assert CommittedBy(sc, c.before, staged, bumped, ops, c.after);
  }

  lemma TrimSteps(c: Lease.Commit, last: nat, ops: seq<Op>)
    requires Lease.ReadsCurrent(c) && TrimBatch(c, last, ops) && Bounded(c.before)
    ensures Trimmed(c.before, c.after, last + 1)
  {
    assert c.view[Key.Log(last)] == Lookup(c.before, Key.Log(last));
    forall k
      ensures Lookup(c.after, k) ==
        if k == Floor then Some(Num(last + 1)) else if k.Log? && k.seqNo < last + 1 then None else Lookup(c.before, k)
    {
      ApplyAt(c.before, ops + [Op.Set(Floor, Num(last + 1))], k);
      EffectSnoc(ops, Op.Set(Floor, Num(last + 1)), k);
      if k.Log? && k.seqNo <= last { assert c.view[k] == Lookup(c.before, k); }
    }
  }

  lemma ComputedSteps(sc: Schema, c: Lease.Commit)
    requires Lease.ReadsCurrent(c) && Computed(sc, c) && Bounded(c.before)
    ensures Step(sc, c.before, c.after)
  {
    if staged: Staging, bumped: set<Name>, ops :| UpdateBatch(sc, c, staged, bumped, ops) {
      UpdateSteps(sc, c, staged, bumped, ops);
    } else if last: nat, ops :| TrimBatch(c, last, ops) {
      TrimSteps(c, last, ops);
    }
  }

  // ---- Runs ----

  /** The stores around the first n committed batches. */
  ghost function Stores(commits: seq<Lease.Commit>, n: nat): seq<Store>
    requires n <= |commits|
  {
    seq(n + 1, j requires 0 <= j <= n => Lease.StoreAt(commits, map[], j))
  }

  /** The j-th batch was applied to the store the one before left, on current reads. */
  ghost predicate LinkAt(sc: Schema, commits: seq<Lease.Commit>, j: int)
    requires 0 <= j < |commits|
  {
    && commits[j].before == Lease.StoreAt(commits, map[], j)
    && Lease.ReadsCurrent(commits[j]) && Computed(sc, commits[j])
  }

  lemma {:induction false} RunTo(sc: Schema, commits: seq<Lease.Commit>, n: nat)
    requires n <= |commits| && forall j :: 0 <= j < |commits| ==> LinkAt(sc, commits, j)
    ensures IsRun(sc, Stores(commits, n))
  {
    if n > 0 {
      RunTo(sc, commits, n - 1);
      NextStep(sc, commits, n - 1);
      RunSnoc(sc, Stores(commits, n - 1), commits[n - 1].after);
      assert Stores(commits, n) == Stores(commits, n - 1) + [commits[n - 1].after];
    }
  }

  lemma NextStep(sc: Schema, commits: seq<Lease.Commit>, j: nat)
    requires j < |commits| && LinkAt(sc, commits, j) && IsRun(sc, Stores(commits, j))
    ensures Step(sc, Stores(commits, j)[j], commits[j].after)
  {
    FloorTellsTruth(sc, Stores(commits, j), j, j);
    ComputedSteps(sc, commits[j]);
  }

  /** Whatever the instances and their managers do, as long as every batch is computed as an
      Update, a trim, an upload or a sweep computes it from what it read under its lease,
      readers see a run. */
  lemma LeasedRun(sc: Schema, w: Lease.World, steps: seq<Lease.Step>)
    requires Lease.Init(w) && w.store == map[]
    requires forall c :: c in Lease.Run(w, steps).commits ==> Computed(sc, c)
    ensures var end := Lease.Run(w, steps);
      && IsRun(sc, Stores(end.commits, |end.commits|))
      && Stores(end.commits, |end.commits|)[|end.commits|] == end.store
  {
    Lease.RunSerializable(w, steps);
    var commits := Lease.Run(w, steps).commits;
    forall j | 0 <= j < |commits| ensures LinkAt(sc, commits, j) { assert commits[j] in commits; }
    RunTo(sc, commits, |commits|);
  }
}
