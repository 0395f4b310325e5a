/** Evaluations take no lease and, in Foo/query, no sequence number (core/runtime/query.go:
    query, evaluateWith): every index row, every id and every record is as some moment of
    the span had it. What such a torn picture still says about a record that stood still. */
module TornReads {
  import opened Options
  import opened ByteOrder
  import opened Records
  import opened Keys
  import opened Store
  import opened Schema
  import opened Results
  import opened History
  import opened Commits
  import opened ObjectDb
  import opened Runs
  import opened Comparators
  import opened Planner
  import opened Evaluate
  import opened QueryReads

  // ---- What a torn picture is ----

  /** The row was there at some moment of the span, or missing at some moment. */
  ghost predicate ThereOnce(run: seq<Store>, i: nat, j: nat, k: Key) {
    exists m :: i <= m <= j < |run| && k in run[m]
  }

  ghost predicate MissingOnce(run: seq<Store>, i: nat, j: nat, k: Key) {
    exists m :: i <= m <= j < |run| && k !in run[m]
  }

  /** A scan of an index range that looked at each row at a moment of its own. */
  ghost predicate ScanSeen(run: seq<Store>, i: nat, j: nat, t: Name, n: Name, v: Bytes, ids: set<Id>) {
    && (forall id :: id in ids ==> exists ord :: ThereOnce(run, i, j, Idx(t, n, v, ord, id)))
    && (forall id, ord :: id !in ids ==> MissingOnce(run, i, j, Idx(t, n, v, ord, id)))
  }

  /** The listing of ids told the truth of some moment. */
  ghost predicate PresenceSeen(run: seq<Store>, i: nat, j: nat, t: Name, id: Id, present: bool) {
    exists m :: i <= m <= j < |run| && (ObjectAt(run[m], t, id).Some? <==> present)
  }

  /** The record was loaded as some moment had it. */
  ghost predicate LoadSeen(run: seq<Store>, i: nat, j: nat, t: Name, id: Id, o: Option<Object>) {
    exists m :: i <= m <= j < |run| && ObjectAt(run[m], t, id) == o
  }

  /** All reads of one evaluation fell between two moments of a run. */
  ghost predicate PictureSeen(w: Scope, run: seq<Store>, i: nat, j: nat) {
    && i <= j < |run|
    && (forall at, n, v :: ScanSeen(run, i, j, w.t, n, v, w.scan(at, n, v)))
    && (forall id :: PresenceSeen(run, i, j, w.t, id, id in w.all))
    && (forall id :: LoadSeen(run, i, j, w.t, id, ObjectAt(w.s, w.t, id)))
  }

  // ---- A record that stood still ----

  /** Both are absent, or agree on the properties, up to the form of their values. */
  ghost predicate SameRecord(a: Option<Object>, b: Option<Object>, props: set<Name>, norm: Raw -> Raw) {
    && (a.Some? <==> b.Some?)
    && (a.Some? && b.Some? ==> forall p :: p in props ==> NormAt(a.value, p, norm) == NormAt(b.value, p, norm))
  }

  /** Throughout the span the record is there or not, with the same values. */
  ghost predicate StoodStill(run: seq<Store>, i: nat, j: nat, t: Name, id: Id, props: set<Name>, norm: Raw -> Raw) {
    forall m :: i <= m <= j < |run| ==> SameRecord(ObjectAt(run[i], t, id), ObjectAt(run[m], t, id), props, norm)
  }

  /** The encodings of the type do not see how a value is written. */
  ghost predicate NeutralAt(ty: Type, n: Name, norm: Raw -> Raw) {
    n in ty.props ==> forall raw :: ty.props[n].encode(norm(raw)) == ty.props[n].encode(raw)
  }

  lemma SameValue(ty: Type, a: Option<Object>, b: Option<Object>, props: set<Name>, norm: Raw -> Raw, n: Name)
    requires SameRecord(a, b, props, norm) && n in props && n in ty.props && NeutralAt(ty, n, norm)
    ensures IndexValue(ty.props[n], RawAt(a, n)) == IndexValue(ty.props[n], RawAt(b, n))
  {
    if a.Some? {
      assert NormAt(a.value, n, norm) == NormAt(b.value, n, norm);
      if n in a.value {
        assert ty.props[n].encode(norm(a.value[n])) == ty.props[n].encode(a.value[n]);
        assert ty.props[n].encode(norm(b.value[n])) == ty.props[n].encode(b.value[n]);
      }
    }
  }

  /** A step that leaves the record's value alone leaves its index rows alone. */
  lemma RowStays(sc: Schema, s: Store, s': Store, t: Name, n: Name, v: Bytes, ord: seq<Bytes>, id: Id)
    requires ValidSchema(sc) && Step(sc, s, s') && t in sc.types
    requires n in sc.types[t].props && sc.types[t].props[n].indexed
    requires IndexValue(sc.types[t].props[n], RawAt(ObjectAt(s, t, id), n))
          == IndexValue(sc.types[t].props[n], RawAt(ObjectAt(s', t, id), n))
    ensures Idx(t, n, v, ord, id) in s <==> Idx(t, n, v, ord, id) in s'
  {
    var k := Idx(t, n, v, ord, id);
    if staged: Staging, bumped: set<Name> :| Committed(sc, s, staged, bumped, s') {
      CommitRowStays(sc, s, staged, bumped, s', t, n, v, ord, id);
    } else {
      assert Lookup(s', k) == Lookup(s, k);
    }
  }

  lemma CommitRowStays(sc: Schema, s: Store, staged: Staging, bumped: set<Name>, s': Store, t: Name, n: Name, v: Bytes,
          ord: seq<Bytes>, id: Id)
    requires ValidSchema(sc) && Committed(sc, s, staged, bumped, s')
    requires t in sc.types && n in sc.types[t].props && sc.types[t].props[n].indexed
    requires IndexValue(sc.types[t].props[n], RawAt(ObjectAt(s, t, id), n))
          == IndexValue(sc.types[t].props[n], RawAt(ObjectAt(s', t, id), n))
    ensures Idx(t, n, v, ord, id) in s <==> Idx(t, n, v, ord, id) in s'
  {
    var k, r := Idx(t, n, v, ord, id), RecKey(t, id);
    CommittedOwner(sc, s, staged, bumped, s', k);
    CommittedObject(sc, s, staged, bumped, s', t, id);
    if r in staged {
      assert StagedOn(sc, s, r, staged[r]);
      assert OwnerEffect(sc, staged, k) == None;
    }
    assert Lookup(s', k) == Lookup(s, k);
  }

  lemma {:induction false} RowsStay(sc: Schema, run: seq<Store>, i: nat, m: nat, j: nat, t: Name, n: Name, v: Bytes,
          ord: seq<Bytes>, id: Id, props: set<Name>, norm: Raw -> Raw)
    requires ValidSchema(sc) && IsRun(sc, run) && i <= m <= j < |run| && StoodStill(run, i, j, t, id, props, norm)
    requires t in sc.types && n in props && n in sc.types[t].props && sc.types[t].props[n].indexed
    requires NeutralAt(sc.types[t], n, norm)
    ensures Idx(t, n, v, ord, id) in run[i] <==> Idx(t, n, v, ord, id) in run[m]
    decreases m
  {
    if i < m {
      RowsStay(sc, run, i, m - 1, j, t, n, v, ord, id, props, norm);
      assert StepAt(sc, run, m - 1);
      SameValue(sc.types[t], ObjectAt(run[i], t, id), ObjectAt(run[m - 1], t, id), props, norm, n);
      SameValue(sc.types[t], ObjectAt(run[i], t, id), ObjectAt(run[m], t, id), props, norm, n);
      RowStays(sc, run[m - 1], run[m], t, n, v, ord, id);
    }
  }

  // ---- What the reads say of it ----

  /** `props` is everything the query reads, up to the form of values; the protocol hides
      none of it. */
  ghost predicate Watches(w: Scope, local: Local, norm: Raw -> Raw, f: Filter, cmps: seq<Comparator>,
          props: set<Name>) {
    && ValidSchema(w.sc) && w.t in w.sc.types && Declared(w, local, norm) && Neutral(w.sc.types[w.t], cmps, norm)
    && Enough(w, local, f, props) && (forall c :: c in cmps ==> c.name in props)
    && forall p :: p in props ==> !Hidden(w.sc.types[w.t], p)
  }

  /** The query treats the record as the protocol shows it at another moment. */
  lemma SeenStanding(w: Scope, local: Local, norm: Raw -> Raw, f: Filter, cmps: seq<Comparator>, props: set<Name>,
          o: Object, o': Object)
    requires Watches(w, local, norm, f, cmps, props) && SameRecord(Some(o), Some(o'), props, norm)
    ensures SameStanding(Asked(w, f, cmps), o, Visible(w.sc.types[w.t], o'))
  {
    QueryReadsOnly(w, local, norm, f, cmps, props);
    var v := Visible(w.sc.types[w.t], o');
    forall p | p in props ensures NormAt(o, p, norm) == NormAt(v, p, norm) { }
    SameProject(o, v, props, norm);
  }

  /** A scan is right about a record that stood still: it finds it exactly if it has the
      value. */
  lemma ScanTrue(w: Scope, run: seq<Store>, i: nat, k: nat, j: nat, at: Path, n: Name, v: Bytes, id: Id,
          props: set<Name>, norm: Raw -> Raw)
    requires ValidSchema(w.sc) && IsRun(w.sc, run) && PictureSeen(w, run, i, j) && i <= k <= j
    requires Agrees(w.sc, run[i]) && StoodStill(run, i, j, w.t, id, props, norm)
    requires w.t in w.sc.types && n in props && n in w.sc.types[w.t].props && w.sc.types[w.t].props[n].indexed
    requires NeutralAt(w.sc.types[w.t], n, norm)
    ensures id in w.scan(at, n, v) <==>
      IndexValue(w.sc.types[w.t].props[n], RawAt(ObjectAt(run[k], w.t, id), n)) == Some(v)
  {
    var t, ty := w.t, w.sc.types[w.t];
    assert ValidType(ty) && ScanSeen(run, i, j, t, n, v, w.scan(at, n, v));
    SameValue(ty, ObjectAt(run[i], t, id), ObjectAt(run[k], t, id), props, norm, n);
    ScanAgrees(w.sc, run[i], t, n, v, id);
    if id in w.scan(at, n, v) {
      var ord :| ThereOnce(run, i, j, Idx(t, n, v, ord, id));
      var m :| i <= m <= j < |run| && Idx(t, n, v, ord, id) in run[m];
      RowsStay(w.sc, run, i, m, j, t, n, v, ord, id, props, norm);
      assert Idx(t, n, v, ord, id).id in ScanEqual(run[i], t, n, v);
    } else if id in ScanEqual(run[i], t, n, v) {
      RowMissing(w.sc, run, i, j, t, n, v, id, props, norm, w.scan(at, n, v));
    }
  }

  lemma RowMissing(sc: Schema, run: seq<Store>, i: nat, j: nat, t: Name, n: Name, v: Bytes, id: Id, props: set<Name>,
          norm: Raw -> Raw, ids: set<Id>)
    requires ValidSchema(sc) && IsRun(sc, run) && i <= j < |run| && StoodStill(run, i, j, t, id, props, norm)
    requires ScanSeen(run, i, j, t, n, v, ids) && id !in ids
    requires t in sc.types && n in props && n in sc.types[t].props && sc.types[t].props[n].indexed
    requires NeutralAt(sc.types[t], n, norm)
    ensures id !in ScanEqual(run[i], t, n, v)
  {
    if id in ScanEqual(run[i], t, n, v) {
      var key :| key in run[i] && key.Idx? && key.typ == t && key.prop == n && key.value == v && key.id == id;
      assert MissingOnce(run, i, j, Idx(t, n, v, key.order, id));
      var m :| i <= m <= j < |run| && Idx(t, n, v, key.order, id) !in run[m];
      RowsStay(sc, run, i, m, j, t, n, v, key.order, id, props, norm);
    }
  }

  /** The span: the run, its bounds, and what the query watches. */
  ghost predicate Span(w: Scope, local: Local, norm: Raw -> Raw, f: Filter, cmps: seq<Comparator>, props: set<Name>,
          run: seq<Store>, i: nat, j: nat) {
    && Watches(w, local, norm, f, cmps, props) && IsRun(w.sc, run) && PictureSeen(w, run, i, j) && Agrees(w.sc, run[i])
  }

  lemma PairsTrue(w: Scope, local: Local, norm: Raw -> Raw, f: Filter, cmps: seq<Comparator>, props: set<Name>,
          run: seq<Store>, i: nat, k: nat, j: nat, at: Path, n: Name, want: Raw, id: Id)
    requires Span(w, local, norm, f, cmps, props, run, i, j) && i <= k <= j && w.sem.Core? && Mentions(f, n)
    requires StoodStill(run, i, j, w.t, id, props, norm)
    ensures PairTrue(w, at, n, want, VisibleTable(w.sc, run[k], w.t), id)
  {
    var ty, db := w.sc.types[w.t], VisibleTable(w.sc, run[k], w.t);
    assert Reads1(w.sem, local, n, n) && ReadBy(w.sem, local, f, n);
    if n in ty.props && ty.props[n].indexed && IndexValue(ty.props[n], Some(want)).Some? {
      var v := IndexValue(ty.props[n], Some(want)).value;
      assert NeutralAt(ty, n, norm);
      ScanTrue(w, run, i, k, j, at, n, v, id, props, norm);
      VisibleAt(w.sc, run[k], w.t, id);
    }
  }

  /** Every read of a torn picture is right about a record that stood still, the record
      being as any moment of the span shows it. */
  lemma StillReads(w: Scope, local: Local, norm: Raw -> Raw, f: Filter, cmps: seq<Comparator>, props: set<Name>,
          run: seq<Store>, i: nat, k: nat, j: nat, id: Id)
    requires Span(w, local, norm, f, cmps, props, run, i, j) && i <= k <= j
    requires StoodStill(run, i, j, w.t, id, props, norm)
    requires w.sem.Custom? ==> TrueScans(w, f, VisibleTable(w.sc, run[k], w.t), id)
    ensures TrueReads(w, f, cmps, VisibleTable(w.sc, run[k], w.t), id)
  {
    ScansTrue(w, local, norm, f, cmps, props, run, i, k, j, id);
    PresenceTrue(w, run, i, k, j, id, props, norm);
    if ObjectAt(w.s, w.t, id).Some? { LoadTrue(w, local, norm, f, cmps, props, run, i, k, j, id); }
    TruthFromStores(w, f, cmps, run[k], id);
  }

  lemma ScansTrue(w: Scope, local: Local, norm: Raw -> Raw, f: Filter, cmps: seq<Comparator>, props: set<Name>,
          run: seq<Store>, i: nat, k: nat, j: nat, id: Id)
    requires Span(w, local, norm, f, cmps, props, run, i, j) && i <= k <= j
    requires StoodStill(run, i, j, w.t, id, props, norm)
    requires w.sem.Custom? ==> TrueScans(w, f, VisibleTable(w.sc, run[k], w.t), id)
    ensures TrueScans(w, f, VisibleTable(w.sc, run[k], w.t), id)
  {
    if w.sem.Core? {
      forall at, n, want | Mentions(f, n) ensures PairTrue(w, at, n, want, VisibleTable(w.sc, run[k], w.t), id) {
        PairsTrue(w, local, norm, f, cmps, props, run, i, k, j, at, n, want, id);
      }
    }
  }

  lemma TruthFromStores(w: Scope, f: Filter, cmps: seq<Comparator>, s: Store, id: Id)
    requires w.t in w.sc.types && TrueScans(w, f, VisibleTable(w.sc, s, w.t), id)
    requires id in w.all <==> ObjectAt(s, w.t, id).Some?
    requires ObjectAt(w.s, w.t, id).Some? <==> ObjectAt(s, w.t, id).Some?
    requires ObjectAt(w.s, w.t, id).Some? ==>
      SameStanding(Asked(w, f, cmps), ObjectAt(w.s, w.t, id).value,
                   Visible(w.sc.types[w.t], ObjectAt(s, w.t, id).value))
    ensures TrueReads(w, f, cmps, VisibleTable(w.sc, s, w.t), id)
  {
    VisibleAt(w.sc, s, w.t, id);
    StoredAt(w, id);
  }

  lemma PresenceTrue(w: Scope, run: seq<Store>, i: nat, k: nat, j: nat, id: Id, props: set<Name>, norm: Raw -> Raw)
    requires PictureSeen(w, run, i, j) && i <= k <= j && StoodStill(run, i, j, w.t, id, props, norm)
    ensures id in w.all <==> ObjectAt(run[k], w.t, id).Some?
    ensures SameRecord(ObjectAt(w.s, w.t, id), ObjectAt(run[k], w.t, id), props, norm)
  {
    assert PresenceSeen(run, i, j, w.t, id, id in w.all) && LoadSeen(run, i, j, w.t, id, ObjectAt(w.s, w.t, id));
    var m :| i <= m <= j < |run| && (ObjectAt(run[m], w.t, id).Some? <==> id in w.all);
    var m' :| i <= m' <= j < |run| && ObjectAt(run[m'], w.t, id) == ObjectAt(w.s, w.t, id);
    assert SameRecord(ObjectAt(run[i], w.t, id), ObjectAt(run[m], w.t, id), props, norm);
    assert SameRecord(ObjectAt(run[i], w.t, id), ObjectAt(run[m'], w.t, id), props, norm);
    assert SameRecord(ObjectAt(run[i], w.t, id), ObjectAt(run[k], w.t, id), props, norm);
  }

  lemma LoadTrue(w: Scope, local: Local, norm: Raw -> Raw, f: Filter, cmps: seq<Comparator>, props: set<Name>,
          run: seq<Store>, i: nat, k: nat, j: nat, id: Id)
    requires Watches(w, local, norm, f, cmps, props) && PictureSeen(w, run, i, j) && i <= k <= j
    requires StoodStill(run, i, j, w.t, id, props, norm) && ObjectAt(w.s, w.t, id).Some?
    ensures ObjectAt(run[k], w.t, id).Some?
    ensures SameStanding(Asked(w, f, cmps), ObjectAt(w.s, w.t, id).value,
                         Visible(w.sc.types[w.t], ObjectAt(run[k], w.t, id).value))
  {
    PresenceTrue(w, run, i, k, j, id, props, norm);
    SeenStanding(w, local, norm, f, cmps, props, ObjectAt(w.s, w.t, id).value, ObjectAt(run[k], w.t, id).value);
  }

  /** Where every store of the span holds nothing but kind-checked records, what is loaded
      is kind-checked. */
  lemma LoadedChecked(w: Scope, run: seq<Store>, i: nat, j: nat, id: Id)
    requires PictureSeen(w, run, i, j) && w.t in w.sc.types && id in Stored(w)
    requires forall m :: i <= m <= j ==> AllChecked(w.sc, run[m])
    ensures Checked(w.sc.types[w.t], Stored(w)[id])
  {
    StoredAt(w, id);
    assert LoadSeen(run, i, j, w.t, id, ObjectAt(w.s, w.t, id));
    var m :| i <= m <= j < |run| && ObjectAt(run[m], w.t, id) == ObjectAt(w.s, w.t, id);
    assert AllChecked(w.sc, run[m]);
  }

  // ---- What the history says ----

  /** A record the log does not name over the span stood still. */
  lemma UntouchedStill(sc: Schema, run: seq<Store>, t: Name, h: History, i: nat, j: nat, id: Id, props: set<Name>)
    requires IsHistory(sc, run, t, h) && t in sc.types && i <= j < |run|
    requires forall p :: p in props ==> !Hidden(sc.types[t], p)
    requires Window(h, Sequence(run[i]), Sequence(run[j])) && id !in Touched(h, Sequence(run[i]), Sequence(run[j]))
    ensures StoodStill(run, i, j, t, id, props, Verbatim)
  {
    forall m | i <= m <= j
      ensures SameRecord(ObjectAt(run[i], t, id), ObjectAt(run[m], t, id), props, Verbatim)
    {
      FloorTellsTruth(sc, run, i, m);
      FloorTellsTruth(sc, run, m, j);
      TouchedSplit(h, Sequence(run[i]), Sequence(run[m]), Sequence(run[j]));
      UntouchedSame(h, Sequence(run[i]), Sequence(run[m]), id);
      ShownSame(sc, run, t, h, i, m, id, props);
    }
  }

  lemma ShownSame(sc: Schema, run: seq<Store>, t: Name, h: History, i: nat, m: nat, id: Id, props: set<Name>)
    requires IsHistory(sc, run, t, h) && t in sc.types && i < |run| && m < |run|
    requires forall p :: p in props ==> !Hidden(sc.types[t], p)
    requires Sequence(run[i]) < |h.states| && Sequence(run[m]) < |h.states|
    requires var a, b := h.states[Sequence(run[i])], h.states[Sequence(run[m])];
      (id in a <==> id in b) && (id in a && id in b ==> a[id] == b[id])
    ensures SameRecord(ObjectAt(run[i], t, id), ObjectAt(run[m], t, id), props, Verbatim)
  {
    assert Recorded(sc, run[i], t, h) && Recorded(sc, run[m], t, h);
    VisibleAt(sc, run[i], t, id);
    VisibleAt(sc, run[m], t, id);
    var x, y := ObjectAt(run[i], t, id), ObjectAt(run[m], t, id);
    if x.Some? {
      var vx, vy := Visible(sc.types[t], x.value), Visible(sc.types[t], y.value);
      forall p | p in props ensures NormAt(x.value, p, Verbatim) == NormAt(y.value, p, Verbatim) {
        assert p in vx <==> p in x.value;
        assert p in vy <==> p in y.value;
      }
    }
  }

  function Verbatim(raw: Raw): Raw { raw }

  /** An update leaves the immutable properties of a record that neither came nor went. */
  lemma {:induction false} ImmutableSame(ty: Type, h: History, a: nat, b: nat, id: Id, norm: Raw -> Raw)
    requires Window(h, a, b) && KeepsImmutable(ty, h, norm) && id !in CameOrWent(h, a, b) && id in h.states[a]
    ensures id in h.states[b] && SameImmutable(ty, h.states[a][id], h.states[b][id], norm)
  {
    StayedPresent(h, a, b, id);
    if a < b {
      ImmutableSame(ty, h, a, b - 1, id, norm);
      var before, c, after := h.states[b - 1], h.entries[b - 1], h.states[b];
      assert LegalStep(before, c, after) && StepKeepsImmutable(ty, before, c, after, norm);
      assert SameImmutable(ty, before[id], after[id], norm);
    }
  }

  /** On the immutable diet a record that neither came nor went stood still in all the
      query reads. */
  lemma ImmutableStill(sc: Schema, run: seq<Store>, t: Name, h: History, i: nat, j: nat, id: Id, props: set<Name>,
          norm: Raw -> Raw)
    requires IsHistory(sc, run, t, h) && t in sc.types && i <= j < |run| && KeepsImmutable(sc.types[t], h, norm)
    requires forall p :: p in props ==>
      p in sc.types[t].props && sc.types[t].props[p].immutable && !Hidden(sc.types[t], p)
    requires Window(h, Sequence(run[i]), Sequence(run[j])) && id !in CameOrWent(h, Sequence(run[i]), Sequence(run[j]))
    ensures StoodStill(run, i, j, t, id, props, norm)
  {
    forall m | i <= m <= j ensures SameRecord(ObjectAt(run[i], t, id), ObjectAt(run[m], t, id), props, norm) {
      FloorTellsTruth(sc, run, i, m);
      FloorTellsTruth(sc, run, m, j);
      TouchedSplit(h, Sequence(run[i]), Sequence(run[m]), Sequence(run[j]));
      StayedPresent(h, Sequence(run[i]), Sequence(run[m]), id);
      if id in h.states[Sequence(run[i])] {
        ImmutableSame(sc.types[t], h, Sequence(run[i]), Sequence(run[m]), id, norm);
      }
      ShownImmutable(sc, run, t, h, i, m, id, props, norm);
    }
  }

  lemma ShownImmutable(sc: Schema, run: seq<Store>, t: Name, h: History, i: nat, m: nat, id: Id, props: set<Name>,
          norm: Raw -> Raw)
    requires IsHistory(sc, run, t, h) && t in sc.types && i < |run| && m < |run|
    requires forall p :: p in props ==>
      p in sc.types[t].props && sc.types[t].props[p].immutable && !Hidden(sc.types[t], p)
    requires Sequence(run[i]) < |h.states| && Sequence(run[m]) < |h.states|
    requires var a, b := h.states[Sequence(run[i])], h.states[Sequence(run[m])];
      (id in a <==> id in b) && (id in a && id in b ==> SameImmutable(sc.types[t], a[id], b[id], norm))
    ensures SameRecord(ObjectAt(run[i], t, id), ObjectAt(run[m], t, id), props, norm)
  {
    assert Recorded(sc, run[i], t, h) && Recorded(sc, run[m], t, h);
    VisibleAt(sc, run[i], t, id);
    VisibleAt(sc, run[m], t, id);
    var x, y := ObjectAt(run[i], t, id), ObjectAt(run[m], t, id);
    if x.Some? {
      var vx, vy := Visible(sc.types[t], x.value), Visible(sc.types[t], y.value);
      forall p | p in props ensures NormAt(x.value, p, norm) == NormAt(y.value, p, norm) {
        assert NormAt(vx, p, norm) == NormAt(vy, p, norm);
        assert p in vx <==> p in x.value;
        assert p in vy <==> p in y.value;
      }
    }
  }
}
