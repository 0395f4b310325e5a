/** Runs of the database itself in which the code falls short of what it promises: each
    is made of real Updates and commits, with readers at moments of their own. */
module Witnesses {
  import opened Options
  import opened ByteOrder
  import opened Records
  import opened Keys
  import opened Store
  import opened Schema
  import opened IndexOps
  import opened History
  import opened Commits
  import opened ObjectDb
  import opened ChangeLog
  import opened Trim
  import opened Runs
  import opened LogReaders

  const ITEM: Name := [0x49]
  const FIRST: Id := [0x61]
  const P: Name := [0x50]
  const Q: Name := [0x51]
  const ONE: Raw := [0x31]
  const TWO: Raw := [0x32]

  function Unquote(raw: Raw): Option<Bytes> { if |raw| < 2 then None else Some(raw[1..|raw| - 1]) }

  lemma UnquoteQuote(id: Id)
    ensures Unquote(Quote(id)) == Some(id)
  {
    assert Quote(id)[1..|id| + 1] == id;
  }

  /** The stored form of the one record. */
  function First(o: Object): Object { o[ID := Quote(FIRST)] }

  /** Create the record, or write it again, in a commit of its own. */
  method Write(db: Db, sc: Schema, o: Object) returns (ok: bool, ghost staged: Staging)
    requires ValidSchema(sc) && AllChecked(sc, db.store) && ITEM in sc.types && sc.str(Quote(FIRST)) == Some(FIRST)
    requires ID !in o && Checked(sc.types[ITEM], o)
    modifies db
    ensures AllChecked(sc, db.store)
    ensures var prior := ObjectAt(old(db.store), ITEM, FIRST);
      && staged == map[RecKey(ITEM, FIRST) := Staged(prior, Some(First(o)), prior.None?, false)]
      && (ok <==> RecordFine(sc.types[ITEM], prior, Some(First(o))))
    ensures ok ==> Committed(sc, old(db.store), staged, {}, db.store)
  {
    var u := StageFirst(sc, db.store, o);
    staged := u.staged;
    var r := db.Commit(u, 0);
    ok := r.Ok?;
    assert RecKey(ITEM, FIRST) in staged;
  }

  /** An Update that creates the record, or writes it again. */
  method StageFirst(sc: Schema, base: Store, o: Object) returns (u: Update)
    requires ValidSchema(sc) && AllChecked(sc, base) && ITEM in sc.types && sc.str(Quote(FIRST)) == Some(FIRST)
    requires ID !in o && Checked(sc.types[ITEM], o)
    ensures fresh(u) && u.Valid() && u.sc == sc && u.base == base && u.bumped == {}
    ensures var prior := ObjectAt(base, ITEM, FIRST);
      u.staged == map[RecKey(ITEM, FIRST) := Staged(prior, Some(First(o)), prior.None?, false)]
  {
    u := new Update(sc, base);
    var prior := u.Get(ITEM, FIRST);
    var done;
    if prior.None? {
      done := u.Create(ITEM, o, FIRST);
    } else {
      done := u.Put(ITEM, FIRST, First(o));
    }
  }

  /** What such a commit leaves. */
  lemma Written(sc: Schema, s: Store, staged: Staging, s': Store, o: Object)
    requires ITEM in sc.types && Committed(sc, s, staged, {}, s')
    requires staged.Keys == {RecKey(ITEM, FIRST)}
    requires staged[RecKey(ITEM, FIRST)].next == Some(First(o)) && !staged[RecKey(ITEM, FIRST)].quiet
    ensures Step(sc, s, s') && Sequence(s') == Sequence(s) + 1 && StateOf(s', ITEM) == Sequence(s')
    ensures forall id :: ObjectAt(s', ITEM, id) == if id == FIRST then Some(First(o)) else ObjectAt(s, ITEM, id)
  {
    assert RecKey(ITEM, FIRST) in staged && TouchesType(staged, ITEM);
    CommittedNumbers(sc, s, staged, {}, s', ITEM);
    forall id ensures ObjectAt(s', ITEM, id) == if id == FIRST then Some(First(o)) else ObjectAt(s, ITEM, id) {
      CommittedObject(sc, s, staged, {}, s', ITEM, id);
    }
  }

  // ---- An OrderBy sibling moved ----

  function OrderedBy(orderBy: seq<Name>): Property {
    Property(true, false, orderBy, false, false, true, (raw: Raw) => true, (raw: Raw) => Ok(raw), (raw: Raw) => Err)
  }

  /** One type: P is indexed, its keys ordered by Q; both are declared immutable. */
  const ORDERED: Schema :=
    Schema(map[ITEM := Type(map[P := OrderedBy([Q]), Q := OrderedBy([])])], (raw: Raw) => Unquote(raw))

  lemma OrderedValid()
    ensures ValidSchema(ORDERED)
  {
    var ty := ORDERED.types[ITEM];
    assert Q in ty.props && ty.props[Q].immutable && P in ty.props;
  }

  lemma OrderedFine(prior: Option<Object>, next: Option<Object>)
    ensures RecordFine(ORDERED.types[ITEM], prior, next)
  {
  }

  const OLD: Object := map[P := ONE, Q := ONE]
  const NEW: Object := map[P := ONE, Q := TWO]

  method WriteOrdered(db: Db, o: Object) returns (ghost staged: Staging)
    requires (o == OLD || o == NEW) && AllChecked(ORDERED, db.store)
    modifies db
    ensures AllChecked(ORDERED, db.store) && Committed(ORDERED, old(db.store), staged, {}, db.store)
    ensures var prior := ObjectAt(old(db.store), ITEM, FIRST);
      staged == map[RecKey(ITEM, FIRST) := Staged(prior, Some(First(o)), prior.None?, false)]
  {
    OrderedReady(o);
    OrderedFine(ObjectAt(db.store, ITEM, FIRST), Some(First(o)));
    var ok;
    ok, staged := Write(db, ORDERED, o);
  }

  lemma OrderedReady(o: Object)
    requires o == OLD || o == NEW
    ensures ValidSchema(ORDERED) && ITEM in ORDERED.types && ORDERED.str(Quote(FIRST)) == Some(FIRST)
    ensures ID !in o && Checked(ORDERED.types[ITEM], o)
  {
    OrderedValid();
    UnquoteQuote(FIRST);
  }

  /** A valid descriptor, a record, and one write that changes Q and leaves P alone: it is
      accepted and committed, and the index no longer agrees with the record. */
  method OrderMoved() returns (ghost s0: Store, ghost s1: Store, ghost staged: Staging)
    ensures ValidSchema(ORDERED) && Agrees(ORDERED, s0) && Committed(ORDERED, s0, staged, {}, s1)
    ensures ObjectAt(s0, ITEM, FIRST) == Some(First(OLD)) && ObjectAt(s1, ITEM, FIRST) == Some(First(NEW))
    ensures !AllOrderKept(ORDERED, staged) && !Agrees(ORDERED, s1)
  {
    var db := new Db();
    ghost var created := WriteOrdered(db, OLD);
    s0 := db.store;
    staged := WriteOrdered(db, NEW);
    s1 := db.store;
    OrderedRun(created, s0, staged, s1);
  }

  lemma OrderedRun(created: Staging, s0: Store, staged: Staging, s1: Store)
    requires Committed(ORDERED, map[], created, {}, s0) && Committed(ORDERED, s0, staged, {}, s1)
    requires created == map[RecKey(ITEM, FIRST) := Staged(None, Some(First(OLD)), true, false)]
    requires var prior := ObjectAt(s0, ITEM, FIRST);
      staged == map[RecKey(ITEM, FIRST) := Staged(prior, Some(First(NEW)), prior.None?, false)]
    ensures ValidSchema(ORDERED) && Agrees(ORDERED, s0)
    ensures ObjectAt(s0, ITEM, FIRST) == Some(First(OLD)) && ObjectAt(s1, ITEM, FIRST) == Some(First(NEW))
    ensures !AllOrderKept(ORDERED, staged) && !Agrees(ORDERED, s1)
  {
    OrderedValid();
    CreatedAgrees(created, s0);
    Written(ORDERED, map[], created, s0, OLD);
    Written(ORDERED, s0, staged, s1, NEW);
    SiblingMoved(staged);
    MovedDisagrees(s0, staged, s1);
  }

  /** A commit that only creates moves nothing. */
  lemma CreatesKeepOrder(sc: Schema, staged: Staging)
    requires forall k :: k in staged ==> staged[k].prior.None?
    ensures AllOrderKept(sc, staged)
  {
  }

  lemma CreatedAgrees(staged: Staging, s0: Store)
    requires ValidSchema(ORDERED) && Committed(ORDERED, map[], staged, {}, s0)
    requires forall k :: k in staged ==> staged[k].prior.None?
    ensures Agrees(ORDERED, s0)
  {
    EmptyAgrees(ORDERED);
    CreatesKeepOrder(ORDERED, staged);
    CommitKeepsAgreement(ORDERED, map[], staged, {}, s0);
  }

  lemma MovedDisagrees(s0: Store, staged: Staging, s1: Store)
    requires ValidSchema(ORDERED) && Agrees(ORDERED, s0)
    requires Committed(ORDERED, s0, staged, {}, s1) && !AllOrderKept(ORDERED, staged)
    ensures !Agrees(ORDERED, s1)
  {
    if Agrees(ORDERED, s1) { AgreementNeedsOrderKept(ORDERED, s0, staged, {}, s1); }
  }

  lemma SiblingMoved(staged: Staging)
    requires staged == map[RecKey(ITEM, FIRST) := Staged(Some(First(OLD)), Some(First(NEW)), false, false)]
    ensures !AllOrderKept(ORDERED, staged)
  {
    var k, ty := RecKey(ITEM, FIRST), ORDERED.types[ITEM];
    assert k in staged && KeepsIndexed(ty, staged[k].prior, staged[k].next, P);
    assert OrderSegs(ty, [Q], staged[k].prior)[0] == ONE && OrderSegs(ty, [Q], staged[k].next)[0] == TWO;
    assert !OrderKept(ty, staged[k].prior, staged[k].next, P);
  }

  // ---- A commit between the scan and the state read ----

  const PLAIN: Property :=
    Property(false, false, [], false, false, false, (raw: Raw) => true, (raw: Raw) => Err, (raw: Raw) => Err)

  /** The same, with an index on its bytes. */
  const KEYED: Property := PLAIN.(indexed := true, encode := (raw: Raw) => Ok(raw))

  /** One type with two properties, P indexed. */
  const ITEMS: Schema := Schema(map[ITEM := Type(map[P := KEYED, Q := PLAIN])], (raw: Raw) => Unquote(raw))

  /** The staging of one write of the record. */
  function Writing(prior: Option<Object>, o: Object): Staging {
    map[RecKey(ITEM, FIRST) := Staged(prior, Some(First(o)), prior.None?, false)]
  }

  method WriteItem(db: Db, o: Object, ghost prior: Option<Object>)
    requires o.Keys <= {P, Q} && AllChecked(ITEMS, db.store) && prior == ObjectAt(db.store, ITEM, FIRST)
    modifies db
    ensures AllChecked(ITEMS, db.store)
    ensures Committed(ITEMS, old(db.store), Writing(prior, o), {}, db.store)
  {
    ItemsReady(o);
    ItemsFine(ObjectAt(db.store, ITEM, FIRST), Some(First(o)));
    var ok;
    ghost var staged;
    ok, staged := Write(db, ITEMS, o);
  }

  lemma ItemsReady(o: Object)
    requires o.Keys <= {P, Q}
    ensures ValidSchema(ITEMS) && ITEM in ITEMS.types && ITEMS.str(Quote(FIRST)) == Some(FIRST)
    ensures ID !in o && Checked(ITEMS.types[ITEM], o)
  {
    UnquoteQuote(FIRST);
    assert ID != P && ID != Q;
  }

  lemma ItemsFine(prior: Option<Object>, next: Option<Object>)
    ensures RecordFine(ITEMS.types[ITEM], prior, next)
  {
  }

  /** A run whose stores hold at most the one record, and one write more. */
  ghost predicate OneItem(run: seq<Store>) { IsRun(ITEMS, run) && OnlyFirst(run[|run| - 1]) }

  ghost predicate OnlyFirst(s: Store) { forall id :: ObjectAt(s, ITEM, id).Some? ==> id == FIRST }

  lemma OneMoreWrite(run: seq<Store>, before: Store, prior: Option<Object>, s: Store, o: Object)
    requires OneItem(run) && before == run[|run| - 1] && prior == ObjectAt(before, ITEM, FIRST) && o.Keys <= {P, Q}
    requires Committed(ITEMS, before, Writing(prior, o), {}, s)
    ensures OneItem(run + [s]) && Sequence(s) == Sequence(before) + 1 && StateOf(s, ITEM) == Sequence(s)
    ensures LogFloor(s) == LogFloor(before) && Bounded(before)
    ensures ObjectAt(s, ITEM, FIRST) == Some(First(o)) && VisibleTable(ITEMS, s, ITEM) == map[FIRST := First(o)]
  {
    Written(ITEMS, before, Writing(prior, o), s, o);
    FloorTellsTruth(ITEMS, run, |run| - 1, |run| - 1);
    CommitKeepsLog(ITEMS, before, Writing(prior, o), {}, s);
    RunSnoc(ITEMS, run, s);
    OneRecord(s, o);
  }

  /** The table of the one record. */
  lemma OneRecord(s: Store, o: Object)
    requires o.Keys <= {P, Q} && ObjectAt(s, ITEM, FIRST) == Some(First(o))
    requires OnlyFirst(s)
    ensures VisibleTable(ITEMS, s, ITEM) == map[FIRST := First(o)]
  {
    var table := VisibleTable(ITEMS, s, ITEM);
    assert Visible(ITEMS.types[ITEM], First(o)) == First(o);
    forall id ensures (id in table <==> id == FIRST) && (id in table ==> table[id] == First(o)) {
      VisibleAt(ITEMS, s, ITEM, id);
    }
  }

  const EMPTY: Store := map[]

  lemma EmptyRun()
    ensures OneItem([EMPTY]) && AllChecked(ITEMS, EMPTY) && Sequence(EMPTY) == 0
    ensures ObjectAt(EMPTY, ITEM, FIRST) == None && VisibleTable(ITEMS, EMPTY, ITEM) == map[]
  {
  }

  /** The table a history holds for a store of the run. */
  lemma TableAt(run: seq<Store>, h: History, i: nat)
    requires IsHistory(ITEMS, run, ITEM, h) && i < |run|
    ensures |h.states| == Sequence(run[|run| - 1]) + 1
    ensures Sequence(run[i]) < |h.states| && h.states[Sequence(run[i])] == VisibleTable(ITEMS, run[i], ITEM)
  {
    assert Recorded(ITEMS, run[i], ITEM, h);
  }

  /** A run of commits that each wrote the record, the last one with `o`. */
  ghost predicate WroteLast(run: seq<Store>, o: Object) {
    && OneItem(run) && |run| >= 2
    && var s := run[|run| - 1];
       && Sequence(s) == StateOf(s, ITEM) == |run| - 1 && LogFloor(s) == 0
       && ObjectAt(s, ITEM, FIRST) == Some(First(o)) && VisibleTable(ITEMS, s, ITEM) == map[FIRST := First(o)]
  }

  lemma WroteFirst(s: Store, o: Object)
    requires o.Keys <= {P, Q} && Committed(ITEMS, EMPTY, Writing(None, o), {}, s)
    ensures WroteLast([EMPTY] + [s], o)
  {
    EmptyRun();
    OneMoreWrite([EMPTY], EMPTY, None, s, o);
  }

  lemma WroteNext(run: seq<Store>, o: Object, before: Store, s: Store, o': Object)
    requires WroteLast(run, o) && o'.Keys <= {P, Q} && before == run[|run| - 1]
    requires Committed(ITEMS, before, Writing(Some(First(o)), o'), {}, s)
    ensures WroteLast(run + [s], o') && Bounded(before)
  {
    OneMoreWrite(run, before, Some(First(o)), s, o');
  }

  /** The scan before the first commit, the state read after it. */
  lemma LateSeen(run: seq<Store>)
    requires |run| == 2 && run[0] == EMPTY && StateOf(run[1], ITEM) == 1
    ensures SeenIn(run, ITEM, 0, Moments(0, 0, [0], 0, 1), ChangesReads(0, 0, [], 0, 1))
  {
    var at: seq<nat> := [0];
    assert StoreLog(run[0]) == map[];
    assert StepwiseScan(run, at, 1, []);
  }

  lemma LateHistory(run: seq<Store>, o: Object) returns (h: History)
    requires IsRun(ITEMS, run) && |run| == 2 && run[0] == EMPTY && Sequence(run[1]) == 1
    requires VisibleTable(ITEMS, run[1], ITEM) == map[FIRST := First(o)]
    ensures IsHistory(ITEMS, run, ITEM, h) && |h.states| == 2 && h.states[0] == map[] && h.states[1].Keys == {FIRST}
  {
    EmptyRun();
    h := RunHasHistory(ITEMS, run, ITEM);
    TableAt(run, h, 0);
    TableAt(run, h, 1);
  }

  method LatePage(ghost run: seq<Store>, ghost h: History) returns (page: ChangeSet)
    requires IsHistory(ITEMS, run, ITEM, h) && |run| == 2 && run[0] == EMPTY && StateOf(run[1], ITEM) == 1
    ensures !page.hasMore && page.newState == 1 && page.created == {} && page.updated == {} && page.destroyed == {}
  {
    LateSeen(run);
    var r := ChangesInRun(ChangesReads(0, 0, [], 0, 1), ITEM, 0, 0, ITEMS, run, h, Moments(0, 0, [0], 0, 1));
    page := r.value;
    assert NetPage(h, 0, 0, page);
  }

  /** Scanned before the commit that creates the record, the log is empty; read after it,
      the state is 1. The client is told state 1 and no record, while state 1 holds one. */
  method LateCommitMissed() returns (page: ChangeSet, ghost run: seq<Store>, ghost h: History)
    ensures IsHistory(ITEMS, run, ITEM, h) && |h.states| == 2
    ensures !page.hasMore && page.newState == 1 && page.created == {} && page.updated == {} && page.destroyed == {}
    ensures h.states[0] == map[] && h.states[1].Keys == {FIRST} && !NetPage(h, 0, 1, page)
  {
    EmptyRun();
    var db := new Db();
    WriteItem(db, OLD, None);
    WroteFirst(db.store, OLD);
    run := [EMPTY] + [db.store];
    h := LateHistory(run, OLD);
    page := LatePage(run, h);
    assert FIRST in h.states[1].Keys - h.states[0].Keys;
  }

  // ---- The same, hidden in the list of changed properties ----

  const MID: Object := map[P := TWO, Q := ONE]
  const LAST: Object := map[P := TWO, Q := TWO]

  /** The entry of a commit that writes the record again. */
  ghost predicate LogsWrite(s: Store, n: nat, o: Object, o': Object) {
    && Names(s, ITEM, n)
    && s[Key.Log(n)].entry.types[ITEM] ==
         TypeEntry({}, {FIRST}, {}, Some(VisibleDiff(ITEMS.types[ITEM], First(o), First(o'))))
  }

  lemma WriteLogged(s: Store, s': Store, o: Object, o': Object, n: nat)
    requires Bounded(s) && n == Sequence(s) + 1 && Committed(ITEMS, s, Writing(Some(First(o)), o'), {}, s')
    ensures LogsWrite(s', n, o, o')
  {
    CommitLogged(ITEMS, s, Writing(Some(First(o)), o'), {}, s', ITEM);
    OneUpdate(Writing(Some(First(o)), o'), First(o), First(o'));
  }

  lemma OneUpdate(staged: Staging, x: Object, y: Object)
    requires staged == map[RecKey(ITEM, FIRST) := Staged(Some(x), Some(y), false, false)]
    ensures TouchesType(staged, ITEM) && ChangeOf(staged, ITEM) == Change({}, {FIRST}, {})
    ensures PropsChanged(ITEMS, staged, ITEM) == VisibleDiff(ITEMS.types[ITEM], x, y)
  {
    var k := RecKey(ITEM, FIRST);
    assert k in staged && Updates(staged[k]);
    forall id
      ensures id !in IdsOf(staged, ITEM, Creates) && id !in IdsOf(staged, ITEM, Destroys)
      ensures id in IdsOf(staged, ITEM, Updates) <==> id == FIRST
    {
      InIds(staged, ITEM, id, Creates);
      InIds(staged, ITEM, id, Updates);
      InIds(staged, ITEM, id, Destroys);
    }
  }

  /** Two records that differ in one property only. */
  lemma OneDiff(ty: Type, x: Object, y: Object, p: Name)
    requires x.Keys == y.Keys && p in x && x[p] != y[p] && !Hidden(ty, p)
    requires forall n :: n in x && n != p ==> x[n] == y[n]
    ensures VisibleDiff(ty, x, y) == {p}
  {
    forall n ensures n in VisibleDiff(ty, x, y) <==> n == p {
      assert n in DiffProps(x, y) <==> n in x && RawAt(Some(x), n) != RawAt(Some(y), n);
    }
  }

  lemma Names3()
    ensures P != Q && P != ID && Q != ID && ONE != TWO
  {
    assert P[0] != Q[0] && |ID| == 2 && ONE[0] != TWO[0];
  }

  lemma Parts(o: Object, p: Raw, q: Raw)
    requires o == map[P := p, Q := q]
    ensures First(o).Keys == {P, Q, ID} && First(o)[P] == p && First(o)[Q] == q && First(o)[ID] == Quote(FIRST)
  {
    Names3();
  }

  lemma PShows()
    ensures !Hidden(ITEMS.types[ITEM], P)
  {
  }

  lemma TwoParts(x: Object, y: Object, z: Object)
    requires x.Keys == y.Keys == {P, Q, ID} && Q in z && P != Q && !Hidden(ITEMS.types[ITEM], P)
    requires x[P] != y[P] && x[Q] == y[Q] && x[ID] == y[ID] && x[Q] != z[Q]
    ensures VisibleDiff(ITEMS.types[ITEM], x, y) == {P} && Q in DiffProps(x, z)
  {
    OneDiff(ITEMS.types[ITEM], x, y, P);
  }

  lemma MidDiff()
    ensures VisibleDiff(ITEMS.types[ITEM], First(OLD), First(MID)) == {P}
    ensures Q in DiffProps(First(OLD), First(LAST))
  {
    Names3();
    Parts(OLD, ONE, ONE);
    Parts(MID, TWO, ONE);
    Parts(LAST, TWO, TWO);
    PShows();
    TwoParts(First(OLD), First(MID), First(LAST));
  }

  lemma PropsHistory(run: seq<Store>, x: Object, y: Object, z: Object) returns (h: History)
    requires |run| == 4 && IsRun(ITEMS, run) && Sequence(run[1]) == 1 && Sequence(run[2]) == 2 && Sequence(run[3]) == 3
    requires VisibleTable(ITEMS, run[1], ITEM) == map[FIRST := x]
    requires VisibleTable(ITEMS, run[2], ITEM) == map[FIRST := y]
    requires VisibleTable(ITEMS, run[3], ITEM) == map[FIRST := z]
    ensures IsHistory(ITEMS, run, ITEM, h) && ThreeVersions(h, x, y, z)
  {
    h := RunHasHistory(ITEMS, run, ITEM);
    TableAt(run, h, 1);
    TableAt(run, h, 2);
    TableAt(run, h, 3);
  }

  /** Commits 1, 2 and 3 leave the record as `x`, `y` and `z`. */
  ghost predicate ThreeVersions(h: History, x: Object, y: Object, z: Object) {
    && |h.states| == 4
    && h.states[1] == map[FIRST := x] && h.states[2] == map[FIRST := y] && h.states[3] == map[FIRST := z]
  }

  lemma PropsSeen(run: seq<Store>, entry: LogEntry)
    requires |run| == 4 && IsRun(ITEMS, run) && Names(run[2], ITEM, 2) && run[2][Key.Log(2)].entry == entry
    requires Sequence(run[2]) == 2 && LogFloor(run[2]) == 0 && StateOf(run[3], ITEM) == 3
    ensures SeenIn(run, ITEM, 1, Moments(2, 2, [2, 2], 2, 3), ChangesReads(2, 0, [LogRow(2, entry)], 0, 3))
  {
    var at: seq<nat>, rows := [2, 2], [LogRow(2, entry)];
    LogAt(run[2], 2);
    assert NextEntry(run[at[0]], Cursor(2, rows, 0), rows[0]);
    assert RowRead(run, at, 2, rows, 0);
    forall n | n in StoreLog(run[2]) ensures n < 3 { EntryWithin(ITEMS, run, 2, n); }
  }

  /** A call with no page limit and nothing trimmed is answered in one page. */
  method OnePage(seen: ChangesReads, since: nat, ghost run: seq<Store>, ghost h: History, ghost m: Moments)
      returns (page: ChangeSet)
    requires IsHistory(ITEMS, run, ITEM, h) && SeenIn(run, ITEM, since, m, seen) && !Refused(seen, since)
    ensures !page.hasMore && page.newState == StateOf(run[m.stateAt], ITEM)
    ensures NetPage(h, since, Sequence(run[End(m)]), page)
    ensures page.updatedProps == NetProps(StoreLog(run[End(m)]), ITEM, since, Sequence(run[End(m)]))
  {
    var r := ChangesInRun(seen, ITEM, since, 0, ITEMS, run, h, m);
    page := r.value;
  }

  /** What the page says of properties. */
  lemma PropsFolded(log: map<nat, LogEntry>, te: TypeEntry)
    requires 2 in log && ITEM in log[2].types && log[2].types[ITEM] == te
    requires te.created == {} && te.updated != {} && te.updatedProps.Some?
    ensures NetProps(log, ITEM, 1, 2) == te.updatedProps
  {
    assert NetProps(log, ITEM, 1, 1) == Some({});
    assert !Returns(log, ITEM, 1, 2);
    assert {} + te.updatedProps.value == te.updatedProps.value;
  }

  lemma PropsLeftOut(h: History, page: ChangeSet, x: Object, y: Object, z: Object, p: Name, q: Name)
    requires Legal(h) && ThreeVersions(h, x, y, z) && NetPage(h, 1, 2, page) && FIRST in h.entries[1].updated
    requires page.updatedProps == Some({p}) && q in DiffProps(x, z) && p != q
    ensures page.updated == {FIRST} && NetPage(h, 1, 3, page) && !PropsCover(h, 1, 3, page)
  {
    assert Touched(h, 1, 2) == Touched(h, 1, 1) + h.entries[1].All();
    TouchedSplit(h, 1, 2, 3);
    assert NetUpdated(h, 1, 2) == {FIRST} && NetUpdated(h, 1, 3) == {FIRST};
    assert FIRST in h.states[1] && FIRST in h.states[3];
  }

  lemma PropsEntry(run: seq<Store>, h: History)
    requires |run| == 4 && IsHistory(ITEMS, run, ITEM, h) && Sequence(run[2]) == 2 && LogFloor(run[2]) == 0
    requires Names(run[2], ITEM, 2) && FIRST in run[2][Key.Log(2)].entry.types[ITEM].updated
    ensures |h.entries| >= 2 && FIRST in h.entries[1].updated
  {
    assert Recorded(ITEMS, run[2], ITEM, h);
    assert EntryRecorded(run[2], ITEM, h, 2);
  }

  /** Write the record again. */
  method WriteAgain(db: Db, o': Object, ghost run: seq<Store>, ghost o: Object)
    requires WroteLast(run, o) && run[|run| - 1] == db.store && o'.Keys <= {P, Q} && AllChecked(ITEMS, db.store)
    modifies db
    ensures AllChecked(ITEMS, db.store)
    ensures WroteLast(run + [db.store], o') && LogsWrite(db.store, |run|, o, o')
  {
    ghost var s := db.store;
    WriteItem(db, o', Some(First(o)));
    AgainLogged(run, o, s, db.store, o');
    WroteNext(run, o, s, db.store, o');
  }

  lemma AgainLogged(run: seq<Store>, o: Object, before: Store, s: Store, o': Object)
    requires WroteLast(run, o) && before == run[|run| - 1]
    requires Committed(ITEMS, before, Writing(Some(First(o)), o'), {}, s)
    ensures LogsWrite(s, |run|, o, o')
  {
    LastBounded(run, before);
    WriteLogged(before, s, o, o', |run|);
  }

  lemma LastBounded(run: seq<Store>, s: Store)
    requires IsRun(ITEMS, run) && s == run[|run| - 1]
    ensures Bounded(s)
  {
    FloorTellsTruth(ITEMS, run, |run| - 1, |run| - 1);
  }

  /** Commits 1, 2 and 3 write the record as `x`, `y` and `z`. */
  ghost predicate ThreeWrites(run: seq<Store>, x: Object, y: Object, z: Object) {
    && |run| == 4 && WroteLast(run[..2], x) && WroteLast(run[..3], y) && WroteLast(run, z)
    && LogsWrite(run[2], 2, x, y)
  }

  lemma ThreeRuns(run: seq<Store>, x: Object, y: Object, z: Object, s1: Store, s2: Store, s3: Store)
    requires WroteLast([EMPTY] + [s1], x) && WroteLast([EMPTY] + [s1] + [s2], y)
    requires WroteLast(run, z) && LogsWrite(s2, 2, x, y)
    requires run == [EMPTY] + [s1] + [s2] + [s3]
    ensures ThreeWrites(run, x, y, z) && run[2] == s2
  {
    assert run[..2] == [EMPTY] + [s1] && run[..3] == [EMPTY] + [s1] + [s2];
  }

  method WriteThree(x: Object, y: Object, z: Object) returns (ghost run: seq<Store>, entry: LogEntry)
    requires x.Keys <= {P, Q} && y.Keys <= {P, Q} && z.Keys <= {P, Q}
    ensures ThreeWrites(run, x, y, z) && run[2][Key.Log(2)].entry == entry
  {
    var db := WriteOne(x);
    ghost var s1 := db.store;
    WriteAgain(db, y, [EMPTY] + [s1], x);
    var s2 := db.store;
    entry := s2[Key.Log(2)].entry;
    WriteAgain(db, z, [EMPTY] + [s1] + [s2], y);
    run := [EMPTY] + [s1] + [s2] + [db.store];
    ThreeRuns(run, x, y, z, s1, s2, db.store);
  }

  method WriteOne(x: Object) returns (db: Db)
    requires x.Keys <= {P, Q}
    ensures fresh(db) && AllChecked(ITEMS, db.store) && WroteLast([EMPTY] + [db.store], x)
  {
    EmptyRun();
    db := new Db();
    WriteItem(db, x, None);
    WroteFirst(db.store, x);
  }

  lemma ThreeTables(run: seq<Store>, x: Object, y: Object, z: Object) returns (h: History)
    requires ThreeWrites(run, x, y, z)
    ensures IsHistory(ITEMS, run, ITEM, h) && ThreeVersions(h, First(x), First(y), First(z))
    ensures |h.entries| == 3 && FIRST in h.entries[1].updated
    ensures Sequence(run[2]) == 2 && LogFloor(run[2]) == 0 && StateOf(run[3], ITEM) == 3
  {
    assert run[..2][1] == run[1] && run[..3][2] == run[2];
    h := PropsHistory(run, First(x), First(y), First(z));
    PropsEntry(run, h);
  }

  lemma PropsSaid(s: Store, x: Object, y: Object, p: Name)
    requires LogsWrite(s, 2, x, y) && VisibleDiff(ITEMS.types[ITEM], First(x), First(y)) == {p}
    ensures NetProps(StoreLog(s), ITEM, 1, 2) == Some({p})
  {
    LogAt(s, 2);
    PropsFolded(StoreLog(s), s[Key.Log(2)].entry.types[ITEM]);
  }

  /** One commit changes P, the scan runs, another changes Q, the state is read. The page
      says that of the updated record only P may have changed, under a state in which Q
      has changed too. */
  method LatePropsMissed() returns (page: ChangeSet, ghost run: seq<Store>, ghost h: History)
    ensures IsHistory(ITEMS, run, ITEM, h) && |h.states| == 4
    ensures !page.hasMore && page.newState == 3 && page.updated == {FIRST} && page.updatedProps == Some({P})
    ensures NetPage(h, 1, 3, page) && !PropsCover(h, 1, 3, page)
  {
    var entry;
    run, entry := WriteThree(OLD, MID, LAST);
    h := ThreeTables(run, OLD, MID, LAST);
    PropsSeen(run, entry);
    page := OnePage(ChangesReads(2, 0, [LogRow(2, entry)], 0, 3), 1, run, h, Moments(2, 2, [2, 2], 2, 3));
    MidDiff();
    Names3();
    PropsSaid(run[2], OLD, MID, P);
    PropsLeftOut(h, page, First(OLD), First(MID), First(LAST), P, Q);
  }
}
