/** Reading the change log (core/objectdb: Changes, ChangedSince; sections 5.2 and 5.6
    of RFC 8620): coalescing many commits into one net effect per record, in pages or
    in one piece. The backend reads are parameters, so a call may see each of them at
    its own moment. */
module ChangeLog {
  import opened Options
  import opened ByteOrder
  import opened Records
  import opened Lists
  import opened Store
  import opened Results
  import opened History
  import opened Schema

  type Log = map<nat, LogEntry>

  datatype LogRow = LogRow(seqNo: nat, entry: LogEntry)

  /** `rows` is a scan of the log from sequence `from` on, in key order. */
  ghost predicate IsScan(log: Log, from: nat, rows: seq<LogRow>) {
    && (forall i, j :: 0 <= i < j < |rows| ==> rows[i].seqNo < rows[j].seqNo)
    && (forall i :: 0 <= i < |rows| ==>
      from <= rows[i].seqNo && rows[i].seqNo in log && log[rows[i].seqNo] == rows[i].entry)
    && (forall n :: n in log && from <= n ==> exists i :: 0 <= i < |rows| && rows[i].seqNo == n)
  }

  // ---- Coalescing, for one id ----

  datatype Disp = Created | Updated | Destroyed

  /** The net disposition after one more change; None: nothing to report. */
  function Coalesce(prev: Option<Disp>, next: Disp): Option<Disp> {
    if prev.None? then Some(next)
    else if prev.value.Created? && next.Updated? then Some(Created)
    else if prev.value.Created? && next.Destroyed? then None
    else if prev.value.Updated? && next.Destroyed? then Some(Destroyed)
    else if prev.value.Destroyed? && next.Created? then Some(Updated)
    else Some(next)
  }

  /** One log entry's changes to one id: created, then updated, then destroyed. */
  function ApplyEntry(prev: Option<Disp>, te: TypeEntry, id: Id): Option<Disp> {
    var a := if id in te.created then Coalesce(prev, Created) else prev;
    var b := if id in te.updated then Coalesce(a, Updated) else a;
    if id in te.destroyed then Coalesce(b, Destroyed) else b
  }

  /** The disposition of an id over the type's entries in (a, b]. */
  function NetDisp(log: Log, t: Name, a: nat, b: nat, id: Id): Option<Disp>
    requires a <= b
  {
    if a == b then None
    else if b in log && t in log[b].types then ApplyEntry(NetDisp(log, t, a, b - 1, id), log[b].types[t], id)
    else NetDisp(log, t, a, b - 1, id)
  }

  /** The properties updates in (a, b] may have changed; None when an entry does not
      say, or a destroyed id came back. */
  function NetProps(log: Log, t: Name, a: nat, b: nat): Option<set<Name>>
    requires a <= b
  {
    if a == b then Some({})
    else if !(b in log && t in log[b].types) then NetProps(log, t, a, b - 1)
    else AddProps(NetProps(log, t, a, b - 1), log[b].types[t], Returns(log, t, a, b))
  }

  function AddProps(props: Option<set<Name>>, te: TypeEntry, cameBack: bool): Option<set<Name>> {
    if props.None? || cameBack then None
    else if te.updated == {} then props
    else if te.updatedProps.None? then None
    else Some(props.value + te.updatedProps.value)
  }

  /** Entry b creates an id that was destroyed earlier in the window. */
  predicate Returns(log: Log, t: Name, a: nat, b: nat)
    requires a < b && b in log && t in log[b].types
  {
    exists id :: id in log[b].types[t].created && NetDisp(log, t, a, b - 1, id) == Some(Destroyed)
  }

  lemma {:induction false} QuietGap(log: Log, t: Name, a: nat, b: nat, c: nat, id: Id)
    requires a <= b <= c && forall n :: b < n <= c ==> !(n in log && t in log[n].types)
    ensures NetDisp(log, t, a, c, id) == NetDisp(log, t, a, b, id)
    ensures NetProps(log, t, a, c) == NetProps(log, t, a, b)
  {
    if b < c { QuietGap(log, t, a, b, c - 1, id); }
  }

  /** The entry says what its updates changed, if it has any, and brings nothing back. */
  ghost predicate Tells(log: Log, t: Name, a: nat, n: nat) {
    a < n && n in log && t in log[n].types ==>
      && (log[n].types[t].updated != {} ==> log[n].types[t].updatedProps.Some?)
      && forall id :: id in log[n].types[t].created ==> NetDisp(log, t, a, n - 1, id) != Some(Destroyed)
  }

  /** The entry lists the property as changed by an update. */
  ghost predicate ListsProp(log: Log, t: Name, n: nat, p: Name) {
    && n in log && t in log[n].types && log[n].types[t].updated != {}
    && log[n].types[t].updatedProps.Some? && p in log[n].types[t].updatedProps.value
  }

  /** The properties of a window are known exactly if each of its entries tells, and then
      they are those its entries list. */
  lemma {:induction false} PropsOfWindow(log: Log, t: Name, a: nat, b: nat)
    requires a <= b
    ensures NetProps(log, t, a, b).Some? <==> forall n: nat :: a < n <= b ==> Tells(log, t, a, n)
    ensures NetProps(log, t, a, b).Some? ==> forall p :: p in NetProps(log, t, a, b).value <==>
      exists n: nat :: a < n <= b && ListsProp(log, t, n, p)
  {
    if a < b {
      PropsOfWindow(log, t, a, b - 1);
      if b in log && t in log[b].types {
        assert Returns(log, t, a, b) <==>
          exists id :: id in log[b].types[t].created && NetDisp(log, t, a, b - 1, id) == Some(Destroyed);
      }
      assert NetProps(log, t, a, b).Some? <==> NetProps(log, t, a, b - 1).Some? && Tells(log, t, a, b);
      if NetProps(log, t, a, b).Some? {
        forall p ensures p in NetProps(log, t, a, b).value <==> exists n: nat :: a < n <= b && ListsProp(log, t, n, p) {
          assert p in NetProps(log, t, a, b).value <==>
            p in NetProps(log, t, a, b - 1).value || ListsProp(log, t, b, p);
        }
      }
    }
  }

  // ---- Changes ----

  datatype ChangeSet = ChangeSet(hasMore: bool, newState: nat, created: set<Id>, updated: set<Id>, destroyed: set<Id>,
                                 updatedProps: Option<set<Name>>)

  function DispAt(disp: map<Id, Disp>, id: Id): Option<Disp> { if id in disp then Some(disp[id]) else None }

  function SetDisp(disp: map<Id, Disp>, id: Id, d: Option<Disp>): (r: map<Id, Disp>)
    ensures forall x :: DispAt(r, x) == if x == id then d else DispAt(disp, x)
    ensures |r| <= |disp| + 1
  {
    assert disp[id := Created].Keys == disp.Keys + {id};
    if d.Some? then assert disp[id := d.value].Keys == disp.Keys + {id}; disp[id := d.value]
    else assert (disp - {id}).Keys <= disp.Keys; FewerKeys(disp, id); disp - {id}
  }

  lemma FewerKeys(disp: map<Id, Disp>, id: Id)
    ensures |disp - {id}| <= |disp|
  {
    assert (disp - {id}).Keys == disp.Keys - {id};
    assert |disp.Keys - {id}| <= |disp.Keys|;
  }

  function CoalesceIf(disp: map<Id, Disp>, ids: set<Id>, next: Disp, id: Id): Option<Disp> {
    if id in ids then Coalesce(DispAt(disp, id), next) else DispAt(disp, id)
  }

  /** Fold one list of an entry into the dispositions. `came` reports a destroyed id
      created again. */
  method ApplyAll(disp: map<Id, Disp>, ids: set<Id>, next: Disp) returns (r: map<Id, Disp>, came: bool)
    ensures forall id :: DispAt(r, id) == CoalesceIf(disp, ids, next, id)
    ensures came <==> CameBack(disp, ids, next)
    ensures |r| <= |disp| + |ids|
  {
    r, came := disp, false;
    var todo := ids;
    ghost var done: set<Id> := {};
    while todo != {}
      invariant done + todo == ids && done !! todo && |r| + |todo| <= |disp| + |ids|
      invariant Coalesced(disp, done, next, r)
      invariant came <==> CameBack(disp, done, next)
    {
      var id :| id in todo;
      var prev := DispAt(r, id);
      CameBackMore(disp, done, next, id);
      CoalescedMore(disp, done, next, r, id);
      if prev == Some(Destroyed) && next.Created? {
        came := true;
      }
      r := SetDisp(r, id, Coalesce(prev, next));
      todo := todo - {id};
      done := done + {id};
    }
    assert done == ids;
  }

  ghost predicate Coalesced(disp: map<Id, Disp>, done: set<Id>, next: Disp, r: map<Id, Disp>) {
    forall id :: DispAt(r, id) == CoalesceIf(disp, done, next, id)
  }

  lemma CoalescedMore(disp: map<Id, Disp>, done: set<Id>, next: Disp, r: map<Id, Disp>, id: Id)
    requires Coalesced(disp, done, next, r) && id !in done
    ensures DispAt(r, id) == DispAt(disp, id)
    ensures Coalesced(disp, done + {id}, next, SetDisp(r, id, Coalesce(DispAt(r, id), next)))
  {
    assert DispAt(r, id) == CoalesceIf(disp, done, next, id);
  }

  ghost predicate CameBack(disp: map<Id, Disp>, ids: set<Id>, next: Disp) {
    next.Created? && exists id :: id in ids && DispAt(disp, id) == Some(Destroyed)
  }

  lemma CameBackMore(disp: map<Id, Disp>, ids: set<Id>, next: Disp, id: Id)
    ensures CameBack(disp, ids + {id}, next) <==>
      CameBack(disp, ids, next) || (next.Created? && DispAt(disp, id) == Some(Destroyed))
  {
    if next.Created? && DispAt(disp, id) == Some(Destroyed) { assert id in ids + {id}; }
  }

  function Size(te: TypeEntry): nat { |te.created| + |te.updated| + |te.destroyed| }

  /** An entry logs an id at most once. */
  ghost predicate Disjoint(te: TypeEntry) {
    te.created !! te.updated && te.created !! te.destroyed && te.updated !! te.destroyed
  }

  ghost predicate LogOk(log: Log, t: Name) { forall n :: n in log && t in log[n].types ==> Disjoint(log[n].types[t]) }

  method ConsumeEntry(disp: map<Id, Disp>, te: TypeEntry) returns (r: map<Id, Disp>, came: bool)
    requires Disjoint(te)
    ensures forall id :: DispAt(r, id) == ApplyEntry(DispAt(disp, id), te, id)
    ensures came <==> exists id :: id in te.created && DispAt(disp, id) == Some(Destroyed)
    ensures |r| <= |disp| + Size(te)
  {
    var b;
    r, came := ApplyAll(disp, te.created, Created);
    r, b := ApplyAll(r, te.updated, Updated);
    r, b := ApplyAll(r, te.destroyed, Destroyed);
  }

  function WithDisp(disp: map<Id, Disp>, d: Disp): set<Id> { set id | id in disp && disp[id] == d }

  /** The page describes exactly the net effect of the type's entries in (since, upTo]. */
  ghost predicate Describes(c: ChangeSet, log: Log, t: Name, since: nat, upTo: nat) {
    && since <= upTo
    && (forall id :: id in c.created <==> NetDisp(log, t, since, upTo, id) == Some(Created))
    && (forall id :: id in c.updated <==> NetDisp(log, t, since, upTo, id) == Some(Updated))
    && (forall id :: id in c.destroyed <==> NetDisp(log, t, since, upTo, id) == Some(Destroyed))
    && c.updatedProps == NetProps(log, t, since, upTo)
  }

  /** The reads of one call: the sequence, the floor, the scan, the floor again, the
      type's state. `log` is the log as it was when it was scanned, `last` a bound on
      its sequence numbers. */
  datatype ChangesReads = ChangesReads(global: nat, floor: nat, rows: seq<LogRow>, floorAfter: nat, state: nat)

  /** `since` is refused outright: never issued, or already trimmed away. */
  predicate Refused(r: ChangesReads, since: nat) {
    since > r.global || since + 1 < r.floor || since + 1 < r.floorAfter
  }

  /** An entry that alone exceeds what the client accepts. */
  ghost predicate Oversized(log: Log, t: Name, since: nat, maxChanges: nat) {
    exists n :: n in log && n > since && t in log[n].types && maxChanges > 0 && Size(log[n].types[t]) > maxChanges
  }

  /** The ids of which the entries in (a, b] leave something to report. */
  ghost function Gathered(log: Log, t: Name, a: nat, b: nat): set<Id>
    requires a <= b
  {
    if a == b then {}
    else if b in log && t in log[b].types
    then set id | id in Gathered(log, t, a, b - 1) + AllIds(log[b].types[t]) && NetDisp(log, t, a, b, id).Some?
    else Gathered(log, t, a, b - 1)
  }

  lemma {:induction false} GatheredIs(log: Log, t: Name, a: nat, b: nat, id: Id)
    requires a <= b
    ensures id in Gathered(log, t, a, b) <==> NetDisp(log, t, a, b, id).Some?
  {
    if a < b { GatheredIs(log, t, a, b - 1, id); }
  }

  /** With this entry of the type, consumed whole, the page might exceed the limit. */
  ghost predicate Overflows(log: Log, t: Name, since: nat, maxChanges: nat, n: nat) {
    && since < n && n in log && t in log[n].types
    && var te := log[n].types[t];
       0 < maxChanges < |Gathered(log, t, since, n - 1)| + |te.created| + |te.updated| + |te.destroyed|
  }

  /** Where the page ends. */
  ghost predicate FirstOverflow(log: Log, t: Name, since: nat, maxChanges: nat, n: nat) {
    Overflows(log, t, since, maxChanges, n) && forall m :: since < m < n ==> !Overflows(log, t, since, maxChanges, m)
  }

  /** The page ends before there is anything to report. */
  ghost predicate Stuck(log: Log, t: Name, since: nat, maxChanges: nat) {
    exists n: nat :: FirstOverflow(log, t, since, maxChanges, n) && Gathered(log, t, since, n - 1) == {}
  }

  /** `state` is the type's last entry before the one that does not fit any more. */
  ghost predicate LastFitting(log: Log, t: Name, since: nat, maxChanges: nat, state: nat) {
    && since < state && state in log && t in log[state].types
    && exists n: nat :: state < n && FirstOverflow(log, t, since, maxChanges, n) && Quiet(log, t, state, n - 1)
  }

  /** The dispositions and properties gathered are those of (since, cursor]. */
  ghost predicate Folded(log: Log, t: Name, since: nat, cursor: nat, disp: map<Id, Disp>, props: Option<set<Name>>) {
    && since <= cursor
    && (forall id :: DispAt(disp, id) == NetDisp(log, t, since, cursor, id))
    && props == NetProps(log, t, since, cursor)
  }

  ghost predicate Quiet(log: Log, t: Name, a: nat, b: nat) {
    forall n :: a < n <= b ==> !(n in log && t in log[n].types)
  }

  lemma FoldedGap(log: Log, t: Name, since: nat, a: nat, b: nat, disp: map<Id, Disp>, props: Option<set<Name>>)
    requires since <= a <= b && Quiet(log, t, a, b)
    ensures Folded(log, t, since, a, disp, props) <==> Folded(log, t, since, b, disp, props)
  {
    forall id ensures NetDisp(log, t, since, b, id) == NetDisp(log, t, since, a, id) {
      QuietGap(log, t, since, a, b, id);
    }
    QuietGap(log, t, since, a, b, []);
  }

  lemma FoldedKeys(log: Log, t: Name, since: nat, cursor: nat, disp: map<Id, Disp>, props: Option<set<Name>>)
    requires Folded(log, t, since, cursor, disp, props)
    ensures disp.Keys == Gathered(log, t, since, cursor)
  {
    forall id ensures id in disp <==> id in Gathered(log, t, since, cursor) {
      GatheredIs(log, t, since, cursor, id);
      assert DispAt(disp, id) == NetDisp(log, t, since, cursor, id);
    }
  }

  method ConsumeRow(disp: map<Id, Disp>, props: Option<set<Name>>, te: TypeEntry, ghost log: Log, ghost t: Name,
          ghost since: nat, ghost n: nat)
      returns (disp': map<Id, Disp>, props': Option<set<Name>>)
    requires since < n && n in log && t in log[n].types && log[n].types[t] == te && Disjoint(te)
    requires Folded(log, t, since, n - 1, disp, props)
    ensures Folded(log, t, since, n, disp', props') && |disp'| <= |disp| + Size(te)
  {
    var came;
    disp', came := ConsumeEntry(disp, te);
    props' := AddProps(props, te, came);
    assert came <==> Returns(log, t, since, n) by {
      assert forall id :: DispAt(disp, id) == NetDisp(log, t, since, n - 1, id);
    }
  }

  /** The walk over the scanned rows: the entries up to `cursor` are folded, and unless
      the walk stopped for the next page nothing is left after it. */
  method Walk(rows: seq<LogRow>, t: Name, since: nat, maxChanges: nat, ghost log: Log)
      returns (ok: bool, hasMore: bool, lastConsumed: nat, disp: map<Id, Disp>, props: Option<set<Name>>,
              ghost cursor: nat)
    requires IsScan(log, since + 1, rows) && LogOk(log, t)
    ensures !ok ==> Stuck(log, t, since, maxChanges)
    ensures ok && hasMore ==> LastFitting(log, t, since, maxChanges, lastConsumed) && !Stuck(log, t, since, maxChanges)
    ensures ok && !hasMore ==> forall n :: !Overflows(log, t, since, maxChanges, n)
    ensures ok ==>
      Folded(log, t, since, cursor, disp, props) && lastConsumed <= cursor && (cursor > since ==> cursor in log)
    ensures ok && hasMore ==> maxChanges > 0 && since < lastConsumed && Quiet(log, t, lastConsumed, cursor)
    ensures ok && !hasMore ==> forall n :: n in log ==> n <= cursor || n <= since
    ensures ok && maxChanges > 0 ==> |disp| <= maxChanges
  {
    disp, props, lastConsumed, hasMore, cursor := map[], Some({}), since, false, since;
    var i := 0;
    while i < |rows|
      invariant 0 <= i <= |rows| && cursor == (if i == 0 then since else rows[i - 1].seqNo)
      invariant (cursor > since ==> cursor in log)
      invariant WalkedTo(log, t, since, cursor, lastConsumed, disp, props, maxChanges)
    {
      NextRow(log, since, rows, i, cursor);
      var stop, disp', props', last' := WalkRow(rows[i], t, since, maxChanges, lastConsumed, disp, props, log, cursor);
      if stop {
        StopsHere(log, t, since, maxChanges, cursor, lastConsumed, disp, props, rows[i].seqNo);
        return disp != map[], disp != map[], lastConsumed, disp, props, cursor;
      }
      disp, props, lastConsumed, cursor := disp', props', last', rows[i].seqNo;
      i := i + 1;
    }
    NoRowsAfter(log, since, rows, cursor);
    ok := true;
  }

  /** One row: passed over, consumed whole, or the reason to stop. */
  method WalkRow(row: LogRow, t: Name, since: nat, maxChanges: nat, last: nat, disp: map<Id, Disp>,
          props: Option<set<Name>>, ghost log: Log, ghost cursor: nat)
      returns (stop: bool, disp': map<Id, Disp>, props': Option<set<Name>>, last': nat)
    requires WalkedTo(log, t, since, cursor, last, disp, props, maxChanges) && LogOk(log, t)
    requires cursor < row.seqNo && row.seqNo in log && log[row.seqNo] == row.entry && Gap(log, cursor, row.seqNo)
    ensures stop <==> t in row.entry.types && maxChanges > 0 && |disp| + Size(row.entry.types[t]) > maxChanges
    ensures stop ==> Overflows(log, t, since, maxChanges, row.seqNo)
    ensures !stop ==> WalkedTo(log, t, since, row.seqNo, last', disp', props', maxChanges)
  {
    var n := row.seqNo;
    stop, disp', props', last' := false, disp, props, last;
    FoldedGap(log, t, since, cursor, n - 1, disp, props);
    FoldedKeys(log, t, since, n - 1, disp, props);
    if t !in row.entry.types {
      PassedOver(log, t, since, cursor, n, last, disp, props, maxChanges);
      if disp == map[] { last' := n; }
      return;
    }
    var te := row.entry.types[t];
    if maxChanges > 0 && |disp| + Size(te) > maxChanges {
      stop := true;
      return;
    }
    disp', props' := ConsumeRow(disp, props, te, log, t, since, n);
    last' := n;
  }

  /** Nothing lies strictly between two sequence numbers. */
  ghost predicate Gap(log: Log, a: nat, b: nat) { forall n :: a < n < b ==> n !in log }

  /** The entries up to `cursor` are folded; what was consumed last is where the page
      would end. */
  ghost predicate WalkedTo(log: Log, t: Name, since: nat, cursor: nat, last: nat, disp: map<Id, Disp>,
          props: Option<set<Name>>, maxChanges: nat) {
    && since <= last <= cursor && Folded(log, t, since, cursor, disp, props)
    && (maxChanges > 0 ==> |disp| <= maxChanges)
    && (disp != map[] ==> since < last && last in log && t in log[last].types && Quiet(log, t, last, cursor))
    && (forall m :: since < m <= cursor ==> !Overflows(log, t, since, maxChanges, m))
  }

  lemma StopsHere(log: Log, t: Name, since: nat, maxChanges: nat, cursor: nat, last: nat, disp: map<Id, Disp>,
          props: Option<set<Name>>, n: nat)
    requires WalkedTo(log, t, since, cursor, last, disp, props, maxChanges) && cursor < n && Gap(log, cursor, n)
    requires Overflows(log, t, since, maxChanges, n)
    ensures FirstOverflow(log, t, since, maxChanges, n)
    ensures disp == map[] ==> Stuck(log, t, since, maxChanges)
    ensures disp != map[] ==> LastFitting(log, t, since, maxChanges, last) && !Stuck(log, t, since, maxChanges)
  {
    FoldedGap(log, t, since, cursor, n - 1, disp, props);
    FoldedKeys(log, t, since, n - 1, disp, props);
    if disp == map[] {
      assert Gathered(log, t, since, n - 1) == {};
    } else {
      forall m | FirstOverflow(log, t, since, maxChanges, m) ensures m == n { }
    }
  }

  /** A stuck page is so because of one oversized entry. */
  lemma StuckOversized(log: Log, t: Name, since: nat, maxChanges: nat)
    requires Stuck(log, t, since, maxChanges)
    ensures Oversized(log, t, since, maxChanges)
  {
    var n: nat :| FirstOverflow(log, t, since, maxChanges, n) && Gathered(log, t, since, n - 1) == {};
    assert n in log && Size(log[n].types[t]) > maxChanges;
  }

  lemma PassedOver(log: Log, t: Name, since: nat, cursor: nat, n: nat, last: nat, disp: map<Id, Disp>,
          props: Option<set<Name>>, maxChanges: nat)
    requires WalkedTo(log, t, since, cursor, last, disp, props, maxChanges) && cursor < n && Quiet(log, t, cursor, n)
    ensures WalkedTo(log, t, since, n, if disp == map[] then n else last, disp, props, maxChanges)
  {
    FoldedGap(log, t, since, cursor, n, disp, props);
  }

  /** Section 5.2: coalesce, page by whole entries, report the cursor or the state. */
  method Changes(seen: ChangesReads, t: Name, since: nat, maxChanges: nat, ghost log: Log, ghost last: nat)
      returns (r: Result<ChangeSet>)
    requires IsScan(log, since + 1, seen.rows) && LogOk(log, t)
    requires since <= last && forall n :: n in log ==> n <= last
    ensures r.Err? <==> Refused(seen, since) || Stuck(log, t, since, maxChanges)
    ensures r.Err? ==> Refused(seen, since) || Oversized(log, t, since, maxChanges)
    ensures r.Ok? && r.value.hasMore ==> LastFitting(log, t, since, maxChanges, r.value.newState)
    ensures r.Ok? && !r.value.hasMore ==> forall n :: !Overflows(log, t, since, maxChanges, n)
    ensures r.Ok? && r.value.hasMore ==>
      since < r.value.newState <= last && Describes(r.value, log, t, since, r.value.newState)
    ensures r.Ok? && r.value.hasMore ==> maxChanges > 0
    ensures r.Ok? && !r.value.hasMore ==> r.value.newState == seen.state && Describes(r.value, log, t, since, last)
    ensures r.Ok? && maxChanges > 0 ==> |r.value.created| + |r.value.updated| + |r.value.destroyed| <= maxChanges
  {
    if since > seen.global || since + 1 < seen.floor {
      return Err;
    }
    var ok, hasMore, lastConsumed, disp, props;
    ghost var cursor;
    ok, hasMore, lastConsumed, disp, props, cursor := Walk(seen.rows, t, since, maxChanges, log);
    if !ok || since + 1 < seen.floorAfter {
      if !ok { StuckOversized(log, t, since, maxChanges); }
      return Err;
    }
    ghost var upTo := if hasMore then lastConsumed else last;
    if hasMore {
      FoldedGap(log, t, since, lastConsumed, cursor, disp, props);
    } else {
      FoldedGap(log, t, since, cursor, last, disp, props);
    }
    SplitSize(disp);
    var page := ChangeSet(hasMore, if hasMore then lastConsumed else seen.state,
                          WithDisp(disp, Created), WithDisp(disp, Updated), WithDisp(disp, Destroyed), props);
    PageDescribes(log, t, since, upTo, disp, page);
    r := Ok(page);
  }

  lemma PageDescribes(log: Log, t: Name, since: nat, upTo: nat, disp: map<Id, Disp>, page: ChangeSet)
    requires Folded(log, t, since, upTo, disp, page.updatedProps)
    requires page.created == WithDisp(disp, Created) && page.updated == WithDisp(disp, Updated)
    requires page.destroyed == WithDisp(disp, Destroyed)
    ensures Describes(page, log, t, since, upTo)
  {
    assert forall id, d :: id in WithDisp(disp, d) <==> DispAt(disp, id) == Some(d);
  }

  lemma NextRow(log: Log, since: nat, rows: seq<LogRow>, i: nat, cursor: nat)
    requires IsScan(log, since + 1, rows) && i < |rows| && cursor == if i == 0 then since else rows[i - 1].seqNo
    ensures cursor < rows[i].seqNo && rows[i].seqNo in log && log[rows[i].seqNo] == rows[i].entry
    ensures Gap(log, cursor, rows[i].seqNo)
  {
  }

  lemma NoRowsAfter(log: Log, since: nat, rows: seq<LogRow>, cursor: nat)
    requires IsScan(log, since + 1, rows) && cursor == if |rows| == 0 then since else rows[|rows| - 1].seqNo
    ensures forall n :: cursor < n ==> n !in log
  {
  }

  lemma SplitSize(disp: map<Id, Disp>)
    ensures |WithDisp(disp, Created)| + |WithDisp(disp, Updated)| + |WithDisp(disp, Destroyed)| == |disp|
  {
    var c, u, d := WithDisp(disp, Created), WithDisp(disp, Updated), WithDisp(disp, Destroyed);
    assert disp.Keys == c + u + d && c !! u && (c + u) !! d;
    assert |c + u| == |c| + |u|;
  }

  // ---- Replay ----

  /** The log holds what the history did to the type in commits a+1 .. b. */
  ghost predicate LogTells(h: History, log: Log, t: Name, a: nat, b: nat) {
    && Window(h, a, b)
    && (forall n :: a < n <= b ==> (n in log && t in log[n].types <==> h.entries[n - 1].All() != {}))
    && (forall n :: a < n <= b && n in log && t in log[n].types ==>
          Change(log[n].types[t].created, log[n].types[t].updated, log[n].types[t].destroyed) == h.entries[n - 1])
  }

  /** What became of an id that was touched or not, told by the tables at the ends. */
  ghost function FateOf(touched: bool, s: Table, e: Table, id: Id): Option<Disp> {
    if !touched then None
    else if id in s then Some(if id in e then Updated else Destroyed)
    else if id in e then Some(Created)
    else None
  }

  /** What really became of an id over a window. */
  ghost function Fate(h: History, a: nat, b: nat, id: Id): Option<Disp>
    requires Window(h, a, b)
  {
    FateOf(id in Touched(h, a, b), h.states[a], h.states[b], id)
  }

  /** Coalescing is sound and complete: it reports what became of every id, whatever
      was created, changed, destroyed and recreated on the way. */
  lemma {:induction false} CoalescingIsFate(h: History, log: Log, t: Name, a: nat, b: nat, id: Id)
    requires LogTells(h, log, t, a, b)
    ensures NetDisp(log, t, a, b, id) == Fate(h, a, b, id)
  {
    if a < b {
      LogTellsShorter(h, log, t, a, b - 1, b);
      CoalescingIsFate(h, log, t, a, b - 1, id);
      FateStep(h, a, b, id);
      if b in log && t in log[b].types {
        CoalesceStep(h.states[a], h.states[b - 1], h.states[b], log[b].types[t], id, id in Touched(h, a, b - 1));
      }
    }
  }

  lemma FateStep(h: History, a: nat, b: nat, id: Id)
    requires Window(h, a, b) && a < b
    ensures Fate(h, a, b, id) ==
      FateOf(id in Touched(h, a, b - 1) || id in h.entries[b - 1].All(), h.states[a], h.states[b], id)
    ensures Fate(h, a, b - 1, id) == FateOf(id in Touched(h, a, b - 1), h.states[a], h.states[b - 1], id)
    ensures id !in Touched(h, a, b - 1) ==> (id in h.states[a] <==> id in h.states[b - 1])
    ensures LegalStep(h.states[b - 1], h.entries[b - 1], h.states[b])
    ensures id !in h.entries[b - 1].All() ==> (id in h.states[b - 1] <==> id in h.states[b])
  {
    assert LegalStep(h.states[b - 1], h.entries[b - 1], h.states[b]);
    if id !in Touched(h, a, b - 1) { UntouchedSame(h, a, b - 1, id); }
  }

  lemma CoalesceStep(s: Table, m: Table, e: Table, te: TypeEntry, id: Id, touched: bool)
    requires LegalStep(m, Change(te.created, te.updated, te.destroyed), e) && (!touched ==> (id in s <==> id in m))
    ensures ApplyEntry(FateOf(touched, s, m, id), te, id)
         == FateOf(touched || id in Change(te.created, te.updated, te.destroyed).All(), s, e, id)
  {
  }

  /** A page's lists are the set differences of the id sets at its two ends, and the
      surviving ids the log touched in between. */
  lemma PageIsNetChange(h: History, log: Log, t: Name, a: nat, b: nat, c: ChangeSet)
    requires LogTells(h, log, t, a, b) && Describes(c, log, t, a, b)
    ensures c.created == NetCreated(h, a, b) && c.updated == NetUpdated(h, a, b) && c.destroyed == NetDestroyed(h, a, b)
    ensures h.states[a].Keys + c.created - c.destroyed == h.states[b].Keys
  {
    forall id ensures
      && (id in c.created <==> id in NetCreated(h, a, b))
      && (id in c.updated <==> id in NetUpdated(h, a, b))
      && (id in c.destroyed <==> id in NetDestroyed(h, a, b))
    {
      CoalescingIsFate(h, log, t, a, b, id);
      if id !in Touched(h, a, b) { UntouchedSame(h, a, b, id); }
    }
  }

  /** An entry's property list, where it has one, covers what its updates changed. */
  ghost predicate PropsTell(h: History, log: Log, t: Name, a: nat, b: nat)
    requires LogTells(h, log, t, a, b)
  {
    forall n :: a < n <= b && n in log && t in log[n].types ==>
      EntryPropsTell(h.states[n - 1], log[n].types[t], h.states[n])
  }

  ghost predicate EntryPropsTell(before: Table, te: TypeEntry, after: Table) {
    te.updatedProps.Some? ==> forall id :: id in te.updated && id in before && id in after ==>
      DiffProps(before[id], after[id]) <= te.updatedProps.value
  }

  /** Properties reported for a window cover every property in which a surviving
      record differs between its two ends. */
  lemma PropsCoverNet(h: History, log: Log, t: Name, a: nat, b: nat, id: Id)
    requires LogTells(h, log, t, a, b) && PropsTell(h, log, t, a, b)
    requires NetProps(log, t, a, b).Some? && id in h.states[a] && id in h.states[b]
    ensures DiffProps(h.states[a][id], h.states[b][id]) <= NetProps(log, t, a, b).value
  {
    forall n | a < n <= b ensures DiffWithin(h.states[n - 1], h.states[n], id, NetProps(log, t, a, b).value) {
      StepWithin(h, log, t, a, n, b, id);
    }
    DiffsAddUp(h.states, a, b, id, NetProps(log, t, a, b).value);
  }

  /** The record is on both sides of a step that changes nothing outside the properties. */
  ghost predicate DiffWithin(before: Table, after: Table, id: Id, props: set<Name>) {
    id in before && id in after && DiffProps(before[id], after[id]) <= props
  }

  lemma {:induction false} DiffsAddUp(states: seq<Table>, a: nat, b: nat, id: Id, props: set<Name>)
    requires a <= b < |states| && id in states[a]
    requires forall n :: a < n <= b ==> DiffWithin(states[n - 1], states[n], id, props)
    ensures id in states[b] && DiffProps(states[a][id], states[b][id]) <= props
    decreases b
  {
    if a == b {
      assert DiffProps(states[a][id], states[a][id]) == {};
    } else {
      DiffsAddUp(states, a, b - 1, id, props);
      assert DiffWithin(states[b - 1], states[b], id, props);
      DiffTriangle(states[a][id], states[b - 1][id], states[b][id], props);
    }
  }

  lemma StepWithin(h: History, log: Log, t: Name, a: nat, n: nat, b: nat, id: Id)
    requires LogTells(h, log, t, a, b) && PropsTell(h, log, t, a, b) && a < n <= b
    requires NetProps(log, t, a, b).Some? && id in h.states[a] && id in h.states[b]
    ensures DiffWithin(h.states[n - 1], h.states[n], id, NetProps(log, t, a, b).value)
  {
    TellsShorter(h, log, t, a, n, b);
    NetPropsPrefix(log, t, a, n, b);
    Stays(h, log, t, a, n, b, id);
    NeverLeft(h, log, t, a, n, id);
    LastDiffCovered(h, log, t, a, n, id);
    Subset(DiffProps(h.states[n - 1][id], h.states[n][id]), NetProps(log, t, a, n).value, NetProps(log, t, a, b).value);
  }

  lemma Subset(x: set<Name>, y: set<Name>, z: set<Name>)
    requires x <= y <= z
    ensures x <= z
  {
  }

  lemma {:induction false} NetPropsPrefix(log: Log, t: Name, a: nat, n: nat, b: nat)
    requires a <= n <= b && NetProps(log, t, a, b).Some?
    ensures NetProps(log, t, a, n).Some? && NetProps(log, t, a, n).value <= NetProps(log, t, a, b).value
    decreases b
  {
    if n < b {
      NetPropsStep(log, t, a, b);
      NetPropsPrefix(log, t, a, n, b - 1);
      Subset(NetProps(log, t, a, n).value, NetProps(log, t, a, b - 1).value, NetProps(log, t, a, b).value);
    }
  }

  lemma {:induction false} Stays(h: History, log: Log, t: Name, a: nat, n: nat, b: nat, id: Id)
    requires LogTells(h, log, t, a, b) && a <= n <= b
    requires NetProps(log, t, a, b).Some? && id in h.states[a] && id in h.states[b]
    ensures id in h.states[n]
    decreases b - n
  {
    if n < b {
      Stays(h, log, t, a, n + 1, b, id);
      WasThere(h, log, t, a, n + 1, b, id);
    }
  }

  lemma WasThere(h: History, log: Log, t: Name, a: nat, n: nat, b: nat, id: Id)
    requires LogTells(h, log, t, a, b) && a < n <= b
    requires NetProps(log, t, a, b).Some? && id in h.states[a] && id in h.states[n]
    ensures id in h.states[n - 1]
  {
    LogTellsShorter(h, log, t, a, n, b);
    NetPropsPrefix(log, t, a, n, b);
    NeverLeft(h, log, t, a, n, id);
  }

  lemma DiffTriangle(x: Object, y: Object, z: Object, props: set<Name>)
    requires DiffProps(x, y) <= props && DiffProps(y, z) <= props
    ensures DiffProps(x, z) <= props
  {
    forall n | n in DiffProps(x, z) ensures n in props {
      assert n in DiffProps(x, y) || n in DiffProps(y, z);
    }
  }

  lemma NetPropsStep(log: Log, t: Name, a: nat, b: nat)
    requires a < b && NetProps(log, t, a, b).Some?
    ensures NetProps(log, t, a, b - 1).Some? && NetProps(log, t, a, b - 1).value <= NetProps(log, t, a, b).value
    ensures b in log && t in log[b].types ==>
      && (forall id :: id in log[b].types[t].created ==> NetDisp(log, t, a, b - 1, id) != Some(Destroyed))
      && (log[b].types[t].updated != {} ==>
            log[b].types[t].updatedProps.Some? && log[b].types[t].updatedProps.value <= NetProps(log, t, a, b).value)
  {
  }

  /** With the property set known, no id left and came back. */
  lemma NeverLeft(h: History, log: Log, t: Name, a: nat, b: nat, id: Id)
    requires LogTells(h, log, t, a, b) && a < b
    requires NetProps(log, t, a, b).Some? && id in h.states[a] && id in h.states[b]
    ensures id in h.states[b - 1]
  {
    if id !in h.states[b - 1] { LeftAndCame(h, log, t, a, b, id); }
  }

  lemma LeftAndCame(h: History, log: Log, t: Name, a: nat, b: nat, id: Id)
    requires LogTells(h, log, t, a, b) && a < b && id in h.states[a] && id !in h.states[b - 1] && id in h.states[b]
    ensures NetProps(log, t, a, b).None?
  {
    CameNow(h, log, t, a, b, id);
    WentEarlier(h, log, t, a, b, id);
    ReturnUnknown(log, t, a, b, id);
  }

  lemma WentEarlier(h: History, log: Log, t: Name, a: nat, b: nat, id: Id)
    requires LogTells(h, log, t, a, b) && a < b && id in h.states[a] && id !in h.states[b - 1]
    ensures NetDisp(log, t, a, b - 1, id) == Some(Destroyed)
  {
    LogTellsShorter(h, log, t, a, b - 1, b);
    WentBefore(h, log, t, a, b - 1, id);
  }

  lemma ReturnUnknown(log: Log, t: Name, a: nat, b: nat, id: Id)
    requires a < b && b in log && t in log[b].types && id in log[b].types[t].created
    requires NetDisp(log, t, a, b - 1, id) == Some(Destroyed)
    ensures NetProps(log, t, a, b).None?
  {
    assert Returns(log, t, a, b);
  }

  lemma CameNow(h: History, log: Log, t: Name, a: nat, b: nat, id: Id)
    requires LogTells(h, log, t, a, b) && a < b && id !in h.states[b - 1] && id in h.states[b]
    ensures b in log && t in log[b].types && id in log[b].types[t].created
  {
    assert LegalStep(h.states[b - 1], h.entries[b - 1], h.states[b]);
    assert id in h.entries[b - 1].created;
    assert h.entries[b - 1].All() != {};
  }

  lemma WentBefore(h: History, log: Log, t: Name, a: nat, b: nat, id: Id)
    requires LogTells(h, log, t, a, b) && id in h.states[a] && id !in h.states[b]
    ensures NetDisp(log, t, a, b, id) == Some(Destroyed)
  {
    CoalescingIsFate(h, log, t, a, b, id);
    if id !in Touched(h, a, b) { UntouchedSame(h, a, b, id); }
  }

  lemma LogTellsShorter(h: History, log: Log, t: Name, a: nat, n: nat, b: nat)
    requires a <= n <= b && LogTells(h, log, t, a, b)
    ensures LogTells(h, log, t, a, n)
  {
  }

  lemma TellsShorter(h: History, log: Log, t: Name, a: nat, n: nat, b: nat)
    requires a <= n <= b && LogTells(h, log, t, a, b) && PropsTell(h, log, t, a, b)
    ensures LogTells(h, log, t, a, n) && PropsTell(h, log, t, a, n)
  {
  }

  lemma LastDiffCovered(h: History, log: Log, t: Name, a: nat, b: nat, id: Id)
    requires LogTells(h, log, t, a, b) && PropsTell(h, log, t, a, b) && a < b
    requires NetProps(log, t, a, b).Some? && id in h.states[b - 1] && id in h.states[b]
    ensures DiffProps(h.states[b - 1][id], h.states[b][id]) <= NetProps(log, t, a, b).value
  {
    assert LegalStep(h.states[b - 1], h.entries[b - 1], h.states[b]);
    NetPropsStep(log, t, a, b);
    if id in h.entries[b - 1].updated {
      assert EntryPropsTell(h.states[b - 1], log[b].types[t], h.states[b]);
    } else {
      assert h.states[b][id] == h.states[b - 1][id];
    }
  }

  // ---- ChangedSince ----

  /** ChangedSince keeps a mark for ids that came and went inside the window. */
  datatype Mark4 = Net(d: Disp) | Omitted

  function Coalesce4(prev: Option<Mark4>, next: Disp): Mark4 {
    if prev.None? then Net(next)
    else if prev.value.Omitted? then Net(Created)
    else if prev.value.d.Created? && next.Destroyed? then Omitted
    else if prev.value.d.Created? then Net(Created)
    else if prev.value.d.Destroyed? && next.Created? then Net(Updated)
    else Net(next)
  }

  function ApplyEntry4(prev: Option<Mark4>, te: TypeEntry, id: Id): Option<Mark4> {
    var a := if id in te.created then Some(Coalesce4(prev, Created)) else prev;
    var b := if id in te.updated then Some(Coalesce4(a, Updated)) else a;
    if id in te.destroyed then Some(Coalesce4(b, Destroyed)) else b
  }

  function NetMark(log: Log, t: Name, a: nat, b: nat, id: Id): Option<Mark4>
    requires a <= b
  {
    if a == b then None
    else if b in log && t in log[b].types then ApplyEntry4(NetMark(log, t, a, b - 1, id), log[b].types[t], id)
    else NetMark(log, t, a, b - 1, id)
  }

  /** The four-way marks carry the same net effect, and mark exactly the touched ids. */
  lemma {:induction false} MarksAreFate(h: History, log: Log, t: Name, a: nat, b: nat, id: Id)
    requires LogTells(h, log, t, a, b)
    ensures NetMark(log, t, a, b, id)
         == if id !in Touched(h, a, b) then None
            else if Fate(h, a, b, id).Some? then Some(Net(Fate(h, a, b, id).value)) else Some(Omitted)
  {
    if a < b {
      LogTellsShorter(h, log, t, a, b - 1, b);
      MarksAreFate(h, log, t, a, b - 1, id);
      FateStep(h, a, b, id);
      if b in log && t in log[b].types {
        MarkStep(h.states[a], h.states[b - 1], h.states[b], log[b].types[t], id, id in Touched(h, a, b - 1));
      }
    }
  }

  ghost function MarkOf(touched: bool, s: Table, e: Table, id: Id): Option<Mark4> {
    if !touched then None
    else if FateOf(touched, s, e, id).Some? then Some(Net(FateOf(touched, s, e, id).value)) else Some(Omitted)
  }

  lemma MarkStep(s: Table, m: Table, e: Table, te: TypeEntry, id: Id, touched: bool)
    requires LegalStep(m, Change(te.created, te.updated, te.destroyed), e) && (!touched ==> (id in s <==> id in m))
    ensures ApplyEntry4(MarkOf(touched, s, m, id), te, id)
         == MarkOf(touched || id in Change(te.created, te.updated, te.destroyed).All(), s, e, id)
  {
  }

  function MarkAt(byId: map<Id, Mark4>, id: Id): Option<Mark4> { if id in byId then Some(byId[id]) else None }

  function MarkIf(byId: map<Id, Mark4>, ids: set<Id>, next: Disp, id: Id): Option<Mark4> {
    if id in ids then Some(Coalesce4(MarkAt(byId, id), next)) else MarkAt(byId, id)
  }

  function SetMark(byId: map<Id, Mark4>, id: Id, m: Mark4): (r: map<Id, Mark4>)
    ensures forall x :: MarkAt(r, x) == if x == id then Some(m) else MarkAt(byId, x)
    ensures |r| == |byId| + if id in byId then 0 else 1
  {
    assert byId[id := m].Keys == byId.Keys + {id};
    byId[id := m]
  }

  // The budget counts (type, id) pairs.

  ghost function EntryPairs(e: LogEntry, types: set<Name>): set<(Name, Id)> {
    set t, id | t in types && t in e.types && id in AllIds(e.types[t]) :: (t, id)
  }

  function AllIds(te: TypeEntry): set<Id> { te.created + te.updated + te.destroyed }

  /** The (type, id) pairs logged in (a, b]. */
  ghost function Pairs(log: Log, types: set<Name>, a: nat, b: nat): set<(Name, Id)>
    requires a <= b
  {
    if a == b then {} else Pairs(log, types, a, b - 1) + if b in log then EntryPairs(log[b], types) else {}
  }

  lemma {:induction false} PairsGap(log: Log, types: set<Name>, a: nat, b: nat, c: nat)
    requires a <= b <= c && forall n :: b < n <= c ==> n !in log
    ensures Pairs(log, types, a, c) == Pairs(log, types, a, b)
  {
    if b < c { PairsGap(log, types, a, b, c - 1); }
  }

  lemma {:induction false} PairsGrow(log: Log, types: set<Name>, a: nat, b: nat, c: nat)
    requires a <= b <= c
    ensures Pairs(log, types, a, b) <= Pairs(log, types, a, c)
  {
    if b < c { PairsGrow(log, types, a, b, c - 1); }
  }

  /** `held` counts the pairs gathered, those of type `t` being the keys of `byId`. */
  ghost predicate Counts(pairs: set<(Name, Id)>, held: nat, t: Name, byId: map<Id, Mark4>) {
    |pairs| == held && forall id :: (t, id) in pairs <==> id in byId
  }

  ghost predicate Gathers(pairs: set<(Name, Id)>, t: Name, ids: set<Id>, pairs': set<(Name, Id)>) {
    forall p :: p in pairs' <==> p in pairs || (p.0 == t && p.1 in ids)
  }

  /** One list of an entry; gives up once more than `maxIds` ids are held (0: no limit). */
  method MarkAll(byId: map<Id, Mark4>, ids: set<Id>, next: Disp, held: nat, maxIds: nat,
          ghost t: Name, ghost pairs: set<(Name, Id)>)
      returns (ok: bool, r: map<Id, Mark4>, held': nat, ghost done: set<Id>, ghost pairs': set<(Name, Id)>)
    requires Counts(pairs, held, t, byId)
    ensures done <= ids && Gathers(pairs, t, done, pairs') && Counts(pairs', held', t, r)
    ensures ok ==> done == ids && forall id :: MarkAt(r, id) == MarkIf(byId, ids, next, id)
    ensures ok && maxIds > 0 && held <= maxIds ==> held' <= maxIds
    ensures !ok ==> 0 < maxIds < held'
  {
    r, held', done, pairs' := byId, held, {}, pairs;
    var todo := ids;
    while todo != {}
      invariant todo <= ids && done == ids - todo
      invariant MarksIf(byId, done, next, r)
      invariant maxIds > 0 && held <= maxIds ==> held' <= maxIds
      invariant Gathers(pairs, t, done, pairs') && Counts(pairs', held', t, r)
    {
      var id :| id in todo;
      var prev := MarkAt(r, id);
      MarkMore(byId, done, next, r, id);
      CountMore(pairs, t, done, pairs', held', r, id, Coalesce4(prev, next));
      r := SetMark(r, id, Coalesce4(prev, next));
      todo := todo - {id};
      done, pairs' := done + {id}, pairs' + {(t, id)};
      if prev.None? {
        held' := held' + 1;
        if maxIds > 0 && held' > maxIds {
          return false, r, held', done, pairs';
        }
      }
    }
    ok := true;
  }

  ghost predicate MarksIf(byId: map<Id, Mark4>, done: set<Id>, next: Disp, r: map<Id, Mark4>) {
    forall id :: MarkAt(r, id) == MarkIf(byId, done, next, id)
  }

  lemma MarkMore(byId: map<Id, Mark4>, done: set<Id>, next: Disp, r: map<Id, Mark4>, id: Id)
    requires MarksIf(byId, done, next, r) && id !in done
    ensures MarksIf(byId, done + {id}, next, SetMark(r, id, Coalesce4(MarkAt(r, id), next)))
  {
    assert MarkAt(r, id) == MarkIf(byId, done, next, id);
  }

  lemma CountMore(pairs: set<(Name, Id)>, t: Name, done: set<Id>, pairs': set<(Name, Id)>, held: nat,
          r: map<Id, Mark4>, id: Id, m: Mark4)
    requires Gathers(pairs, t, done, pairs') && Counts(pairs', held, t, r)
    ensures Gathers(pairs, t, done + {id}, pairs' + {(t, id)})
    ensures Counts(pairs' + {(t, id)}, if id in r then held else held + 1, t, SetMark(r, id, m))
  {
    assert id in r ==> pairs' + {(t, id)} == pairs';
  }

  method MarkEntry(byId: map<Id, Mark4>, te: TypeEntry, held: nat, maxIds: nat,
          ghost t: Name, ghost pairs: set<(Name, Id)>)
      returns (ok: bool, r: map<Id, Mark4>, held': nat, ghost done: set<Id>, ghost pairs': set<(Name, Id)>)
    requires Counts(pairs, held, t, byId)
    ensures done <= AllIds(te) && Gathers(pairs, t, done, pairs') && Counts(pairs', held', t, r)
    ensures ok ==> done == AllIds(te) && forall id :: MarkAt(r, id) == ApplyEntry4(MarkAt(byId, id), te, id)
    ensures ok && maxIds > 0 && held <= maxIds ==> held' <= maxIds
    ensures !ok ==> 0 < maxIds < held'
  {
    ghost var more;
    ok, r, held', done, pairs' := MarkAll(byId, te.created, Created, held, maxIds, t, pairs);
    if !ok { return; }
    ok, r, held', more, pairs' := MarkAll(r, te.updated, Updated, held', maxIds, t, pairs');
    done := done + more;
    if !ok { return; }
    ok, r, held', more, pairs' := MarkAll(r, te.destroyed, Destroyed, held', maxIds, t, pairs');
    done := done + more;
  }

  ghost predicate Marked(log: Log, types: set<Name>, since: nat, cursor: nat, disp: map<Name, map<Id, Mark4>>) {
    && since <= cursor && disp.Keys == types
    && forall t, id :: t in types ==> MarkAt(disp[t], id) == NetMark(log, t, since, cursor, id)
  }

  lemma {:induction false} MarkGap(log: Log, t: Name, a: nat, b: nat, c: nat, id: Id)
    requires a <= b <= c && Quiet(log, t, b, c)
    ensures NetMark(log, t, a, c, id) == NetMark(log, t, a, b, id)
  {
    if b < c { MarkGap(log, t, a, b, c - 1, id); }
  }

  lemma MarkedGap(log: Log, types: set<Name>, since: nat, a: nat, b: nat, disp: map<Name, map<Id, Mark4>>)
    requires Marked(log, types, since, a, disp) && a <= b && forall t :: t in types ==> Quiet(log, t, a, b)
    ensures Marked(log, types, since, b, disp)
  {
    forall t, id | t in types ensures MarkAt(disp[t], id) == NetMark(log, t, since, b, id) {
      MarkGap(log, t, since, a, b, id);
    }
  }

  /** The pairs gathered are those of the marks. */
  ghost predicate PairsOf(disp: map<Name, map<Id, Mark4>>, pairs: set<(Name, Id)>) {
    forall t, id :: (t, id) in pairs <==> t in disp && id in disp[t]
  }

  /** The marks up to `cursor`, and how many there are. */
  ghost predicate MarkedTo(log: Log, types: set<Name>, since: nat, cursor: nat, disp: map<Name, map<Id, Mark4>>,
          held: nat) {
    && Marked(log, types, since, cursor, disp)
    && PairsOf(disp, Pairs(log, types, since, cursor)) && |Pairs(log, types, since, cursor)| == held
  }

  lemma MarkedToGap(log: Log, types: set<Name>, since: nat, a: nat, b: nat, disp: map<Name, map<Id, Mark4>>, held: nat)
    requires MarkedTo(log, types, since, a, disp, held) && a <= b && forall n :: a < n <= b ==> n !in log
    ensures MarkedTo(log, types, since, b, disp, held)
  {
    MarkedGap(log, types, since, a, b, disp);
    PairsGap(log, types, since, a, b);
  }

  /** Row n is taken in for every type but those in `todo`. */
  ghost predicate HalfMarked(log: Log, types: set<Name>, since: nat, n: nat, todo: set<Name>,
          disp: map<Name, map<Id, Mark4>>)
    requires since < n
  {
    && disp.Keys == types
    && forall t, id :: t in types ==> MarkAt(disp[t], id) == NetMark(log, t, since, if t in todo then n - 1 else n, id)
  }

  lemma HalfStep(log: Log, types: set<Name>, since: nat, n: nat, todo: set<Name>, disp: map<Name, map<Id, Mark4>>,
          t: Name, byId: map<Id, Mark4>)
    requires since < n && n in log && t in todo && t in types && HalfMarked(log, types, since, n, todo, disp)
    requires if t in log[n].types
             then forall id :: MarkAt(byId, id) == ApplyEntry4(MarkAt(disp[t], id), log[n].types[t], id)
             else byId == disp[t]
    ensures HalfMarked(log, types, since, n, todo - {t}, disp[t := byId])
  {
    var disp' := disp[t := byId];
    forall u, id | u in types
      ensures MarkAt(disp'[u], id) == NetMark(log, u, since, if u in todo - {t} then n - 1 else n, id)
    {
      assert MarkAt(disp[u], id) == NetMark(log, u, since, if u in todo then n - 1 else n, id);
    }
  }

  /** The pairs gathered while row n is taken in. */
  ghost predicate HalfPaired(pairs0: set<(Name, Id)>, entry: LogEntry, done: set<Name>,
          disp: map<Name, map<Id, Mark4>>, pairs: set<(Name, Id)>, held: nat) {
    PairsOf(disp, pairs) && |pairs| == held && pairs == pairs0 + EntryPairs(entry, done)
  }

  /** One row, for one type. */
  method MarkType(disp: map<Name, map<Id, Mark4>>, entry: LogEntry, t: Name, held: nat, maxIds: nat, ghost log: Log,
          ghost types: set<Name>, ghost todo: set<Name>, ghost since: nat, ghost n: nat, ghost pairs: set<(Name, Id)>)
      returns (ok: bool, disp': map<Name, map<Id, Mark4>>, held': nat, ghost pairs': set<(Name, Id)>)
    requires since < n && n in log && log[n] == entry && t in todo && todo <= types
    requires HalfMarked(log, types, since, n, todo, disp)
    requires HalfPaired(Pairs(log, types, since, n - 1), entry, types - todo, disp, pairs, held)
    ensures ok ==> HalfMarked(log, types, since, n, todo - {t}, disp')
    ensures ok ==> HalfPaired(Pairs(log, types, since, n - 1), entry, types - (todo - {t}), disp', pairs', held')
    ensures ok && maxIds > 0 && held <= maxIds ==> held' <= maxIds
    ensures !ok ==> 0 < maxIds < |Pairs(log, types, since, n)|
  {
    if t !in entry.types {
      HalfStep(log, types, since, n, todo, disp, t, disp[t]);
      assert disp[t := disp[t]] == disp;
      assert EntryPairs(entry, types - (todo - {t})) == EntryPairs(entry, types - todo);
      return true, disp, held, pairs;
    }
    var byId;
    ghost var done;
    ok, byId, held', done, pairs' := MarkEntry(disp[t], entry.types[t], held, maxIds, t, pairs);
    RowPairs(Pairs(log, types, since, n - 1), entry, types, todo, t, pairs, done, pairs');
    disp' := disp[t := byId];
    if ok {
      HalfStep(log, types, since, n, todo, disp, t, byId);
      PairsFollow(disp, pairs, t, done, byId, pairs');
    } else {
      SubsetSize(pairs', Pairs(log, types, since, n));
    }
  }

  /** One row, for every requested type, in any order. */
  method MarkRow(disp: map<Name, map<Id, Mark4>>, entry: LogEntry, types: set<Name>, held: nat, maxIds: nat,
          ghost log: Log, ghost since: nat, ghost n: nat)
      returns (ok: bool, disp': map<Name, map<Id, Mark4>>, held': nat)
    requires since < n && n in log && log[n] == entry && MarkedTo(log, types, since, n - 1, disp, held)
    ensures ok ==> MarkedTo(log, types, since, n, disp', held')
    ensures ok && maxIds > 0 && held <= maxIds ==> held' <= maxIds
    ensures !ok ==> 0 < maxIds < |Pairs(log, types, since, n)|
  {
    disp', held' := disp, held;
    var todo := types;
    ghost var pairs := Pairs(log, types, since, n - 1);
    HalfStart(log, types, since, n, disp, held);
    while todo != {}
      invariant todo <= types && HalfMarked(log, types, since, n, todo, disp')
      invariant maxIds > 0 && held <= maxIds ==> held' <= maxIds
      invariant HalfPaired(Pairs(log, types, since, n - 1), entry, types - todo, disp', pairs, held')
    {
      var t :| t in todo;
      ok, disp', held', pairs := MarkType(disp', entry, t, held', maxIds, log, types, todo, since, n, pairs);
      if !ok {
        return;
      }
      todo := todo - {t};
    }
    ok := true;
    HalfEnd(log, types, since, n, disp', held', pairs);
  }

  lemma HalfStart(log: Log, types: set<Name>, since: nat, n: nat, disp: map<Name, map<Id, Mark4>>, held: nat)
    requires since < n && n in log && MarkedTo(log, types, since, n - 1, disp, held)
    ensures HalfMarked(log, types, since, n, types, disp)
    ensures var before := Pairs(log, types, since, n - 1); HalfPaired(before, log[n], types - types, disp, before, held)
  {
    assert types - types == {};
  }

  lemma HalfEnd(log: Log, types: set<Name>, since: nat, n: nat, disp: map<Name, map<Id, Mark4>>, held: nat,
          pairs: set<(Name, Id)>)
    requires since < n && n in log && HalfMarked(log, types, since, n, {}, disp)
    requires HalfPaired(Pairs(log, types, since, n - 1), log[n], types - {}, disp, pairs, held)
    ensures MarkedTo(log, types, since, n, disp, held)
  {
    assert types - {} == types;
  }

  lemma RowPairs(pairs0: set<(Name, Id)>, entry: LogEntry, types: set<Name>, rest: set<Name>, t: Name,
          pairs: set<(Name, Id)>, done: set<Id>, pairs': set<(Name, Id)>)
    requires t in rest && rest <= types && t in entry.types && done <= AllIds(entry.types[t])
    requires pairs == pairs0 + EntryPairs(entry, types - rest) && Gathers(pairs, t, done, pairs')
    ensures pairs' <= pairs0 + EntryPairs(entry, types)
    ensures done == AllIds(entry.types[t]) ==> pairs' == pairs0 + EntryPairs(entry, types - (rest - {t}))
  {
  }

  lemma PairsFollow(disp: map<Name, map<Id, Mark4>>, pairs: set<(Name, Id)>, t: Name, done: set<Id>,
          byId: map<Id, Mark4>, pairs': set<(Name, Id)>)
    requires PairsOf(disp, pairs) && t in disp && (forall id :: (t, id) in pairs' <==> id in byId)
    requires Gathers(pairs, t, done, pairs')
    ensures PairsOf(disp[t := byId], pairs')
  {
    var disp' := disp[t := byId];
    forall u, id ensures (u, id) in pairs' <==> u in disp' && id in disp'[u] {
      assert (u, id) in pairs <==> u in disp && id in disp[u];
      assert u != t ==> ((u, id) in pairs' <==> (u, id) in pairs);
    }
  }

  function IdsMarked(byId: map<Id, Mark4>, d: Disp): set<Id> { set id | id in byId && byId[id] == Net(d) }

  function Report(byId: map<Id, Mark4>): Change {
    Change(IdsMarked(byId, Created), IdsMarked(byId, Updated), IdsMarked(byId, Destroyed))
  }

  /** The lists are the ids by their mark over (a, b]. */
  ghost predicate ReportsMarks(log: Log, t: Name, a: nat, b: nat, c: Change)
    requires a <= b
  {
    forall id ::
      && (id in c.created <==> NetMark(log, t, a, b, id) == Some(Net(Created)))
      && (id in c.updated <==> NetMark(log, t, a, b, id) == Some(Net(Updated)))
      && (id in c.destroyed <==> NetMark(log, t, a, b, id) == Some(Net(Destroyed)))
  }

  lemma MarksReported(log: Log, types: set<Name>, since: nat, upTo: nat, disp: map<Name, map<Id, Mark4>>,
          out: map<Name, Change>)
    requires Marked(log, types, since, upTo, disp) && out.Keys == types
    requires forall t :: t in types ==> out[t] == Report(disp[t])
    ensures forall t :: t in types ==> ReportsMarks(log, t, since, upTo, out[t])
  {
    forall t, id | t in types
      ensures id in out[t].created <==> NetMark(log, t, since, upTo, id) == Some(Net(Created))
      ensures id in out[t].updated <==> NetMark(log, t, since, upTo, id) == Some(Net(Updated))
      ensures id in out[t].destroyed <==> NetMark(log, t, since, upTo, id) == Some(Net(Destroyed))
    {
      assert MarkAt(disp[t], id) == NetMark(log, t, since, upTo, id);
    }
  }

  /** The next row of the walk, past a gap in the log. */
  method MarkNext(disp: map<Name, map<Id, Mark4>>, row: LogRow, types: set<Name>, held: nat, maxIds: nat,
          ghost log: Log, ghost since: nat, ghost cursor: nat, ghost upTo: nat)
      returns (ok: bool, disp': map<Name, map<Id, Mark4>>, held': nat)
    requires MarkedTo(log, types, since, cursor, disp, held) && since <= cursor < row.seqNo <= upTo
    requires row.seqNo in log && log[row.seqNo] == row.entry && Gap(log, cursor, row.seqNo)
    ensures ok ==> MarkedTo(log, types, since, row.seqNo, disp', held')
    ensures ok && maxIds > 0 && held <= maxIds ==> held' <= maxIds
    ensures !ok ==> 0 < maxIds < |Pairs(log, types, since, upTo)|
  {
    MarkedToGap(log, types, since, cursor, row.seqNo - 1, disp, held);
    ok, disp', held' := MarkRow(disp, row.entry, types, held, maxIds, log, since, row.seqNo);
    if !ok {
      PairsGrow(log, types, since, row.seqNo, upTo);
      SubsetSize(Pairs(log, types, since, row.seqNo), Pairs(log, types, since, upTo));
    }
  }

  /** The walk over the rows up to `upTo`. */
  method WalkMarks(types: set<Name>, since: nat, upTo: nat, rows: seq<LogRow>, maxIds: nat, ghost log: Log)
      returns (ok: bool, disp: map<Name, map<Id, Mark4>>, held: nat)
    requires since <= upTo && IsScan(log, since + 1, rows)
    ensures ok ==> MarkedTo(log, types, since, upTo, disp, held)
    ensures !ok <==> 0 < maxIds < |Pairs(log, types, since, upTo)|
  {
    disp, held := map t | t in types :: map[], 0;
    var i := 0;
    ghost var cursor := since;
    while i < |rows| && rows[i].seqNo <= upTo
      invariant 0 <= i <= |rows| && cursor == if i == 0 then since else rows[i - 1].seqNo
      invariant since <= cursor <= upTo && MarkedTo(log, types, since, cursor, disp, held)
      invariant maxIds > 0 ==> held <= maxIds
    {
      NextRow(log, since, rows, i, cursor);
      ok, disp, held := MarkNext(disp, rows[i], types, held, maxIds, log, since, cursor, upTo);
      if !ok {
        return;
      }
      cursor := rows[i].seqNo;
      i := i + 1;
    }
    if i < |rows| { NextRow(log, since, rows, i, cursor); } else { NoRowsAfter(log, since, rows, cursor); }
    MarkedToGap(log, types, since, cursor, upTo, disp, held);
    ok := true;
  }

  /** Section 5.6's read: the coalesced changes of several types over (since, upTo],
      where upTo is the sequence read first; later commits are left for the next call.
      It is refused for its state, for being too far behind, or exactly when more than
      `maxIds` ids of the types were logged. */
  method ChangedSince(types: set<Name>, since: nat, upTo: nat, floor: nat, rows: seq<LogRow>, floorAfter: nat,
                      maxBehind: nat, maxIds: nat, ghost log: Log)
      returns (r: Result<map<Name, Change>>)
    requires since <= upTo ==> IsScan(log, since + 1, rows)
    ensures r.Err? <==>
      || since > upTo || since + 1 < floor || since + 1 < floorAfter || (maxBehind > 0 && upTo - since > maxBehind)
      || 0 < maxIds < |Pairs(log, types, since, upTo)|
    ensures r.Ok? ==> r.value.Keys == types && since <= upTo
    ensures r.Ok? ==> forall t :: t in types ==> ReportsMarks(log, t, since, upTo, r.value[t])
  {
    if since > upTo || (maxBehind > 0 && upTo - since > maxBehind) || since + 1 < floor {
      return Err;
    }
    var ok, disp, _ := WalkMarks(types, since, upTo, rows, maxIds, log);
    if !ok || since + 1 < floorAfter {
      return Err;
    }
    r := Ok(map t | t in types :: Report(disp[t]));
    MarksReported(log, types, since, upTo, disp, r.value);
  }

  /** ChangedSince reports the same net change as Changes does over its window. */
  lemma ChangedSinceIsNetChange(h: History, log: Log, t: Name, a: nat, b: nat, c: Change)
    requires LogTells(h, log, t, a, b) && ReportsMarks(log, t, a, b, c)
    ensures c == Change(NetCreated(h, a, b), NetUpdated(h, a, b), NetDestroyed(h, a, b))
  {
    forall id ensures
      && (id in c.created <==> id in NetCreated(h, a, b))
      && (id in c.updated <==> id in NetUpdated(h, a, b))
      && (id in c.destroyed <==> id in NetDestroyed(h, a, b))
    {
      MarksAreFate(h, log, t, a, b, id);
      if id !in Touched(h, a, b) { UntouchedSame(h, a, b, id); }
    }
  }
}
