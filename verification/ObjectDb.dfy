/** core/objectdb: the Update that stages one commit, the batch it is turned into, and
    the reads that see staged and committed records together. The store does not
    change under an Update: it runs under the account's lease (module Lease). */
module ObjectDb {
  import opened Options
  import opened ByteOrder
  import opened Records
  import opened Keys
  import opened Store
  import opened Schema
  import opened IndexOps
  import opened Commits

  /** checkKinds: every property is declared, and valid unless it is byte for byte
      the prior version's. */
  predicate KindsOk(ty: Type, o: Object, prior: Option<Object>) {
    forall n :: n in o && n != ID ==> n in ty.props && (RawAt(prior, n) == Some(o[n]) || ty.props[n].check(o[n]))
  }

  /** Every property is declared and valid. */
  predicate Checked(ty: Type, o: Object) { KindsOk(ty, o, None) }

  /** Every property but the id is one the type declares, with a value its kind accepts. */
  ghost predicate AllPass(ty: Type, o: Object) {
    forall n :: n in o && n != ID ==> n in ty.props && ty.props[n].check(o[n])
  }

  ghost predicate AllChecked(sc: Schema, s: Store) {
    forall t, id :: t in sc.types && ObjectAt(s, t, id).Some? ==> Checked(sc.types[t], ObjectAt(s, t, id).value)
  }

  /** The staged record's index values encode and its members list, if it leaves a
      trace at all. */
  ghost predicate StagedFine(sc: Schema, k: RecKey, st: Staged) {
    k.typ in sc.types && (Live(st) ==> RecordFine(sc.types[k.typ], st.prior, st.next))
  }

  ghost predicate AllFine(sc: Schema, staged: Staging) { forall k :: k in staged ==> StagedFine(sc, k, staged[k]) }

  /** One staged record in the batch and in the log entry. */
  method BuildRecord(sc: Schema, b: Batch, k: RecKey, st: Staged, types0: map<Name, TypeEntry>, ghost part: Staging)
      returns (ok: bool, types: map<Name, TypeEntry>)
    requires k !in part && k.typ in sc.types && ValidType(sc.types[k.typ])
    requires (st.created <==> st.prior.None?) && (st.quiet && st.next.Some? ==> !st.created)
    requires RecordsIn(sc, part, b.ops) && TypesMatch(sc, part, types0)
    modifies b
    ensures ok <==> StagedFine(sc, k, st)
    ensures ok ==> RecordsIn(sc, part[k := st], b.ops) && TypesMatch(sc, part[k := st], types)
  {
    ghost var ops0 := b.ops;
    ok, types := true, types0;
    if Live(st) {
      ok := RecordOps(b, sc, k.typ, k.id, st.prior, st.next);
      if !ok {
        return;
      }
      types := types[k.typ :=
        AddToEntry(sc.types[k.typ], if k.typ in types then types[k.typ] else NO_CHANGES, k.id, st)];
    }
    RecordsGrow(sc, part, k, st, ops0, b.ops);
    TypesGrow(sc, part, k, st, types0, types);
  }

  /** A record as staged, unless it is still to be looked at. */
  function Overlaid(base: Store, staged: Staging, todo: set<RecKey>, t: Name, id: Id): Option<Object> {
    if RecKey(t, id) in staged && RecKey(t, id) !in todo then staged[RecKey(t, id)].next else ObjectAt(base, t, id)
  }

  /** Replace what the index says about staged records by what they now hold. */
  method Overlay(base: Store, staged: Staging, t: Name, n: Name, ids0: set<Id>, holds: Option<Raw> -> bool,
          fine: Option<Raw> -> bool)
      returns (r: Result<set<Id>>)
    requires forall id :: id in ids0 <==> holds(RawAt(ObjectAt(base, t, id), n))
    ensures r.Ok? ==> forall id :: id in r.value <==> holds(RawAt(Overlaid(base, staged, {}, t, id), n))
    ensures r.Err? <==> exists k :: k in staged && k.typ == t && !fine(RawAt(staged[k].next, n))
  {
    var ids, todo := ids0, staged.Keys;
    while todo != {}
      invariant todo <= staged.Keys
      invariant forall k :: k in staged && k !in todo && k.typ == t ==> fine(RawAt(staged[k].next, n))
      invariant forall id :: id in ids <==> holds(RawAt(Overlaid(base, staged, todo, t, id), n))
    {
      var k :| k in todo;
      todo := todo - {k};
      if k.typ == t {
        assert k == RecKey(t, k.id);
        ids := ids - {k.id};
        var raw := RawAt(staged[k].next, n);
        if !fine(raw) {
          return Err;
        }
        if holds(raw) {
          ids := ids + {k.id};
        }
      }
    }
    r := Ok(ids);
  }

  /** The smallest staged id of the type whose record holds the member. */
  method LowestStaged(staged: Staging, t: Name, n: Name, p: Property, member: Bytes)
      returns (fine: bool, best: Option<Id>)
    ensures fine <==> StagedList(staged, t, n, p)
    ensures best.Some? ==> HoldsStaged(staged, t, n, p, member, best.value)
    ensures fine ==> forall id :: HoldsStaged(staged, t, n, p, member, id) ==> best.Some? && AtMost(best.value, id)
  {
    best := None;
    var todo := staged.Keys;
    while todo != {}
      invariant todo <= staged.Keys
      invariant forall k :: k in staged && k !in todo && k.typ == t ==> ListsMembers(p, RawAt(staged[k].next, n))
      invariant best.Some? ==> HoldsStaged(staged, t, n, p, member, best.value)
      invariant forall id :: HoldsStaged(staged, t, n, p, member, id) && RecKey(t, id) !in todo ==>
        best.Some? && AtMost(best.value, id)
    {
      var k :| k in todo;
      todo := todo - {k};
      if k.typ == t {
        assert k == RecKey(t, k.id);
        var raw := RawAt(staged[k].next, n);
        if !ListsMembers(p, raw) {
          return false, best;
        }
        if member in MembersOf(p, raw) && (best.None? || Less(k.id, best.value)) {
          ghost var before := best;
          best := Some(k.id);
          if before.Some? { LowerBound(k.id, before.value); }
        } else if member in MembersOf(p, raw) {
          Total(k.id, best.value);
        }
      }
    }
    fine := true;
  }

  /** Every staged record of the type lists its members. */
  predicate StagedList(staged: Staging, t: Name, n: Name, p: Property) {
    forall k :: k in staged && k.typ == t ==> ListsMembers(p, RawAt(staged[k].next, n))
  }

  predicate HoldsStaged(staged: Staging, t: Name, n: Name, p: Property, member: Bytes, id: Id) {
    RecKey(t, id) in staged && member in MembersOf(p, RawAt(staged[RecKey(t, id)].next, n))
  }

  predicate HoldsNow(base: Store, staged: Staging, t: Name, n: Name, p: Property, member: Bytes, id: Id) {
    member in MembersOf(p, RawAt(Overlaid(base, staged, {}, t, id), n))
  }

  /** The first row that no staged record overrides. */
  method FirstUnstaged(staged: Staging, t: Name, rows: seq<Id>) returns (i: nat)
    ensures i <= |rows| && (i < |rows| ==> RecKey(t, rows[i]) !in staged)
    ensures forall j :: 0 <= j < i ==> RecKey(t, rows[j]) in staged
  {
    i := 0;
    while i < |rows| && RecKey(t, rows[i]) in staged
      invariant i <= |rows| && forall j :: 0 <= j < i ==> RecKey(t, rows[j]) in staged
    {
      i := i + 1;
    }
  }

  method LowestOf(base: Store, staged: Staging, t: Name, n: Name, p: Property, member: Bytes, rows: seq<Id>)
      returns (fine: bool, lowest: Option<Id>)
    requires forall i, j :: 0 <= i < j < |rows| ==> Less(rows[i], rows[j])
    requires forall id :: id in rows <==> member in MembersOf(p, RawAt(ObjectAt(base, t, id), n))
    ensures fine <==> StagedList(staged, t, n, p)
    ensures fine && lowest.None? ==> forall id :: !HoldsNow(base, staged, t, n, p, member, id)
    ensures fine && lowest.Some? ==> HoldsNow(base, staged, t, n, p, member, lowest.value)
    ensures fine && lowest.Some? ==>
      forall id :: HoldsNow(base, staged, t, n, p, member, id) ==> AtMost(lowest.value, id)
  {
    var i;
    fine, lowest := LowestStaged(staged, t, n, p, member);
    if !fine {
      return;
    }
    i := FirstUnstaged(staged, t, rows);
    forall id | HoldsNow(base, staged, t, n, p, member, id) && RecKey(t, id) !in staged
      ensures i < |rows| && AtMost(rows[i], id)
    {
      assert id in rows;
    }
    assert forall id :: RecKey(t, id) in staged ==> (HoldsNow(base, staged, t, n, p, member, id) <==>
      HoldsStaged(staged, t, n, p, member, id));
    if i < |rows| {
      assert rows[i] in rows && HoldsNow(base, staged, t, n, p, member, rows[i]);
      if lowest.None? || Less(rows[i], lowest.value) {
        if lowest.Some? { LowerBound(rows[i], lowest.value); }
        lowest := Some(rows[i]);
      } else {
        Total(rows[i], lowest.value);
        if rows[i] != lowest.value { LowerBound(lowest.value, rows[i]); }
      }
    }
  }

  /** What staging keeps: staged records carry their committed pre-image, quiet ones
      change nothing visible, and every version is kind-checked. */
  ghost predicate StagingOk(sc: Schema, base: Store, staged: Staging) {
    && AllStagedOn(sc, base, staged)
    && forall k :: k in staged && staged[k].next.Some? ==> Checked(sc.types[k.typ], staged[k].next.value)
  }

  lemma StageOne(sc: Schema, base: Store, staged: Staging, k: RecKey, st: Staged)
    requires StagingOk(sc, base, staged) && StagedOn(sc, base, k, st)
    requires (st.next.Some? ==> Checked(sc.types[k.typ], st.next.value))
    ensures StagingOk(sc, base, staged[k := st])
  {
    var staged' := staged[k := st];
    forall x | x in staged' ensures StagedOn(sc, base, x, staged'[x]) {
      if x != k { assert StagedOn(sc, base, x, staged[x]); }
    }
  }

  class Update {
    const sc: Schema
    const base: Store
    var staged: Staging
    var read: map<RecKey, Object>
    var bumped: set<Name>

    constructor (sc: Schema, base: Store)
      requires ValidSchema(sc) && AllChecked(sc, base)
      ensures this.sc == sc && this.base == base && Valid()
      ensures staged == map[] && bumped == {}
    {
      this.sc, this.base := sc, base;
      staged, read, bumped := map[], map[], {};
    }

    /** What is staged is in order, the read cache is coherent, and every committed record
        that is written was read. */
    ghost predicate Valid()
      reads this
    {
      && ValidSchema(sc)
      && AllChecked(sc, base)
      && StagingOk(sc, base, staged)
      && (forall k :: k in read ==> k.typ in sc.types && ObjectAt(base, k.typ, k.id) == Some(read[k]))
      && (forall k :: k in staged && !staged[k].created ==> k in read)
    }

    /** The record as this Update sees it. */
    ghost function Seen(t: Name, id: Id): Option<Object>
      reads this
    {
      if RecKey(t, id) in staged then staged[RecKey(t, id)].next else ObjectAt(base, t, id)
    }

    method GetCommitted(t: Name, id: Id) returns (r: Option<Object>)
      requires Valid()
      modifies `read
      ensures Valid() && old(read).Keys <= read.Keys && (r.Some? ==> RecKey(t, id) in read)
      ensures r == if t in sc.types then ObjectAt(base, t, id) else None
    {
      var k := RecKey(t, id);
      if k in read {
        return Some(read[k]);
      }
      if t !in sc.types {
        return None;
      }
      r := ObjectAt(base, t, id);
      if r.Some? {
        read := read[k := r.value];
      }
    }

    method Get(t: Name, id: Id) returns (r: Option<Object>)
      requires Valid()
      modifies `read
      ensures Valid() && old(read).Keys <= read.Keys
      ensures r.Some? ==> RecKey(t, id) in staged || RecKey(t, id) in read
      ensures t in sc.types ==> r == Seen(t, id)
      ensures t !in sc.types ==> r == None
    {
      var k := RecKey(t, id);
      if k in staged {
        assert StagedOn(sc, base, k, staged[k]);
        return staged[k].next;
      }
      r := GetCommitted(t, id);
    }

    /** `id` is what newId returns: never used before in the account. */
    method Create(t: Name, o: Object, id: Id) returns (ok: bool)
      requires Valid()
      requires RecKey(t, id) !in staged && ObjectAt(base, t, id).None?
      modifies `staged
      ensures Valid()
      ensures ok <==> t in sc.types && ID !in o && AllPass(sc.types[t], o)
      ensures ok ==> staged == old(staged)[RecKey(t, id) := Staged(None, Some(o[ID := Quote(id)]), true, false)]
      ensures !ok ==> staged == old(staged)
    {
      if t !in sc.types || ID in o || !KindsOk(sc.types[t], o, None) {
        return false;
      }
      var st := Staged(None, Some(o[ID := Quote(id)]), true, false);
      StageOne(sc, base, staged, RecKey(t, id), st);
      staged := staged[RecKey(t, id) := st];
      return true;
    }

    /** A write is accepted on a record this Update sees, under its own id, with kinds
        that hold or were already checked. */
    ghost predicate Writable(t: Name, id: Id, o: Object)
      reads this
    {
      && t in sc.types
      && ID in o && sc.str(o[ID]) == Some(id)
      && Seen(t, id).Some?
      && KindsOk(sc.types[t], o, Seen(t, id))
    }

    lemma CheckedStays(t: Name, id: Id, o: Object)
      requires Valid() && Writable(t, id, o)
      ensures Checked(sc.types[t], o)
    {
      if RecKey(t, id) in staged {
        assert Checked(sc.types[t], staged[RecKey(t, id)].next.value);
      } else {
        assert Checked(sc.types[t], ObjectAt(base, t, id).value);
      }
    }

    /** Since what is stored and staged was checked, a write is accepted exactly where every
        property of the new version is declared and passes its check. */
    lemma WritableMeans(t: Name, id: Id, o: Object)
      requires Valid()
      ensures Writable(t, id, o) <==>
        t in sc.types && ID in o && sc.str(o[ID]) == Some(id) && Seen(t, id).Some? && AllPass(sc.types[t], o)
    {
      if Writable(t, id, o) { CheckedStays(t, id, o); }
    }

    lemma StageQuietly(t: Name, id: Id, o: Object, st: Staged)
      requires Valid() && Writable(t, id, o) && VisibleDiff(sc.types[t], Seen(t, id).value, o) == {}
      requires st == if RecKey(t, id) in staged then staged[RecKey(t, id)].(next := Some(o))
                     else Staged(ObjectAt(base, t, id), Some(o), false, true)
      ensures StagingOk(sc, base, staged[RecKey(t, id) := st])
    {
      var k := RecKey(t, id);
      CheckedStays(t, id, o);
      if k in staged { StaysQuiet(sc, base, k, staged[k], o); }
      StageOne(sc, base, staged, k, st);
    }

    /** An ordinary write makes the record loud. */
    method Put(t: Name, id: Id, o: Object) returns (ok: bool)
      requires Valid()
      modifies `staged, `read
      ensures Valid()
      ensures ok <==> old(Writable(t, id, o))
      ensures ok ==> staged == old(staged)[RecKey(t, id) :=
        Staged(ObjectAt(base, t, id), Some(o),
               RecKey(t, id) in old(staged) && old(staged)[RecKey(t, id)].created, false)]
      ensures !ok ==> staged == old(staged)
    {
      var k := RecKey(t, id);
      if t !in sc.types || ID !in o || sc.str(o[ID]) != Some(id) {
        return false;
      }
      if k in staged {
        var st := staged[k];
        assert StagedOn(sc, base, k, st);
        if st.next.None? || !KindsOk(sc.types[t], o, st.next) {
          return false;
        }
        CheckedStays(t, id, o);
        staged := staged[k := st.(next := Some(o), quiet := false)];
        return true;
      }
      var prior := GetCommitted(t, id);
      if prior.None? || !KindsOk(sc.types[t], o, prior) {
        return false;
      }
      CheckedStays(t, id, o);
      staged := staged[k := Staged(prior, Some(o), false, false)];
      return true;
    }

    /** A bookkeeping write may change only Internal properties. */
    method PutInternal(t: Name, id: Id, o: Object) returns (ok: bool)
      requires Valid()
      modifies `staged, `read
      ensures Valid()
      ensures ok <==>
        old(Writable(t, id, o)) && OnlyInternalDiffers(sc.types[t], old(Seen(t, id)).value, o)
      ensures ok ==> staged == old(staged)[RecKey(t, id) :=
        if RecKey(t, id) in old(staged) then old(staged)[RecKey(t, id)].(next := Some(o))
        else Staged(ObjectAt(base, t, id), Some(o), false, true)]
      ensures !ok ==> staged == old(staged)
    {
      var k := RecKey(t, id);
      if t !in sc.types || ID !in o || sc.str(o[ID]) != Some(id) {
        return false;
      }
      var prior := Get(t, id);
      if prior.None? || !KindsOk(sc.types[t], o, prior) {
        return false;
      }
      UnseenDiff(sc.types[t], prior.value, o);
      if VisibleDiff(sc.types[t], prior.value, o) != {} {
        return false;
      }
      var st := if k in staged then staged[k].(next := Some(o)) else Staged(prior, Some(o), false, true);
      StageQuietly(t, id, o, st);
      staged := staged[k := st];
      return true;
    }

    method Destroy(t: Name, id: Id) returns (ok: bool)
      requires Valid()
      modifies `staged, `read
      ensures Valid()
      ensures ok <==> t in sc.types && old(Seen(t, id)).Some?
      ensures ok ==> staged == old(staged)[RecKey(t, id) :=
        if RecKey(t, id) in old(staged) then old(staged)[RecKey(t, id)].(next := None)
        else Staged(ObjectAt(base, t, id), None, false, false)]
      ensures !ok ==> staged == old(staged)
    {
      var k := RecKey(t, id);
      if t !in sc.types {
        return false;
      }
      if k in staged {
        var st := staged[k];
        assert StagedOn(sc, base, k, st);
        if st.next.None? {
          return false;
        }
        staged := staged[k := st.(next := None)];
        return true;
      }
      var prior := GetCommitted(t, id);
      if prior.None? {
        return false;
      }
      staged := staged[k := Staged(prior, None, false, false)];
      return true;
    }

    method BumpState(t: Name) returns (ok: bool)
      requires Valid()
      modifies `bumped
      ensures Valid()
      ensures ok <==> t in sc.types
      ensures bumped == if ok then old(bumped) + {t} else old(bumped)
    {
      ok := t in sc.types;
      if ok { bumped := bumped + {t}; }
    }

    // ---- Reads that see staged and committed records together ----

    /** The record's value in the scalar index of `n`, as this Update sees it. */
    ghost function SeenValue(t: Name, id: Id, n: Name): Option<Bytes>
      requires t in sc.types && n in sc.types[t].props
      reads this
    {
      IndexValue(sc.types[t].props[n], RawAt(Seen(t, id), n))
    }

    /** The committed matches, less every staged id, plus the staged matches: exactly
        the records this Update sees with the value. */
    method IdsWhereEqual(t: Name, n: Name, value: Raw) returns (r: Result<set<Id>>)
      requires Valid() && Agrees(sc, base)
      ensures r.Ok? ==>
        && t in sc.types && n in sc.types[t].props && sc.types[t].props[n].encode(value).Ok?
        && forall id :: id in r.value <==> SeenValue(t, id, n) == Some(sc.types[t].props[n].encode(value).value)
      ensures r.Err? <==>
        || t !in sc.types || n !in sc.types[t].props || !sc.types[t].props[n].indexed
        || sc.types[t].props[n].encode(value).Err?
        || exists k :: k in staged && k.typ == t && !Encodes(sc.types[t].props[n], RawAt(staged[k].next, n))
    {
      if t !in sc.types || n !in sc.types[t].props || !sc.types[t].props[n].indexed {
        return Err;
      }
      var p := sc.types[t].props[n];
      var want := p.encode(value);
      if want.Err? {
        return Err;
      }
      var ids := ScanEqual(base, t, n, want.value);
      var holds := (raw: Option<Raw>) => IndexValue(p, raw) == Some(want.value);
      forall id ensures id in ids <==> holds(RawAt(ObjectAt(base, t, id), n)) {
        ScanAgrees(sc, base, t, n, want.value, id);
      }
      r := Overlay(base, staged, t, n, ids, holds, raw => Encodes(p, raw));
    }

    ghost predicate SeenMember(t: Name, id: Id, n: Name, member: Bytes)
      requires t in sc.types && n in sc.types[t].props
      reads this
    {
      member in MembersOf(sc.types[t].props[n], RawAt(Seen(t, id), n))
    }

    method IdsWhereMember(t: Name, n: Name, member: Bytes) returns (r: Result<set<Id>>)
      requires Valid() && Agrees(sc, base)
      ensures r.Ok? ==>
        && t in sc.types && n in sc.types[t].props
        && forall id :: id in r.value <==> SeenMember(t, id, n, member)
      ensures r.Err? <==>
        || t !in sc.types || n !in sc.types[t].props || !sc.types[t].props[n].setIndexed
        || exists k :: k in staged && k.typ == t && !ListsMembers(sc.types[t].props[n], RawAt(staged[k].next, n))
    {
      if t !in sc.types || n !in sc.types[t].props || !sc.types[t].props[n].setIndexed {
        return Err;
      }
      var p := sc.types[t].props[n];
      var ids := ScanEqual(base, t, n, member);
      var holds := (raw: Option<Raw>) => member in MembersOf(p, raw);
      forall id ensures id in ids <==> holds(RawAt(ObjectAt(base, t, id), n)) {
        ScanAgrees(sc, base, t, n, member, id);
      }
      r := Overlay(base, staged, t, n, ids, holds, raw => ListsMembers(p, raw));
    }

    /** The smallest id holding the member, reading the index rows only up to the first
        one no staged record overrides. `rows` is the member's index range, in the
        order the backend scans it. */
    method LowestMemberId(t: Name, n: Name, member: Bytes, rows: seq<Id>) returns (ok: bool, lowest: Option<Id>)
      requires Valid() && Agrees(sc, base)
      requires forall i, j :: 0 <= i < j < |rows| ==> Less(rows[i], rows[j])
      requires forall id :: id in rows <==> id in ScanEqual(base, t, n, member)
      ensures ok <==>
        && t in sc.types && n in sc.types[t].props && sc.types[t].props[n].setIndexed
        && StagedList(staged, t, n, sc.types[t].props[n])
      ensures ok && lowest.None? ==> forall id :: !SeenMember(t, id, n, member)
      ensures ok && lowest.Some? ==> SeenMember(t, lowest.value, n, member)
      ensures ok && lowest.Some? ==> forall id :: SeenMember(t, id, n, member) ==> AtMost(lowest.value, id)
    {
      if t !in sc.types || n !in sc.types[t].props || !sc.types[t].props[n].setIndexed {
        return false, None;
      }
      var p := sc.types[t].props[n];
      forall id ensures id in rows <==> member in MembersOf(p, RawAt(ObjectAt(base, t, id), n)) {
        ScanAgrees(sc, base, t, n, member, id);
      }
      ok, lowest := LowestOf(base, staged, t, n, p, member, rows);
      forall id ensures SeenMember(t, id, n, member) <==> HoldsNow(base, staged, t, n, p, member, id) { }
    }

    // ---- The commit ----

    /** The staged records in the batch, and the log entry they make. */
    method BuildRecords(b: Batch) returns (ok: bool, types: map<Name, TypeEntry>)
      requires Valid() && b.ops == []
      modifies b
      ensures ok <==> AllFine(sc, staged)
      ensures ok ==> RecordsIn(sc, staged, b.ops) && TypesMatch(sc, staged, types)
    {
      var todo := staged.Keys;
      types := map[];
      ghost var part: Staging := map[];
      assert RecordsIn(sc, part, []);
      while todo != {}
        invariant todo <= staged.Keys && part.Keys == staged.Keys - todo
        invariant forall k :: k in part ==> part[k] == staged[k] && StagedFine(sc, k, staged[k])
        invariant RecordsIn(sc, part, b.ops) && TypesMatch(sc, part, types)
      {
        var k :| k in todo;
        todo := todo - {k};
        var st := staged[k];
        assert StagedOn(sc, base, k, st);
        ok, types := BuildRecord(sc, b, k, st, types, part);
        if !ok {
          return;
        }
        part := part[k := st];
      }
      assert part == staged;
      ok := true;
    }

    /** One atomic batch for everything staged, but for the sequence and the fence. */
    method BuildBatch(seqNo: nat, now: int) returns (ok: bool, ops: seq<Op>, touched: set<Name>)
      requires Valid()
      ensures ok <==> AllFine(sc, staged)
      ensures ok ==> BatchOf(sc, staged, bumped, seqNo, ops) && Stamped(EffectAt(ops, Log(seqNo)), now)
      ensures ok ==> forall t :: t in touched <==> TouchesType(staged, t) || t in bumped
    {
      var b := new Batch();
      var types;
      ok, types := BuildRecords(b);
      if !ok {
        return false, [], {};
      }
      ghost var recs := b.ops;
      var kept := map t | t in types && types[t].created + types[t].updated + types[t].destroyed != {} :: types[t];
      KeptTypes(sc, staged, types, kept);
      var at := now / 1_000_000;
      FinishBatch(b, kept, bumped, seqNo, at);
      FinishedBatch(sc, staged, bumped, seqNo, at, kept, recs, b.ops);
      FinishedStamp(sc, staged, bumped, seqNo, now, kept, recs, b.ops);
      return true, b.ops, kept.Keys + bumped;
    }
  }

  /** The reading is the clock's whole milliseconds. */
  ghost predicate ClockRead(at: int, now: int) { at * 1_000_000 <= now < (at + 1) * 1_000_000 }

  /** The entry a commit writes carries the clock. */
  ghost predicate Stamped(e: Effect, now: int) {
    e.Some? && e.value.Some? && e.value.value.Entry? ==> ClockRead(e.value.value.entry.at, now)
  }

  /** Nothing but kind-checked records is ever stored. */
  lemma CommitKeepsChecked(sc: Schema, s: Store, staged: Staging, bumped: set<Name>, s': Store)
    requires AllChecked(sc, s) && StagingOk(sc, s, staged) && Committed(sc, s, staged, bumped, s')
    ensures AllChecked(sc, s')
    ensures forall t, id :: t in sc.types && ObjectAt(s', t, id).Some? ==>
      AllPass(sc.types[t], ObjectAt(s', t, id).value)
  {
    forall t, id | t in sc.types && ObjectAt(s', t, id).Some? ensures Checked(sc.types[t], ObjectAt(s', t, id).value) {
      CommittedObject(sc, s, staged, bumped, s', t, id);
      if RecKey(t, id) in staged { assert Checked(sc.types[t], staged[RecKey(t, id)].next.value); }
    }
  }

  /** What lets a record be committed, in the values of its two versions: indexed values
      encode, where one moves so do the OrderBy values that go into its key, and changed
      set-indexed values list their members. */
  ghost predicate Commitable(ty: Type, prior: Option<Object>, next: Option<Object>) {
    && (forall n :: n in ty.props && ty.props[n].indexed ==>
        && EncodesIn(ty, prior, n) && EncodesIn(ty, next, n)
        && (SameIndexed(ty.props[n], prior, next, n)
          || forall m :: m in ty.props[n].orderBy && m in ty.props ==>
            EncodesIn(ty, if HasValue(next, n) then next else prior, m)))
    && (forall n :: n in ty.props && ty.props[n].setIndexed ==>
        SameBytes(prior, next, n) || (ListsIn(ty.props[n], prior, n) && ListsIn(ty.props[n], next, n)))
  }

  ghost predicate HasValue(o: Option<Object>, n: Name) { o.Some? && n in o.value }

  ghost predicate EncodesIn(ty: Type, o: Option<Object>, n: Name)
    requires n in ty.props
  {
    HasValue(o, n) ==> ty.props[n].encode(o.value[n]).Ok?
  }

  ghost predicate ListsIn(p: Property, o: Option<Object>, n: Name) { HasValue(o, n) ==> p.members(o.value[n]).Ok? }

  ghost predicate SameIndexed(p: Property, a: Option<Object>, b: Option<Object>, n: Name) {
    if HasValue(a, n) && HasValue(b, n) then p.encode(a.value[n]) == p.encode(b.value[n])
    else !HasValue(a, n) && !HasValue(b, n)
  }

  /** The same bytes; a missing value has none. */
  ghost predicate SameBytes(a: Option<Object>, b: Option<Object>, n: Name) {
    if HasValue(a, n) && HasValue(b, n) then a.value[n] == b.value[n]
    else (HasValue(a, n) ==> a.value[n] == []) && (HasValue(b, n) ==> b.value[n] == [])
  }

  /** A record is refused exactly where it may not be committed. */
  lemma FineMeans(ty: Type, prior: Option<Object>, next: Option<Object>)
    ensures RecordFine(ty, prior, next) <==> Commitable(ty, prior, next)
  {
    forall n | n in ty.props && ty.props[n].indexed
      ensures ScalarFine(ty, prior, next, n) <==>
        && EncodesIn(ty, prior, n) && EncodesIn(ty, next, n)
        && (SameIndexed(ty.props[n], prior, next, n)
          || forall m :: m in ty.props[n].orderBy && m in ty.props ==>
            EncodesIn(ty, if HasValue(next, n) then next else prior, m))
    {
      ScalarMeans(ty, prior, next, n);
    }
  }

  lemma ScalarMeans(ty: Type, prior: Option<Object>, next: Option<Object>, n: Name)
    requires n in ty.props
    ensures ScalarFine(ty, prior, next, n) <==>
      && EncodesIn(ty, prior, n) && EncodesIn(ty, next, n)
      && (SameIndexed(ty.props[n], prior, next, n)
        || forall m :: m in ty.props[n].orderBy && m in ty.props ==>
          EncodesIn(ty, if HasValue(next, n) then next else prior, m))
  {
    var o := if HasValue(next, n) then next else prior;
    forall m | m in ty.props ensures Encodes(ty.props[m], RawAt(o, m)) <==> EncodesIn(ty, o, m) { }
  }

  /** Kind checks accept only values that encode, of indexed properties and of those
      that order one, and only set-indexed values that list their members. */
  ghost predicate KindsEncode(ty: Type) {
    forall n, raw :: n in ty.props && ty.props[n].check(raw) ==>
      && (ty.props[n].indexed || Orders(ty, n) ==> ty.props[n].encode(raw).Ok?)
      && (ty.props[n].setIndexed ==> ty.props[n].members(raw).Ok?)
  }

  predicate Orders(ty: Type, n: Name) { exists m :: m in ty.props && ty.props[m].indexed && n in ty.props[m].orderBy }

  /** Where they do, no staging is refused: what an Update accepted, it commits. */
  lemma CheckedNeverRefused(sc: Schema, base: Store, staged: Staging)
    requires ValidSchema(sc) && AllChecked(sc, base) && StagingOk(sc, base, staged)
    requires forall t :: t in sc.types ==> KindsEncode(sc.types[t])
    ensures AllFine(sc, staged)
  {
    forall k | k in staged ensures StagedFine(sc, k, staged[k]) {
      var st := staged[k];
      assert StagedOn(sc, base, k, st);
      if st.prior.Some? { assert Checked(sc.types[k.typ], st.prior.value); }
      CheckedFine(sc.types[k.typ], st.prior, st.next);
    }
  }

  lemma CheckedFine(ty: Type, prior: Option<Object>, next: Option<Object>)
    requires ValidType(ty) && KindsEncode(ty)
    requires (prior.Some? ==> Checked(ty, prior.value)) && (next.Some? ==> Checked(ty, next.value))
    ensures RecordFine(ty, prior, next)
  {
    forall n | n in ty.props && ty.props[n].indexed ensures ScalarFine(ty, prior, next, n) {
      ChecksEncode(ty, prior, n);
      ChecksEncode(ty, next, n);
      forall m | m in ty.props[n].orderBy && m in ty.props
        ensures Encodes(ty.props[m], RawAt(prior, m)) && Encodes(ty.props[m], RawAt(next, m))
      {
        assert Orders(ty, m);
        ChecksEncode(ty, prior, m);
        ChecksEncode(ty, next, m);
      }
    }
    forall n | n in ty.props && ty.props[n].setIndexed
      ensures MemberFine(ty.props[n], RawAt(prior, n), RawAt(next, n))
    {
      ChecksEncode(ty, prior, n);
      ChecksEncode(ty, next, n);
    }
  }

  lemma ChecksEncode(ty: Type, o: Option<Object>, n: Name)
    requires ValidType(ty) && KindsEncode(ty) && (o.Some? ==> Checked(ty, o.value)) && n in ty.props
    ensures ty.props[n].indexed || Orders(ty, n) ==> Encodes(ty.props[n], RawAt(o, n))
    ensures ty.props[n].setIndexed ==> ListsMembers(ty.props[n], RawAt(o, n))
  {
    assert RawAt(o, n).Some? ==> ty.props[n].check(RawAt(o, n).value);
  }

  // ---- The database ----

  /** The committed store of one account. */
  class Db {
    var store: Store

    /** An account before its first commit. */
    constructor ()
      ensures store == map[]
    {
      store := map[];
    }

    /** Commit a staged Update under the lease: nothing staged commits nothing, a
        value that does not encode refuses the whole commit, and otherwise everything
        staged, its indexes, the log entry, the states and the sequence are written at
        once. The clock, in nanoseconds, is read while the batch is built. */
    method Commit(u: Update, now: int) returns (r: Result<map<Name, nat>>)
      requires u.Valid() && u.base == store
      modifies this
      ensures u.staged == map[] && u.bumped == {} ==> r == Ok(map[]) && store == old(store)
      ensures r.Ok? <==> AllFine(u.sc, u.staged)
      ensures r.Err? ==> store == old(store)
      ensures AllChecked(u.sc, store)
      ensures r.Ok? && !(u.staged == map[] && u.bumped == {}) ==> Committed(u.sc, old(store), u.staged, u.bumped, store)
      ensures r.Ok? ==> forall t :: t in r.value <==> TouchesType(u.staged, t) || t in u.bumped
      ensures r.Ok? ==> forall t :: t in r.value ==> r.value[t] == Sequence(store)
      ensures r.Ok? && (exists t :: TouchesType(u.staged, t)) ==>
        && Log(Sequence(store)) in store && store[Log(Sequence(store))].Entry?
        && ClockRead(store[Log(Sequence(store))].entry.at, now)
    {
      if u.staged == map[] && u.bumped == {} {
        return Ok(map[]);
      }
      var seqNo := Sequence(store) + 1;
      var ok, ops, touched := u.BuildBatch(seqNo, now);
      if !ok {
        return Err;
      }
      ops := ops + [Op.Set(Seq, Num(seqNo))];
      ghost var before := store;
      store := Apply(store, ops);
      assert CommittedBy(u.sc, before, u.staged, u.bumped, ops[..|ops| - 1], store);
      CommittedNumbers(u.sc, before, u.staged, u.bumped, store, []);
      CommitKeepsChecked(u.sc, before, u.staged, u.bumped, store);
      StampKept(u.sc, before, u.staged, u.bumped, ops[..|ops| - 1], store, now);
      r := Ok(map t | t in touched :: seqNo);
    }
  }

  lemma StampKept(sc: Schema, s: Store, staged: Staging, bumped: set<Name>, ops: seq<Op>, s': Store, now: int)
    requires CommittedBy(sc, s, staged, bumped, ops, s') && Stamped(EffectAt(ops, Log(Sequence(s) + 1)), now)
    ensures var k := Log(Sequence(s) + 1);
      (exists t :: TouchesType(staged, t)) ==> k in s' && s'[k].Entry? && ClockRead(s'[k].entry.at, now)
  {
    var k, last := Log(Sequence(s) + 1), Op.Set(Seq, Num(Sequence(s) + 1));
    ApplyAt(s, ops + [last], k);
    EffectSnoc(ops, last, k);
  }

  // ---- Index scans ----

  /** The ids in the index range of one value. */
  function ScanEqual(s: Store, t: Name, n: Name, v: Bytes): set<Id> {
    set k | k in s && k.Idx? && k.typ == t && k.prop == n && k.value == v :: k.id
  }

  lemma ScanAgrees(sc: Schema, s: Store, t: Name, n: Name, v: Bytes, id: Id)
    requires ValidSchema(sc) && Agrees(sc, s) && t in sc.types && n in sc.types[t].props
    ensures var p, raw := sc.types[t].props[n], RawAt(ObjectAt(s, t, id), n);
      id in ScanEqual(s, t, n, v) <==>
        (p.indexed && IndexValue(p, raw) == Some(v)) || (p.setIndexed && v in MembersOf(p, raw))
  {
    var ty, o := sc.types[t], ObjectAt(s, t, id);
    var p := ty.props[n];
    if id in ScanEqual(s, t, n, v) {
      var k :| k in s && k.Idx? && k.typ == t && k.prop == n && k.value == v && k.id == id;
      assert IdxAgrees(sc, s, t, n, v, k.order, id);
    }
    if p.indexed && IndexValue(p, RawAt(o, n)) == Some(v) {
      var k := Idx(t, n, v, OrderSegs(ty, p.orderBy, o), id);
      assert IdxAgrees(sc, s, t, n, v, k.order, id);
      assert k.id in ScanEqual(s, t, n, v);
    }
    if p.setIndexed && v in MembersOf(p, RawAt(o, n)) {
      var k := Idx(t, n, v, [], id);
      assert IdxAgrees(sc, s, t, n, v, [], id);
      assert k.id in ScanEqual(s, t, n, v);
    }
  }

  lemma LowerBound(a: Id, b: Id)
    requires Less(a, b)
    ensures forall c :: AtMost(b, c) ==> AtMost(a, c)
  {
    forall c | AtMost(b, c) ensures AtMost(a, c) {
      if b != c { Transitive(a, b, c); }
    }
  }

  /** Read your writes: what the Update's overlay answers mid-commit is what the
      committed index answers right after the commit. */
  lemma OverlayIsNextIndex(sc: Schema, s: Store, staged: Staging, bumped: set<Name>, s': Store, t: Name, n: Name,
          v: Bytes, id: Id)
    requires ValidSchema(sc) && Agrees(sc, s) && Committed(sc, s, staged, bumped, s') && AllOrderKept(sc, staged)
    requires t in sc.types && n in sc.types[t].props
    ensures var seen := if RecKey(t, id) in staged then staged[RecKey(t, id)].next else ObjectAt(s, t, id);
      var p, raw := sc.types[t].props[n], RawAt(seen, n);
      id in ScanEqual(s', t, n, v) <==>
        (p.indexed && IndexValue(p, raw) == Some(v)) || (p.setIndexed && v in MembersOf(p, raw))
  {
    CommitKeepsAgreement(sc, s, staged, bumped, s');
    CommittedObject(sc, s, staged, bumped, s', t, id);
    ScanAgrees(sc, s', t, n, v, id);
  }

  // ---- Building the batch ----

  /** Bookkeeping on top of a staged record leaves quiet what was quiet. */
  lemma StaysQuiet(sc: Schema, s: Store, k: RecKey, st: Staged, o: Object)
    requires StagedOn(sc, s, k, st) && st.next.Some? && VisibleDiff(sc.types[k.typ], st.next.value, o) == {}
    ensures StagedOn(sc, s, k, st.(next := Some(o)))
  {
    VisibleDiffEmpty(sc.types[k.typ], st.next.value, o);
    if st.quiet {
      VisibleDiffEmpty(sc.types[k.typ], st.prior.value, st.next.value);
      VisibleDiffEmpty(sc.types[k.typ], st.prior.value, o);
    }
  }

  function Finished(kept: map<Name, TypeEntry>, bumped: set<Name>, seqNo: nat, at: int, ops: seq<Op>, k: Key): Effect {
    if k == Log(seqNo) && kept != map[] then Some(Some(Entry(LogEntry(kept, at))))
    else NumberedOver(kept.Keys + bumped, seqNo, ops, k)
  }

  /** The touched types' states, then the bumped ones', then the log entry. */
  method FinishBatch(b: Batch, kept: map<Name, TypeEntry>, bumped: set<Name>, seqNo: nat, at: int)
    modifies b
    ensures forall k :: EffectAt(b.ops, k) == Finished(kept, bumped, seqNo, at, old(b.ops), k)
  {
    SetStates(b, kept.Keys, seqNo);
    SetStates(b, bumped - kept.Keys, seqNo);
    if kept != map[] {
      b.Set(Log(seqNo), Entry(LogEntry(kept, at)));
    }
  }

  method SetStates(b: Batch, names: set<Name>, seqNo: nat)
    modifies b
    ensures forall k :: EffectAt(b.ops, k) == NumberedOver(names, seqNo, old(b.ops), k)
  {
    var todo := names;
    while todo != {}
      invariant todo <= names
      invariant forall k :: EffectAt(b.ops, k) == NumberedOver(names - todo, seqNo, old(b.ops), k)
    {
      var t :| t in todo;
      todo := todo - {t};
      b.Set(State(t), Num(seqNo));
    }
  }

  const NO_CHANGES: TypeEntry := TypeEntry({}, {}, {}, None)

  function AddToEntry(ty: Type, te: TypeEntry, id: Id, st: Staged): TypeEntry
    requires !st.created ==> st.prior.Some?
  {
    if st.next.None? then te.(destroyed := te.destroyed + {id})
    else if st.created then te.(created := te.created + {id})
    else if st.quiet then te
    else te.(updated := te.updated + {id},
             updatedProps := Some((if te.updatedProps.Some? then te.updatedProps.value else {})
                                  + VisibleDiff(ty, st.prior.value, st.next.value)))
  }

  /** The per-type entries accumulated for the staged records. */
  ghost predicate TypesMatch(sc: Schema, staged: Staging, types: map<Name, TypeEntry>) {
    forall t :: EntryFor(sc, staged, t, if t in types then types[t] else NO_CHANGES)
  }

  lemma IdsGrow(part: Staging, k: RecKey, st: Staged, t: Name, which: Staged -> bool)
    requires k !in part
    ensures IdsOf(part[k := st], t, which) == IdsOf(part, t, which) + (if k.typ == t && which(st) then {k.id} else {})
  {
    var grown, sum := IdsOf(part[k := st], t, which),
        IdsOf(part, t, which) + (if k.typ == t && which(st) then {k.id} else {});
    forall id ensures id in grown <==> id in sum {
      InIds(part, t, id, which);
      InIds(part[k := st], t, id, which);
    }
  }

  lemma PropsGrow(sc: Schema, part: Staging, k: RecKey, st: Staged, t: Name)
    requires k !in part
    ensures PropsChanged(sc, part[k := st], t) == PropsChanged(sc, part, t)
      + (if k.typ == t && t in sc.types && Updates(st) && st.prior.Some?
           then VisibleDiff(sc.types[t], st.prior.value, st.next.value)
           else {})
  {
    var grown := part[k := st];
    var extra :=
      if k.typ == t && t in sc.types && Updates(st) && st.prior.Some?
      then VisibleDiff(sc.types[t], st.prior.value, st.next.value)
      else {};
    forall n | n in PropsChanged(sc, part, t) ensures n in PropsChanged(sc, grown, t) {
      var r :| r in part && r.typ == t && r.typ in sc.types && Updates(part[r]) && part[r].prior.Some?
        && n in VisibleDiff(sc.types[t], part[r].prior.value, part[r].next.value);
      assert r in grown && grown[r] == part[r];
    }
    forall n | n in extra ensures n in PropsChanged(sc, grown, t) {
      assert k in grown && grown[k] == st;
    }
    forall n | n in PropsChanged(sc, grown, t) ensures n in PropsChanged(sc, part, t) + extra {
      var r :| r in grown && r.typ == t && r.typ in sc.types && Updates(grown[r]) && grown[r].prior.Some?
        && n in VisibleDiff(sc.types[t], grown[r].prior.value, grown[r].next.value);
      if r != k { assert r in part && part[r] == grown[r]; }
    }
  }

  lemma TypesGrow(sc: Schema, part: Staging, k: RecKey, st: Staged, types0: map<Name, TypeEntry>,
          types1: map<Name, TypeEntry>)
    requires k !in part && TypesMatch(sc, part, types0) && k.typ in sc.types && (st.created <==> st.prior.None?)
    requires st.quiet && st.next.Some? ==> !st.created
    requires types1 == if Live(st)
      then types0[k.typ := AddToEntry(sc.types[k.typ], if k.typ in types0 then types0[k.typ] else NO_CHANGES, k.id, st)]
      else types0
    ensures TypesMatch(sc, part[k := st], types1)
  {
    forall t ensures EntryFor(sc, part[k := st], t, if t in types1 then types1[t] else NO_CHANGES) {
      var te := if t in types0 then types0[t] else NO_CHANGES;
      assert EntryFor(sc, part, t, te);
      EntryGrows(sc, part, k, st, t, te);
    }
  }

  lemma EntryGrows(sc: Schema, part: Staging, k: RecKey, st: Staged, t: Name, te: TypeEntry)
    requires k !in part && EntryFor(sc, part, t, te) && k.typ in sc.types && (st.created <==> st.prior.None?)
    requires st.quiet && st.next.Some? ==> !st.created
    ensures EntryFor(sc, part[k := st], t, if k.typ == t && Live(st) then AddToEntry(sc.types[t], te, k.id, st) else te)
  {
    IdsGrow(part, k, st, t, Creates);
    IdsGrow(part, k, st, t, Updates);
    IdsGrow(part, k, st, t, Destroys);
    PropsGrow(sc, part, k, st, t);
    if te.updated == {} { NoUpdatesNoProps(sc, part, t); }
    if k.typ == t && Updates(st) {
      assert k.id in IdsOf(part[k := st], t, Updates);
    } else {
      assert PropsChanged(sc, part[k := st], t) == PropsChanged(sc, part, t);
    }
  }

  lemma NoUpdatesNoProps(sc: Schema, part: Staging, t: Name)
    requires IdsOf(part, t, Updates) == {}
    ensures PropsChanged(sc, part, t) == {}
  {
    forall r | r in part && r.typ == t ensures !Updates(part[r]) {
      InIds(part, t, r.id, Updates);
      assert r == RecKey(t, r.id);
    }
  }

  lemma RecordsGrow(sc: Schema, part: Staging, k: RecKey, st: Staged, ops0: seq<Op>, ops1: seq<Op>)
    requires k !in part && RecordsIn(sc, part, ops0) && k.typ in sc.types
    requires if Live(st)
      then forall x :: EffectAt(ops1, x) == Over(RecordEffect(sc, k.typ, k.id, st.prior, st.next, x), EffectAt(ops0, x))
      else ops1 == ops0
    ensures RecordsIn(sc, part[k := st], ops1)
  {
    var grown := part[k := st];
    forall x: Key | x.Obj? || x.Idx? || x.Ref? ensures EffectAt(ops1, x) == OwnerEffect(sc, grown, x) {
      assert EffectAt(ops0, x) == OwnerEffect(sc, part, x);
    }
    forall blob: Id ensures HintIn(sc, grown, blob, EffectAt(ops1, Pending(blob))) {
      assert HintIn(sc, part, blob, EffectAt(ops0, Pending(blob)));
      HintGrows(sc, part, k, st, blob, EffectAt(ops0, Pending(blob)), EffectAt(ops1, Pending(blob)));
    }
  }

  lemma HintGrows(sc: Schema, part: Staging, k: RecKey, st: Staged, blob: Id, e0: Effect, e1: Effect)
    requires k !in part && HintIn(sc, part, blob, e0) && k.typ in sc.types
    requires e1 == if Live(st)
      then Over(HintEffect(RefsOf(sc, sc.types[k.typ], st.prior), RefsOf(sc, sc.types[k.typ], st.next), blob), e0)
      else e0
    ensures HintIn(sc, part[k := st], blob, e1)
  {
    var grown := part[k := st];
    assert forall r :: Stages(part, r) ==> Stages(grown, r) && grown[r] == part[r];
    assert forall r :: Stages(grown, r) && r != k ==> Stages(part, r);
    if e1 == Some(None) {
      if Live(st) && Adds(sc, st, k.typ, blob) {
        assert Stages(grown, k);
      } else {
        var r :| Stages(part, r) && Adds(sc, part[r], r.typ, blob);
        assert Stages(grown, r);
      }
    }
    if e1 == Some(Some(Mark)) {
      if Live(st) && Drops(sc, st, k.typ, blob) {
        assert Stages(grown, k);
      } else {
        var r :| Stages(part, r) && Drops(sc, part[r], r.typ, blob);
        assert Stages(grown, r);
      }
    }
  }

  lemma KeptTypes(sc: Schema, staged: Staging, types: map<Name, TypeEntry>, kept: map<Name, TypeEntry>)
    requires TypesMatch(sc, staged, types)
    requires kept == map t | t in types && types[t].created + types[t].updated + types[t].destroyed != {} :: types[t]
    ensures forall t :: t in kept <==> TouchesType(staged, t)
    ensures forall t :: t in kept ==> EntryFor(sc, staged, t, kept[t])
  {
    forall t ensures t in kept <==> TouchesType(staged, t) {
      assert EntryFor(sc, staged, t, if t in types then types[t] else NO_CHANGES);
      TouchesIffLogged(staged, t);
    }
    forall t | t in kept ensures EntryFor(sc, staged, t, kept[t]) {
      assert EntryFor(sc, staged, t, if t in types then types[t] else NO_CHANGES);
    }
  }

  function NumberedOver(touched: set<Name>, seqNo: nat, ops: seq<Op>, k: Key): Effect {
    if k.State? && k.typ in touched then Some(Some(Num(seqNo))) else EffectAt(ops, k)
  }

  lemma FinishedBatch(sc: Schema, staged: Staging, bumped: set<Name>, seqNo: nat, at: int,
          kept: map<Name, TypeEntry>, recs: seq<Op>, ops: seq<Op>)
    requires RecordsIn(sc, staged, recs)
    requires forall t :: t in kept <==> TouchesType(staged, t)
    requires forall t :: t in kept ==> EntryFor(sc, staged, t, kept[t])
    requires forall k :: EffectAt(ops, k) == Finished(kept, bumped, seqNo, at, recs, k)
    ensures BatchOf(sc, staged, bumped, seqNo, ops)
  {
    forall k: Key | !k.State? && k != Log(seqNo) ensures EffectAt(ops, k) == EffectAt(recs, k) {
      assert EffectAt(ops, k) == Finished(kept, bumped, seqNo, at, recs, k);
    }
    forall blob: Id ensures HintIn(sc, staged, blob, EffectAt(ops, Pending(blob))) {
      assert HintIn(sc, staged, blob, EffectAt(recs, Pending(blob)));
    }
    forall t: Name ensures EffectAt(ops, State(t)) == StateEffect(staged, bumped, seqNo, t) {
      assert EffectAt(ops, State(t)) == Finished(kept, bumped, seqNo, at, recs, State(t));
    }
    assert EffectAt(ops, Log(seqNo)) == Finished(kept, bumped, seqNo, at, recs, Log(seqNo));
    FinishedLog(sc, staged, kept, at);
  }

  lemma FinishedStamp(sc: Schema, staged: Staging, bumped: set<Name>, seqNo: nat, now: int,
          kept: map<Name, TypeEntry>, recs: seq<Op>, ops: seq<Op>)
    requires RecordsIn(sc, staged, recs)
    requires forall k :: EffectAt(ops, k) == Finished(kept, bumped, seqNo, now / 1_000_000, recs, k)
    ensures Stamped(EffectAt(ops, Log(seqNo)), now)
  {
    assert EffectAt(ops, Log(seqNo)) == Finished(kept, bumped, seqNo, now / 1_000_000, recs, Log(seqNo));
    assert EffectAt(recs, Log(seqNo)) == None;
  }

  lemma FinishedLog(sc: Schema, staged: Staging, kept: map<Name, TypeEntry>, at: int)
    requires forall t :: t in kept <==> TouchesType(staged, t)
    requires forall t :: t in kept ==> EntryFor(sc, staged, t, kept[t])
    ensures LogEffect(sc, staged, if kept != map[] then Some(Some(Entry(LogEntry(kept, at)))) else None)
  {
    if kept != map[] {
      var t :| t in kept;
      assert TouchesType(staged, t);
      assert EntryOf(sc, staged, LogEntry(kept, at));
    }
  }
}
