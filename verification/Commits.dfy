/** What one commit of the object database is (core/objectdb: Update, buildBatch), as
    a relation between the store before and the store after, and what it keeps: the
    indexes agree with the records, the log tells the truth, the state strings move
    with the visible data. */
module Commits {
  import opened Options
  import opened ByteOrder
  import opened Records
  import opened Keys
  import opened Store
  import opened Schema
  import opened IndexOps
  import opened Results
  import opened History

  datatype RecKey = RecKey(typ: Name, id: Id)

  /** One record's staged fate: its committed version, its final version, whether it
      was created in this commit, and whether every write to it was bookkeeping. */
  datatype Staged = Staged(prior: Option<Object>, next: Option<Object>, created: bool, quiet: bool)

  type Staging = map<RecKey, Staged>

  /** Created and destroyed in one commit: no trace. */
  predicate Live(st: Staged) { !(st.created && st.next.None?) }

  predicate Stages(staged: Staging, r: RecKey) { r in staged && Live(staged[r]) }

  predicate Creates(st: Staged) { st.created && st.next.Some? }
  predicate Updates(st: Staged) { !st.created && st.next.Some? && !st.quiet }
  predicate Destroys(st: Staged) { !st.created && st.next.None? }
  predicate Logged(st: Staged) { Creates(st) || Updates(st) || Destroys(st) }

  /** What staging keeps true of every staged record, against the committed store. */
  ghost predicate StagedOn(sc: Schema, s: Store, k: RecKey, st: Staged) {
    && k.typ in sc.types
    && st.prior == ObjectAt(s, k.typ, k.id)
    && (st.created <==> st.prior.None?)
    && (st.quiet && st.next.Some? ==> !st.created && VisibleDiff(sc.types[k.typ], st.prior.value, st.next.value) == {})
  }

  ghost predicate AllStagedOn(sc: Schema, s: Store, staged: Staging) {
    forall k :: k in staged ==> StagedOn(sc, s, k, staged[k])
  }

  // ---- The log entry ----

  function IdsOf(staged: Staging, t: Name, which: Staged -> bool): set<Id> {
    set k | k in staged && k.typ == t && which(staged[k]) :: k.id
  }

  predicate TouchesType(staged: Staging, t: Name) {
    exists k :: k in staged && k.typ == t && Logged(staged[k])
  }

  /** Visible properties changed by the commit's reported updates of a type. */
  ghost function PropsChanged(sc: Schema, staged: Staging, t: Name): set<Name> {
    set k, n | k in staged && k.typ == t && k.typ in sc.types && Updates(staged[k]) && staged[k].prior.Some?
      && n in VisibleDiff(sc.types[t], staged[k].prior.value, staged[k].next.value) :: n
  }

  ghost predicate EntryFor(sc: Schema, staged: Staging, t: Name, te: TypeEntry) {
    && te.created == IdsOf(staged, t, Creates)
    && te.updated == IdsOf(staged, t, Updates)
    && te.destroyed == IdsOf(staged, t, Destroys)
    && te.updatedProps == if te.updated == {} then None else Some(PropsChanged(sc, staged, t))
  }

  ghost predicate EntryOf(sc: Schema, staged: Staging, e: LogEntry) {
    && (forall t :: t in e.types <==> TouchesType(staged, t))
    && (forall t :: t in e.types ==> EntryFor(sc, staged, t, e.types[t]))
  }

  // ---- The batch ----

  /** A staged record adds, or drops, a reference to the blob. */
  ghost predicate Adds(sc: Schema, st: Staged, t: Name, blob: Id) {
    t in sc.types && blob in RefsOf(sc, sc.types[t], st.next) && blob !in RefsOf(sc, sc.types[t], st.prior)
  }

  ghost predicate Drops(sc: Schema, st: Staged, t: Name, blob: Id) {
    t in sc.types && blob !in RefsOf(sc, sc.types[t], st.next) && blob in RefsOf(sc, sc.types[t], st.prior)
  }

  /** The staged records are in the batch: their own keys carry their effect, and a
      hint is set only where a reference went, cleared only where one came. */
  ghost predicate RecordsIn(sc: Schema, staged: Staging, ops: seq<Op>) {
    && (forall k: Key :: k.Obj? || k.Idx? || k.Ref? ==> EffectAt(ops, k) == OwnerEffect(sc, staged, k))
    && (forall blob: Id :: HintIn(sc, staged, blob, EffectAt(ops, Pending(blob))))
    && (forall k: Key :: !k.Obj? && !k.Idx? && !k.Ref? && !k.Pending? ==> EffectAt(ops, k) == None)
  }

  ghost function OwnerEffect(sc: Schema, staged: Staging, k: Key): Effect
    requires k.Obj? || k.Idx? || k.Ref?
  {
    var r := RecKey(k.typ, k.id);
    if Stages(staged, r) && r.typ in sc.types
    then RecordEffect(sc, r.typ, r.id, staged[r].prior, staged[r].next, k)
    else None
  }

  ghost predicate HintIn(sc: Schema, staged: Staging, blob: Id, e: Effect) {
    && (e == None || e == Some(None) || e == Some(Some(Mark)))
    && (e == None ==>
      forall r :: Stages(staged, r) ==> !Adds(sc, staged[r], r.typ, blob) && !Drops(sc, staged[r], r.typ, blob))
    && (e == Some(None) ==> exists r :: Stages(staged, r) && Adds(sc, staged[r], r.typ, blob))
    && (e == Some(Some(Mark)) ==> exists r :: Stages(staged, r) && Drops(sc, staged[r], r.typ, blob))
  }

  /** The whole batch of a commit, but for the sequence number and the fence. */
  ghost predicate BatchOf(sc: Schema, staged: Staging, bumped: set<Name>, seqNo: nat, ops: seq<Op>) {
    && (forall k: Key :: k.Obj? || k.Idx? || k.Ref? ==> EffectAt(ops, k) == OwnerEffect(sc, staged, k))
    && (forall blob: Id :: HintIn(sc, staged, blob, EffectAt(ops, Pending(blob))))
    && (forall t: Name :: EffectAt(ops, State(t)) == StateEffect(staged, bumped, seqNo, t))
    && (forall n: nat :: n != seqNo ==> EffectAt(ops, Log(n)) == None)
    && LogEffect(sc, staged, EffectAt(ops, Log(seqNo)))
    && EffectAt(ops, Seq) == EffectAt(ops, Floor) == None
    && (forall blob: Id :: EffectAt(ops, Upload(blob)) == None)
  }

  ghost function StateEffect(staged: Staging, bumped: set<Name>, seqNo: nat, t: Name): Effect {
    if TouchesType(staged, t) || t in bumped then Some(Some(Num(seqNo))) else None
  }

  ghost predicate LogEffect(sc: Schema, staged: Staging, e: Effect) {
    if exists t :: TouchesType(staged, t)
    then e.Some? && e.value.Some? && e.value.value.Entry? && EntryOf(sc, staged, e.value.value.entry)
    else e == None
  }

  /** The store before and after a commit. */
  ghost predicate Committed(sc: Schema, s: Store, staged: Staging, bumped: set<Name>, s': Store) {
    exists ops :: CommittedBy(sc, s, staged, bumped, ops, s')
  }

  ghost predicate CommittedBy(sc: Schema, s: Store, staged: Staging, bumped: set<Name>, ops: seq<Op>, s': Store) {
    && AllStagedOn(sc, s, staged)
    && BatchOf(sc, staged, bumped, Sequence(s) + 1, ops)
    && s' == Apply(s, ops + [Op.Set(Seq, Num(Sequence(s) + 1))])
  }

  /** The store after a commit, key by key. */
  lemma CommittedAt(sc: Schema, s: Store, staged: Staging, bumped: set<Name>, s': Store) returns (ops: seq<Op>)
    requires Committed(sc, s, staged, bumped, s')
    ensures CommittedBy(sc, s, staged, bumped, ops, s')
    ensures forall k :: Lookup(s', k) == if k == Seq then Some(Num(Sequence(s) + 1)) else After(s, k, EffectAt(ops, k))
  {
    ops :| CommittedBy(sc, s, staged, bumped, ops, s');
    var last := Op.Set(Seq, Num(Sequence(s) + 1));
    forall k ensures Lookup(s', k) == if k == Seq then Some(Num(Sequence(s) + 1)) else After(s, k, EffectAt(ops, k)) {
      ApplyAt(s, ops + [last], k);
      EffectSnoc(ops, last, k);
    }
  }

  function After(s: Store, k: Key, e: Effect): Option<Val> { if e.Some? then e.value else Lookup(s, k) }

  /** A record's own keys after a commit. */
  lemma CommittedOwner(sc: Schema, s: Store, staged: Staging, bumped: set<Name>, s': Store, k: Key)
    requires Committed(sc, s, staged, bumped, s') && (k.Obj? || k.Idx? || k.Ref?)
    ensures Lookup(s', k) == After(s, k, OwnerEffect(sc, staged, k)) && AllStagedOn(sc, s, staged)
  {
    var ops := CommittedAt(sc, s, staged, bumped, s');
    assert EffectAt(ops, k) == OwnerEffect(sc, staged, k);
  }

  /** The records a commit leaves behind. */
  lemma CommittedObject(sc: Schema, s: Store, staged: Staging, bumped: set<Name>, s': Store, t: Name, id: Id)
    requires Committed(sc, s, staged, bumped, s')
    ensures ObjectAt(s', t, id) == if RecKey(t, id) in staged then staged[RecKey(t, id)].next else ObjectAt(s, t, id)
  {
    CommittedOwner(sc, s, staged, bumped, s', Obj(t, id));
    if RecKey(t, id) in staged {
      assert StagedOn(sc, s, RecKey(t, id), staged[RecKey(t, id)]);
    }
  }

  // ---- Index agreement ----

  /** Every index and reference key stands for a stored record, and every stored
      record has all of its keys. */
  ghost predicate Agrees(sc: Schema, s: Store) {
    && (forall t: Name, n: Name, v: Bytes, ord: seq<Bytes>, id: Id :: IdxAgrees(sc, s, t, n, v, ord, id))
    && (forall blob: Id, t: Name, id: Id :: RefAgrees(sc, s, blob, t, id))
  }

  ghost predicate IdxAgrees(sc: Schema, s: Store, t: Name, n: Name, v: Bytes, ord: seq<Bytes>, id: Id) {
    Idx(t, n, v, ord, id) in s <==> t in sc.types && HasEntry(sc.types[t], ObjectAt(s, t, id), n, v, ord)
  }

  ghost predicate RefAgrees(sc: Schema, s: Store, blob: Id, t: Name, id: Id) {
    Ref(blob, t, id) in s <==> t in sc.types && blob in RefsOf(sc, sc.types[t], ObjectAt(s, t, id))
  }

  /** What index rows stand for, value by value: the property's own encoding, with the
      encodings of its OrderBy siblings, an empty one where there is none; or one of the
      members it lists. */
  ghost predicate StandsFor(ty: Type, o: Object, n: Name, v: Bytes, ord: seq<Bytes>) {
    && n in ty.props && n in o
    && var p := ty.props[n];
       || (&& p.indexed && p.encode(o[n]) == Ok(v) && |ord| == |p.orderBy|
           && forall i :: 0 <= i < |ord| ==> ord[i] == SiblingValue(ty, o, p.orderBy[i]))
       || (p.setIndexed && ord == [] && p.members(o[n]).Ok? && v in p.members(o[n]).value)
  }

  ghost function SiblingValue(ty: Type, o: Object, m: Name): Bytes {
    if m in ty.props && m in o && ty.props[m].encode(o[m]).Ok? then ty.props[m].encode(o[m]).value else []
  }

  lemma {:induction false} SegsAreSiblings(ty: Type, names: seq<Name>, o: Object)
    ensures |OrderSegs(ty, names, Some(o))| == |names|
    ensures forall i :: 0 <= i < |names| ==> OrderSegs(ty, names, Some(o))[i] == SiblingValue(ty, o, names[i])
  {
    if names != [] { SegsAreSiblings(ty, names[1..], o); }
  }

  /** Where index and records agree, a row is there if and only if a stored record has the
      value it stands for. */
  lemma RowsAreValues(sc: Schema, s: Store, t: Name, n: Name, v: Bytes, ord: seq<Bytes>, id: Id)
    requires Agrees(sc, s)
    ensures Idx(t, n, v, ord, id) in s <==>
      t in sc.types && ObjectAt(s, t, id).Some? && StandsFor(sc.types[t], ObjectAt(s, t, id).value, n, v, ord)
  {
    assert IdxAgrees(sc, s, t, n, v, ord, id);
    if t in sc.types && ObjectAt(s, t, id).Some? && n in sc.types[t].props {
      SegsAreSiblings(sc.types[t], sc.types[t].props[n].orderBy, ObjectAt(s, t, id).value);
    }
  }

  /** Both versions have a value in the scalar index of `n`. */
  predicate KeepsIndexed(ty: Type, prior: Option<Object>, next: Option<Object>, n: Name) {
    && n in ty.props && ty.props[n].indexed
    && IndexValue(ty.props[n], RawAt(prior, n)).Some? && IndexValue(ty.props[n], RawAt(next, n)).Some?
  }

  /** The update does not move the OrderBy siblings of a property it keeps indexed. */
  predicate OrderKept(ty: Type, prior: Option<Object>, next: Option<Object>, n: Name) {
    KeepsIndexed(ty, prior, next, n) ==>
      OrderSegs(ty, ty.props[n].orderBy, prior) == OrderSegs(ty, ty.props[n].orderBy, next)
  }

  ghost predicate AllOrderKept(sc: Schema, staged: Staging) {
    forall k, n :: k in staged && k.typ in sc.types && n in sc.types[k.typ].props
      ==> OrderKept(sc.types[k.typ], staged[k].prior, staged[k].next, n)
  }

  /** One key: if it stood for the old version, it stands for the new one. */
  lemma EntryFollows(sc: Schema, t: Name, id: Id, prior: Option<Object>, next: Option<Object>, n: Name, v: Bytes,
          ord: seq<Bytes>)
    requires t in sc.types && ValidType(sc.types[t]) && OrderKept(sc.types[t], prior, next, n)
    ensures var e := RecordEffect(sc, t, id, prior, next, Idx(t, n, v, ord, id));
      HasEntry(sc.types[t], next, n, v, ord) <==>
        (if e.Some? then e.value.Some? else HasEntry(sc.types[t], prior, n, v, ord))
  {
    var ty := sc.types[t];
    if n in ty.props && ty.props[n].setIndexed && ord == [] {
      var a, b := RawAt(prior, n), RawAt(next, n);
      if BytesOf(a) == BytesOf(b) && a != b {
        assert MembersOf(ty.props[n], Some([])) == [];
      }
    }
  }

  lemma IdxStaysInStep(sc: Schema, s: Store, staged: Staging, bumped: set<Name>, s': Store,
                       t: Name, n: Name, v: Bytes, ord: seq<Bytes>, id: Id)
    requires ValidSchema(sc) && Committed(sc, s, staged, bumped, s') && AllOrderKept(sc, staged)
    requires IdxAgrees(sc, s, t, n, v, ord, id)
    ensures IdxAgrees(sc, s', t, n, v, ord, id)
  {
    var k, r := Idx(t, n, v, ord, id), RecKey(t, id);
    CommittedObject(sc, s, staged, bumped, s', t, id);
    CommittedOwner(sc, s, staged, bumped, s', k);
    if r in staged {
      var st := staged[r];
      assert StagedOn(sc, s, r, st);
      assert OrderKept(sc.types[t], st.prior, st.next, n);
      EntryFollows(sc, t, id, st.prior, st.next, n, v, ord);
    }
  }

  lemma RefStaysInStep(sc: Schema, s: Store, staged: Staging, bumped: set<Name>, s': Store, blob: Id, t: Name, id: Id)
    requires Committed(sc, s, staged, bumped, s') && RefAgrees(sc, s, blob, t, id)
    ensures RefAgrees(sc, s', blob, t, id)
  {
    var k := Ref(blob, t, id);
    CommittedObject(sc, s, staged, bumped, s', t, id);
    CommittedOwner(sc, s, staged, bumped, s', k);
    if RecKey(t, id) in staged { assert StagedOn(sc, s, RecKey(t, id), staged[RecKey(t, id)]); }
  }

  /** Whatever mix of writes a commit holds, it keeps indexes and references in step
      with the records, provided no update moves an OrderBy sibling. */
  lemma CommitKeepsAgreement(sc: Schema, s: Store, staged: Staging, bumped: set<Name>, s': Store)
    requires ValidSchema(sc) && Agrees(sc, s) && Committed(sc, s, staged, bumped, s') && AllOrderKept(sc, staged)
    ensures Agrees(sc, s')
  {
    forall t: Name, n: Name, v: Bytes, ord: seq<Bytes>, id: Id ensures IdxAgrees(sc, s', t, n, v, ord, id) {
      assert IdxAgrees(sc, s, t, n, v, ord, id);
      IdxStaysInStep(sc, s, staged, bumped, s', t, n, v, ord, id);
    }
    forall blob: Id, t: Name, id: Id ensures RefAgrees(sc, s', blob, t, id) {
      assert RefAgrees(sc, s, blob, t, id);
      RefStaysInStep(sc, s, staged, bumped, s', blob, t, id);
    }
  }

  /** And only then: an update that moves an OrderBy sibling of a property it keeps
      indexed strands the record's old key. */
  lemma AgreementNeedsOrderKept(sc: Schema, s: Store, staged: Staging, bumped: set<Name>, s': Store)
    requires ValidSchema(sc) && Agrees(sc, s) && Committed(sc, s, staged, bumped, s') && Agrees(sc, s')
    ensures AllOrderKept(sc, staged)
  {
    forall r, n | r in staged && r.typ in sc.types && n in sc.types[r.typ].props
      ensures OrderKept(sc.types[r.typ], staged[r].prior, staged[r].next, n)
    {
      var t, id, st, ty := r.typ, r.id, staged[r], sc.types[r.typ];
      var p := ty.props[n];
      CommittedOwner(sc, s, staged, bumped, s', Obj(t, id));
      assert StagedOn(sc, s, r, st);
      if KeepsIndexed(ty, st.prior, st.next, n) {
        var v, ord := IndexValue(p, RawAt(st.prior, n)).value, OrderSegs(ty, p.orderBy, st.prior);
        var k := Idx(t, n, v, ord, id);
        assert IdxAgrees(sc, s, t, n, v, ord, id) && IdxAgrees(sc, s', t, n, v, ord, id);
        CommittedObject(sc, s, staged, bumped, s', t, id);
        CommittedOwner(sc, s, staged, bumped, s', k);
      }
    }
  }

  // ---- The log tells the truth ----

  /** A type's records as the protocol shows them. */
  function VisibleTable(sc: Schema, s: Store, t: Name): Table {
    map k | k in s && k.Obj? && k.typ == t && t in sc.types && s[k].Record? :: k.id := Visible(sc.types[t], s[k].obj)
  }

  lemma VisibleAt(sc: Schema, s: Store, t: Name, id: Id)
    requires t in sc.types
    ensures id in VisibleTable(sc, s, t) <==> ObjectAt(s, t, id).Some?
    ensures ObjectAt(s, t, id).Some? ==> VisibleTable(sc, s, t)[id] == Visible(sc.types[t], ObjectAt(s, t, id).value)
  {
    if Obj(t, id) in s && s[Obj(t, id)].Record? {
      assert Obj(t, id).id in VisibleTable(sc, s, t);
    }
  }

  ghost function ChangeOf(staged: Staging, t: Name): Change {
    Change(IdsOf(staged, t, Creates), IdsOf(staged, t, Updates), IdsOf(staged, t, Destroys))
  }

  lemma InIds(staged: Staging, t: Name, id: Id, which: Staged -> bool)
    ensures id in IdsOf(staged, t, which) <==> RecKey(t, id) in staged && which(staged[RecKey(t, id)])
  {
    if RecKey(t, id) in staged && which(staged[RecKey(t, id)]) { assert RecKey(t, id).id in IdsOf(staged, t, which); }
  }

  /** What the commit logs for a type is a legal account of how the type's visible
      data changed; and if it logs nothing, nothing visible changed. */
  lemma CommitLogsTruth(sc: Schema, s: Store, staged: Staging, bumped: set<Name>, s': Store, t: Name)
    requires Committed(sc, s, staged, bumped, s') && t in sc.types
    ensures LegalStep(VisibleTable(sc, s, t), ChangeOf(staged, t), VisibleTable(sc, s', t))
    ensures ChangeOf(staged, t).All() != {} <==> TouchesType(staged, t)
  {
    var a, c, b := VisibleTable(sc, s, t), ChangeOf(staged, t), VisibleTable(sc, s', t);
    forall id ensures RecordStep(a, c, b, id) { OneRecordTruth(sc, s, staged, bumped, s', t, id); }
    StepByRecord(a, c, b);
    TouchesIffLogged(staged, t);
  }

  lemma StepByRecord(a: Table, c: Change, b: Table)
    requires forall id :: RecordStep(a, c, b, id)
    ensures LegalStep(a, c, b)
  {
    forall id
      ensures id in c.created ==> id !in a
      ensures id in c.updated + c.destroyed ==> id in a
      ensures id in c.updated ==> id !in c.destroyed
      ensures id in b.Keys <==> id in a.Keys + c.created - c.destroyed
      ensures id in a && id !in c.All() ==> id in b && b[id] == a[id]
    {
      assert RecordStep(a, c, b, id);
    }
  }

  lemma TouchesIffLogged(staged: Staging, t: Name)
    ensures ChangeOf(staged, t).All() != {} <==> TouchesType(staged, t)
  {
    var all := ChangeOf(staged, t).All();
    forall id ensures id in all <==> RecKey(t, id) in staged && Logged(staged[RecKey(t, id)]) {
      InIds(staged, t, id, Creates);
      InIds(staged, t, id, Updates);
      InIds(staged, t, id, Destroys);
    }
    assert forall k :: k in staged && k.typ == t ==> k == RecKey(t, k.id);
    if id :| id in all { assert RecKey(t, id) in staged && RecKey(t, id).typ == t; }
  }

  /** LegalStep, for one id. */
  ghost predicate RecordStep(a: Table, c: Change, b: Table, id: Id) {
    && (id in c.created ==> id !in a)
    && (id in c.updated || id in c.destroyed ==> id in a)
    && !(id in c.updated && id in c.destroyed)
    && (id in b <==> (id in a || id in c.created) && id !in c.destroyed)
    && (id in a && id !in c.All() ==> id in b && b[id] == a[id])
  }

  lemma OneRecordTruth(sc: Schema, s: Store, staged: Staging, bumped: set<Name>, s': Store, t: Name, id: Id)
    requires Committed(sc, s, staged, bumped, s') && t in sc.types
    ensures RecordStep(VisibleTable(sc, s, t), ChangeOf(staged, t), VisibleTable(sc, s', t), id)
  {
    VisibleAt(sc, s, t, id);
    VisibleAt(sc, s', t, id);
    CommittedObject(sc, s, staged, bumped, s', t, id);
    InIds(staged, t, id, Creates);
    InIds(staged, t, id, Updates);
    InIds(staged, t, id, Destroys);
    var r := RecKey(t, id);
    if r in staged {
      var st := staged[r];
      assert StagedOn(sc, s, r, st);
      if st.quiet && st.next.Some? { VisibleDiffEmpty(sc.types[t], st.prior.value, st.next.value); }
    }
  }

  /** The reported property list covers every visible change of a reported update. */
  lemma PropsCoverUpdates(sc: Schema, s: Store, staged: Staging, bumped: set<Name>, s': Store, t: Name, id: Id)
    requires Committed(sc, s, staged, bumped, s') && t in sc.types && id in IdsOf(staged, t, Updates)
    ensures ObjectAt(s, t, id).Some? && ObjectAt(s', t, id).Some?
    ensures VisibleDiff(sc.types[t], ObjectAt(s, t, id).value, ObjectAt(s', t, id).value) <= PropsChanged(sc, staged, t)
  {
    InIds(staged, t, id, Updates);
    CommittedObject(sc, s, staged, bumped, s', t, id);
    var r := RecKey(t, id);
    assert StagedOn(sc, s, r, staged[r]);
    forall n | n in VisibleDiff(sc.types[t], ObjectAt(s, t, id).value, ObjectAt(s', t, id).value)
      ensures n in PropsChanged(sc, staged, t)
    {
      assert r in staged && r.typ == t && Updates(staged[r]);
    }
  }

  /** What a table shows: the stored records, without their Internal properties. */
  lemma ShownAs(sc: Schema, s: Store, t: Name, id: Id)
    ensures id in VisibleTable(sc, s, t) <==> t in sc.types && ObjectAt(s, t, id).Some?
    ensures id in VisibleTable(sc, s, t) ==> forall n ::
      RawAt(Some(VisibleTable(sc, s, t)[id]), n) ==
        if n in sc.types[t].props && sc.types[t].props[n].internal then None else RawAt(ObjectAt(s, t, id), n)
  {
    if t in sc.types && ObjectAt(s, t, id).Some? { assert Obj(t, id).id in VisibleTable(sc, s, t); }
  }

  /** What a commit logs of a record, by the stores around it: a creation where there was
      none before, a destruction where there is none after, and an update where there is one
      on both sides and the write was not mere bookkeeping. */
  lemma LoggedMeans(sc: Schema, s: Store, staged: Staging, bumped: set<Name>, s': Store, t: Name, id: Id)
    requires Committed(sc, s, staged, bumped, s') && t in sc.types
    ensures var c, was, now, r := ChangeOf(staged, t), ObjectAt(s, t, id), ObjectAt(s', t, id), RecKey(t, id);
      && (id in c.created <==> was.None? && now.Some?)
      && (id in c.destroyed <==> was.Some? && now.None?)
      && (id in c.updated <==> was.Some? && now.Some? && r in staged && !staged[r].quiet)
  {
    CommittedObject(sc, s, staged, bumped, s', t, id);
    CommittedOwner(sc, s, staged, bumped, s', Obj(t, id));
    InIds(staged, t, id, Creates);
    InIds(staged, t, id, Updates);
    InIds(staged, t, id, Destroys);
    if RecKey(t, id) in staged { assert StagedOn(sc, s, RecKey(t, id), staged[RecKey(t, id)]); }
  }

  /** A commit that only keeps books - every write of the type quiet - leaves its state and
      its log alone. */
  lemma QuietUnlogged(sc: Schema, s: Store, staged: Staging, bumped: set<Name>, s': Store, t: Name)
    requires Committed(sc, s, staged, bumped, s') && t in sc.types && t !in bumped
    requires forall r :: r in staged && r.typ == t ==> staged[r].quiet && staged[r].next.Some?
    ensures StateOf(s', t) == StateOf(s, t)
    ensures ChangeOf(staged, t).All() == {}
  {
    CommitLogsTruth(sc, s, staged, bumped, s', t);
    forall id ensures id !in ChangeOf(staged, t).All() {
      LoggedMeans(sc, s, staged, bumped, s', t, id);
      CommittedObject(sc, s, staged, bumped, s', t, id);
      CommittedOwner(sc, s, staged, bumped, s', Obj(t, id));
      if RecKey(t, id) in staged { assert StagedOn(sc, s, RecKey(t, id), staged[RecKey(t, id)]); }
    }
    CommittedNumbers(sc, s, staged, bumped, s', t);
  }

  /** The properties a commit lists for a type are exactly those that a reported update
      changed and that are not Internal. */
  lemma PropsAreChanges(sc: Schema, s: Store, staged: Staging, bumped: set<Name>, s': Store, t: Name, n: Name)
    requires Committed(sc, s, staged, bumped, s') && t in sc.types
    ensures n in PropsChanged(sc, staged, t) <==>
      && !(n in sc.types[t].props && sc.types[t].props[n].internal)
      && exists id :: id in ChangeOf(staged, t).updated && RawAt(ObjectAt(s, t, id), n) != RawAt(ObjectAt(s', t, id), n)
  {
    if n in PropsChanged(sc, staged, t) {
      var r :| r in staged && r.typ == t && Updates(staged[r]) && staged[r].prior.Some?
        && n in VisibleDiff(sc.types[t], staged[r].prior.value, staged[r].next.value);
      assert r == RecKey(t, r.id);
      PropChangedIn(sc, s, staged, bumped, s', t, r.id, n);
    }
    if !(n in sc.types[t].props && sc.types[t].props[n].internal) {
      if id :| id in ChangeOf(staged, t).updated && RawAt(ObjectAt(s, t, id), n) != RawAt(ObjectAt(s', t, id), n) {
        InIds(staged, t, id, Updates);
        PropChangedIn(sc, s, staged, bumped, s', t, id, n);
        assert n in VisibleDiff(sc.types[t], staged[RecKey(t, id)].prior.value, staged[RecKey(t, id)].next.value);
      }
    }
  }

  lemma PropChangedIn(sc: Schema, s: Store, staged: Staging, bumped: set<Name>, s': Store, t: Name, id: Id, n: Name)
    requires Committed(sc, s, staged, bumped, s') && t in sc.types
    requires RecKey(t, id) in staged && Updates(staged[RecKey(t, id)])
    ensures var st := staged[RecKey(t, id)];
      && id in ChangeOf(staged, t).updated && st.prior.Some?
      && (n in VisibleDiff(sc.types[t], st.prior.value, st.next.value) <==>
          && RawAt(ObjectAt(s, t, id), n) != RawAt(ObjectAt(s', t, id), n)
          && !(n in sc.types[t].props && sc.types[t].props[n].internal))
  {
    InIds(staged, t, id, Updates);
    UpdateOf(sc, s, staged, bumped, s', t, id);
    var st := staged[RecKey(t, id)];
    assert n in DiffProps(st.prior.value, st.next.value) <==> RawAt(st.prior, n) != RawAt(st.next, n);
  }

  lemma UpdateOf(sc: Schema, s: Store, staged: Staging, bumped: set<Name>, s': Store, t: Name, id: Id)
    requires Committed(sc, s, staged, bumped, s') && RecKey(t, id) in staged && Updates(staged[RecKey(t, id)])
    ensures var st := staged[RecKey(t, id)];
      st.prior.Some? && st.prior == ObjectAt(s, t, id) && st.next == ObjectAt(s', t, id)
  {
    CommittedObject(sc, s, staged, bumped, s', t, id);
    CommittedOwner(sc, s, staged, bumped, s', Obj(t, id));
    assert StagedOn(sc, s, RecKey(t, id), staged[RecKey(t, id)]);
  }

  /** What a commit does to the log, and to the numbers of the account. */
  lemma CommittedRest(sc: Schema, s: Store, staged: Staging, bumped: set<Name>, s': Store) returns (e: Effect)
    requires Committed(sc, s, staged, bumped, s')
    ensures Lookup(s', Seq) == Some(Num(Sequence(s) + 1)) && Lookup(s', Floor) == Lookup(s, Floor)
    ensures LogEffect(sc, staged, e) && Lookup(s', Log(Sequence(s) + 1)) == After(s, Log(Sequence(s) + 1), e)
    ensures forall n: nat :: n != Sequence(s) + 1 ==> Lookup(s', Log(n)) == Lookup(s, Log(n))
  {
    var ops := CommittedAt(sc, s, staged, bumped, s');
    e := EffectAt(ops, Log(Sequence(s) + 1));
    forall n: nat | n != Sequence(s) + 1 ensures Lookup(s', Log(n)) == Lookup(s, Log(n)) {
      OtherEntry(sc, s, staged, bumped, ops, s', n);
    }
  }

  lemma OtherEntry(sc: Schema, s: Store, staged: Staging, bumped: set<Name>, ops: seq<Op>, s': Store, n: nat)
    requires CommittedBy(sc, s, staged, bumped, ops, s') && n != Sequence(s) + 1
    ensures Lookup(s', Log(n)) == Lookup(s, Log(n))
  {
    var last := Op.Set(Seq, Num(Sequence(s) + 1));
    ApplyAt(s, ops + [last], Log(n));
    EffectSnoc(ops, last, Log(n));
    assert EffectAt(ops, Log(n)) == None;
  }

  lemma CommittedUpload(sc: Schema, s: Store, staged: Staging, bumped: set<Name>, s': Store, blob: Id)
    requires Committed(sc, s, staged, bumped, s')
    ensures Lookup(s', Upload(blob)) == Lookup(s, Upload(blob))
  {
    var ops := CommittedAt(sc, s, staged, bumped, s');
    assert EffectAt(ops, Upload(blob)) == None;
  }

  lemma CommittedState(sc: Schema, s: Store, staged: Staging, bumped: set<Name>, s': Store, t: Name)
    requires Committed(sc, s, staged, bumped, s')
    ensures Lookup(s', Seq) == Some(Num(Sequence(s) + 1))
    ensures Lookup(s', State(t)) == After(s, State(t), StateEffect(staged, bumped, Sequence(s) + 1, t))
  {
    var ops := CommittedAt(sc, s, staged, bumped, s');
    assert EffectAt(ops, State(t)) == StateEffect(staged, bumped, Sequence(s) + 1, t);
  }

  lemma CommittedNumbers(sc: Schema, s: Store, staged: Staging, bumped: set<Name>, s': Store, t: Name)
    requires Committed(sc, s, staged, bumped, s')
    ensures Sequence(s') == Sequence(s) + 1
    ensures StateOf(s', t) == if TouchesType(staged, t) || t in bumped then Sequence(s') else StateOf(s, t)
  {
    CommittedState(sc, s, staged, bumped, s', t);
  }

  /** The state string moves, to a number never used before, exactly when the commit
      logs the type or bumps it; otherwise the visible data is untouched. */
  lemma StateMovesWithData(sc: Schema, s: Store, staged: Staging, bumped: set<Name>, s': Store, t: Name)
    requires Committed(sc, s, staged, bumped, s') && t in sc.types
    ensures Sequence(s') == Sequence(s) + 1
    ensures StateOf(s', t) == if TouchesType(staged, t) || t in bumped then Sequence(s') else StateOf(s, t)
    ensures !TouchesType(staged, t) ==> VisibleTable(sc, s', t) == VisibleTable(sc, s, t)
  {
    CommittedNumbers(sc, s, staged, bumped, s', t);
    CommitLogsTruth(sc, s, staged, bumped, s', t);
    if !TouchesType(staged, t) { NothingLogged(VisibleTable(sc, s, t), ChangeOf(staged, t), VisibleTable(sc, s', t)); }
  }

  lemma NothingLogged(a: Table, c: Change, b: Table)
    requires LegalStep(a, c, b) && c.All() == {}
    ensures a == b
  {
    assert c.created == {} && c.destroyed == {};
  }
}
