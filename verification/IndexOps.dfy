/** The batch operations one record contributes to a commit (core/objectdb:
    indexOps, setIndexOps, refOps). Each is specified key by key: what the batch
    does to a key after the call, given what it did before. */
module IndexOps {
  import opened Options
  import opened ByteOrder
  import opened Records
  import opened Keys
  import opened Store
  import opened Schema

  type Effect = Option<Option<Val>>

  function Over(later: Effect, earlier: Effect): Effect { if later.Some? then later else earlier }

  // ---- Scalar index ----

  /** What indexOps does to the key of (value, order) in the index of `n`. When the
      value moves, both keys carry the OrderBy segments of the new record. */
  function ScalarEffect(ty: Type, prior: Option<Object>, next: Option<Object>, n: Name, value: Bytes,
          order: seq<Bytes>): Effect
    requires n in ty.props
  {
    var p := ty.props[n];
    var o, m := IndexValue(p, RawAt(prior, n)), IndexValue(p, RawAt(next, n));
    if o == m then None
    else if m == Some(value) && order == OrderSegs(ty, p.orderBy, next) then Some(Some(Mark))
    else if o == Some(value) && order == OrderSegs(ty, p.orderBy, if m.None? then prior else next) then Some(None)
    else None
  }

  /** A present value that does not encode fails the commit. */
  predicate Encodes(p: Property, raw: Option<Raw>) { raw.Some? ==> p.encode(raw.value).Ok? }

  /** The OrderBy values a key is built from encode. */
  predicate OrderEncodes(ty: Type, names: seq<Name>, o: Option<Object>) {
    forall m :: m in names && m in ty.props ==> Encodes(ty.props[m], RawAt(o, m))
  }

  /** indexOps accepts the property: both versions' values encode, and where the value
      moves so do the OrderBy values of the record whose segments the keys carry. */
  predicate ScalarFine(ty: Type, prior: Option<Object>, next: Option<Object>, n: Name)
    requires n in ty.props
  {
    var p := ty.props[n];
    && Encodes(p, RawAt(prior, n)) && Encodes(p, RawAt(next, n))
    && (IndexValue(p, RawAt(prior, n)) != IndexValue(p, RawAt(next, n)) ==>
          OrderEncodes(ty, p.orderBy, if RawAt(next, n).None? then prior else next))
  }

  function IsScalarKey(t: Name, ty: Type, id: Id, done: set<Name>, k: Key): bool {
    k.Idx? && k.typ == t && k.id == id && k.prop in done && k.prop in ty.props && ty.props[k.prop].indexed
  }

  /** The batch after the scalar index of the properties in `done` was brought up to date. */
  function ScalarOver(t: Name, ty: Type, id: Id, prior: Option<Object>, next: Option<Object>, done: set<Name>,
          ops: seq<Op>, k: Key): Effect {
    if IsScalarKey(t, ty, id, done, k)
    then Over(ScalarEffect(ty, prior, next, k.prop, k.value, k.order), EffectAt(ops, k))
    else EffectAt(ops, k)
  }

  method ScalarOps(b: Batch, t: Name, ty: Type, id: Id, prior: Option<Object>, next: Option<Object>, n: Name)
      returns (ok: bool)
    requires n in ty.props && ty.props[n].indexed
    modifies b
    ensures ok <==> ScalarFine(ty, prior, next, n)
    ensures ok ==> forall k :: EffectAt(b.ops, k) == ScalarOver(t, ty, id, prior, next, {n}, old(b.ops), k)
  {
    var p := ty.props[n];
    if !Encodes(p, RawAt(prior, n)) || !Encodes(p, RawAt(next, n)) {
      return false;
    }
    var o, m := IndexValue(p, RawAt(prior, n)), IndexValue(p, RawAt(next, n));
    if o == m {
    } else if o.None? {
      if !OrderEncodes(ty, p.orderBy, next) { return false; }
      b.Set(Idx(t, n, m.value, OrderSegs(ty, p.orderBy, next), id), Mark);
    } else if m.None? {
      if !OrderEncodes(ty, p.orderBy, prior) { return false; }
      b.Delete(Idx(t, n, o.value, OrderSegs(ty, p.orderBy, prior), id));
    } else {
      if !OrderEncodes(ty, p.orderBy, next) { return false; }
      b.Delete(Idx(t, n, o.value, OrderSegs(ty, p.orderBy, next), id));
      b.Set(Idx(t, n, m.value, OrderSegs(ty, p.orderBy, next), id), Mark);
    }
    return true;
  }

  /** The properties are visited in no particular order. */
  method AllScalarOps(b: Batch, t: Name, ty: Type, id: Id, prior: Option<Object>, next: Option<Object>)
      returns (ok: bool)
    modifies b
    ensures ok <==> forall n :: n in ty.props && ty.props[n].indexed ==> ScalarFine(ty, prior, next, n)
    ensures ok ==> forall k :: EffectAt(b.ops, k) == ScalarOver(t, ty, id, prior, next, ty.props.Keys, old(b.ops), k)
  {
    var todo := ty.props.Keys;
    while todo != {}
      invariant todo <= ty.props.Keys
      invariant forall n :: n in ty.props && n !in todo && ty.props[n].indexed ==> ScalarFine(ty, prior, next, n)
      invariant ScalarDone(t, ty, id, prior, next, ty.props.Keys - todo, old(b.ops), b.ops)
    {
      var n :| n in todo;
      ghost var done, ops := ty.props.Keys - todo, b.ops;
      todo := todo - {n};
      if ty.props[n].indexed {
        ok := ScalarOps(b, t, ty, id, prior, next, n);
        if !ok { return; }
      }
      assert ty.props.Keys - todo == done + {n};
      ScalarMore(t, ty, id, prior, next, done, n, old(b.ops), ops, b.ops);
    }
    assert ty.props.Keys - todo == ty.props.Keys;
    ok := true;
  }

  ghost predicate ScalarDone(t: Name, ty: Type, id: Id, prior: Option<Object>, next: Option<Object>, done: set<Name>,
          ops0: seq<Op>, ops: seq<Op>) {
    forall k :: EffectAt(ops, k) == ScalarOver(t, ty, id, prior, next, done, ops0, k)
  }

  lemma ScalarMore(t: Name, ty: Type, id: Id, prior: Option<Object>, next: Option<Object>, done: set<Name>, n: Name,
          ops0: seq<Op>, ops: seq<Op>, ops': seq<Op>)
    requires n in ty.props && n !in done && ScalarDone(t, ty, id, prior, next, done, ops0, ops)
    requires if ty.props[n].indexed then ScalarDone(t, ty, id, prior, next, {n}, ops, ops') else ops' == ops
    ensures ScalarDone(t, ty, id, prior, next, done + {n}, ops0, ops')
  {
    forall k ensures EffectAt(ops', k) == ScalarOver(t, ty, id, prior, next, done + {n}, ops0, k) {
      assert EffectAt(ops, k) == ScalarOver(t, ty, id, prior, next, done, ops0, k);
      if ty.props[n].indexed { assert EffectAt(ops', k) == ScalarOver(t, ty, id, prior, next, {n}, ops, k); }
    }
  }

  // ---- Set index ----

  /** Absent and empty raw values compare equal, as nil and empty byte slices do. */
  function BytesOf(raw: Option<Raw>): Raw { if raw.Some? then raw.value else [] }

  function MemberEffect(p: Property, prior: Option<Raw>, next: Option<Raw>, value: Bytes): Effect {
    if BytesOf(prior) == BytesOf(next) then None
    else if value in MembersOf(p, next) && value !in MembersOf(p, prior) then Some(Some(Mark))
    else if value in MembersOf(p, prior) && value !in MembersOf(p, next) then Some(None)
    else None
  }

  predicate ListsMembers(p: Property, raw: Option<Raw>) { raw.Some? ==> p.members(raw.value).Ok? }

  /** setIndexOps accepts the property: its bytes stand still, or both versions list
      their members. */
  predicate MemberFine(p: Property, prior: Option<Raw>, next: Option<Raw>) {
    BytesOf(prior) == BytesOf(next) || (ListsMembers(p, prior) && ListsMembers(p, next))
  }

  function IsMemberKey(t: Name, ty: Type, id: Id, done: set<Name>, k: Key): bool {
    && k.Idx? && k.typ == t && k.id == id && k.order == []
    && k.prop in done && k.prop in ty.props && ty.props[k.prop].setIndexed
  }

  /** The batch after the set index of the properties in `done` was brought up to date. */
  function MemberOver(t: Name, ty: Type, id: Id, prior: Option<Object>, next: Option<Object>, done: set<Name>,
          ops: seq<Op>, k: Key): Effect {
    if IsMemberKey(t, ty, id, done, k)
    then Over(MemberEffect(ty.props[k.prop], RawAt(prior, k.prop), RawAt(next, k.prop), k.value), EffectAt(ops, k))
    else EffectAt(ops, k)
  }

  method MemberOps(b: Batch, t: Name, ty: Type, id: Id, prior: Option<Object>, next: Option<Object>, n: Name)
      returns (ok: bool)
    requires n in ty.props && ty.props[n].setIndexed
    modifies b
    ensures ok <==> MemberFine(ty.props[n], RawAt(prior, n), RawAt(next, n))
    ensures ok ==> forall k :: EffectAt(b.ops, k) == MemberOver(t, ty, id, prior, next, {n}, old(b.ops), k)
  {
    var p, oldRaw, newRaw := ty.props[n], RawAt(prior, n), RawAt(next, n);
    if BytesOf(oldRaw) == BytesOf(newRaw) {
      return true;
    }
    if !ListsMembers(p, oldRaw) || !ListsMembers(p, newRaw) {
      return false;
    }
    var oldM, newM := MembersOf(p, oldRaw), MembersOf(p, newRaw);
    DropMembers(b, t, n, id, oldM, newM);
    AddMembers(b, t, n, id, newM, oldM);
    return true;
  }

  /** The key of a member of `held` that is not one of `others`. */
  predicate MemberKey(t: Name, n: Name, id: Id, held: seq<Bytes>, others: seq<Bytes>, k: Key) {
    k.Idx? && k.typ == t && k.prop == n && k.order == [] && k.id == id && k.value in held && k.value !in others
  }

  method DropMembers(b: Batch, t: Name, n: Name, id: Id, was: seq<Bytes>, now: seq<Bytes>)
    modifies b
    ensures forall k ::
      EffectAt(b.ops, k) == if MemberKey(t, n, id, was, now, k) then Some(None) else EffectAt(old(b.ops), k)
  {
    for i := 0 to |was|
      invariant forall k ::
        EffectAt(b.ops, k) == if MemberKey(t, n, id, was[..i], now, k) then Some(None) else EffectAt(old(b.ops), k)
    {
      assert was[..i + 1] == was[..i] + [was[i]];
      if was[i] !in now {
        b.Delete(Idx(t, n, was[i], [], id));
      }
    }
    assert was[..|was|] == was;
  }

  method AddMembers(b: Batch, t: Name, n: Name, id: Id, now: seq<Bytes>, was: seq<Bytes>)
    modifies b
    ensures forall k ::
      EffectAt(b.ops, k) == if MemberKey(t, n, id, now, was, k) then Some(Some(Mark)) else EffectAt(old(b.ops), k)
  {
    for i := 0 to |now|
      invariant forall k ::
        EffectAt(b.ops, k) ==
          if MemberKey(t, n, id, now[..i], was, k) then Some(Some(Mark)) else EffectAt(old(b.ops), k)
    {
      assert now[..i + 1] == now[..i] + [now[i]];
      if now[i] !in was {
        b.Set(Idx(t, n, now[i], [], id), Mark);
      }
    }
    assert now[..|now|] == now;
  }

  method AllMemberOps(b: Batch, t: Name, ty: Type, id: Id, prior: Option<Object>, next: Option<Object>)
      returns (ok: bool)
    modifies b
    ensures ok <==>
      forall n :: n in ty.props && ty.props[n].setIndexed ==> MemberFine(ty.props[n], RawAt(prior, n), RawAt(next, n))
    ensures ok ==> forall k :: EffectAt(b.ops, k) == MemberOver(t, ty, id, prior, next, ty.props.Keys, old(b.ops), k)
  {
    var todo := ty.props.Keys;
    while todo != {}
      invariant todo <= ty.props.Keys
      invariant forall n :: n in ty.props && n !in todo && ty.props[n].setIndexed
                  ==> MemberFine(ty.props[n], RawAt(prior, n), RawAt(next, n))
      invariant MemberDone(t, ty, id, prior, next, ty.props.Keys - todo, old(b.ops), b.ops)
    {
      var n :| n in todo;
      ghost var done, ops := ty.props.Keys - todo, b.ops;
      todo := todo - {n};
      if ty.props[n].setIndexed {
        ok := MemberOps(b, t, ty, id, prior, next, n);
        if !ok { return; }
      }
      assert ty.props.Keys - todo == done + {n};
      MemberMore(t, ty, id, prior, next, done, n, old(b.ops), ops, b.ops);
    }
    assert ty.props.Keys - todo == ty.props.Keys;
    ok := true;
  }

  ghost predicate MemberDone(t: Name, ty: Type, id: Id, prior: Option<Object>, next: Option<Object>, done: set<Name>,
          ops0: seq<Op>, ops: seq<Op>) {
    forall k :: EffectAt(ops, k) == MemberOver(t, ty, id, prior, next, done, ops0, k)
  }

  lemma MemberMore(t: Name, ty: Type, id: Id, prior: Option<Object>, next: Option<Object>, done: set<Name>, n: Name,
          ops0: seq<Op>, ops: seq<Op>, ops': seq<Op>)
    requires n in ty.props && n !in done && MemberDone(t, ty, id, prior, next, done, ops0, ops)
    requires if ty.props[n].setIndexed then MemberDone(t, ty, id, prior, next, {n}, ops, ops') else ops' == ops
    ensures MemberDone(t, ty, id, prior, next, done + {n}, ops0, ops')
  {
    forall k ensures EffectAt(ops', k) == MemberOver(t, ty, id, prior, next, done + {n}, ops0, k) {
      assert EffectAt(ops, k) == MemberOver(t, ty, id, prior, next, done, ops0, k);
      if ty.props[n].setIndexed { assert EffectAt(ops', k) == MemberOver(t, ty, id, prior, next, {n}, ops, k); }
    }
  }

  // ---- Blob references and pending hints ----

  function RefEffect(was: set<Id>, now: set<Id>, blob: Id): Effect {
    if blob in was && blob !in now then Some(None)
    else if blob in now && blob !in was then Some(Some(Mark))
    else None
  }

  /** A dropped reference nominates the blob for collection, an added one clears it. */
  function HintEffect(was: set<Id>, now: set<Id>, blob: Id): Effect {
    if blob in was && blob !in now then Some(Some(Mark))
    else if blob in now && blob !in was then Some(None)
    else None
  }

  /** The batch after the references in `done` that only `was` or only `now` holds. */
  function RefOver(t: Name, id: Id, was: set<Id>, now: set<Id>, done: set<Id>, ops: seq<Op>, k: Key): Effect {
    if k.Ref? && k.typ == t && k.id == id && k.blob in done then Over(RefEffect(was, now, k.blob), EffectAt(ops, k))
    else if k.Pending? && k.blob in done then Over(HintEffect(was, now, k.blob), EffectAt(ops, k))
    else EffectAt(ops, k)
  }

  method RefOps(b: Batch, t: Name, id: Id, was: set<Id>, now: set<Id>)
    modifies b
    ensures forall k :: EffectAt(b.ops, k) == RefOver(t, id, was, now, was + now, old(b.ops), k)
  {
    var todo := was;
    while todo != {}
      invariant todo <= was
      invariant forall k :: EffectAt(b.ops, k) == RefOver(t, id, was, now, was - todo - now, old(b.ops), k)
    {
      var blob :| blob in todo;
      todo := todo - {blob};
      if blob !in now {
        b.Delete(Ref(blob, t, id));
        b.Set(Pending(blob), Mark);
      }
    }
    todo := now;
    while todo != {}
      invariant todo <= now
      invariant forall k ::
        EffectAt(b.ops, k) == RefOver(t, id, was, now, (was - now) + (now - todo - was), old(b.ops), k)
    {
      var blob :| blob in todo;
      todo := todo - {blob};
      if blob !in was {
        b.Set(Ref(blob, t, id), Mark);
        b.Delete(Pending(blob));
      }
    }
  }

  // ---- One record ----

  /** What a record's operations do to a key. */
  function RecordEffect(sc: Schema, t: Name, id: Id, prior: Option<Object>, next: Option<Object>, k: Key): Effect
    requires t in sc.types
  {
    var ty := sc.types[t];
    match k
    case Obj(t', id') =>
      if t' == t && id' == id then Some(if next.Some? then Some(Record(next.value)) else None) else None
    case Idx(t', n, v, ord, id') =>
      if !(t' == t && id' == id && n in ty.props) then None
      else if ty.props[n].indexed then ScalarEffect(ty, prior, next, n, v, ord)
      else if ty.props[n].setIndexed && ord == [] then MemberEffect(ty.props[n], RawAt(prior, n), RawAt(next, n), v)
      else None
    case Ref(blob, t', id') =>
      if t' == t && id' == id then RefEffect(RefsOf(sc, ty, prior), RefsOf(sc, ty, next), blob) else None
    case Pending(blob) => HintEffect(RefsOf(sc, ty, prior), RefsOf(sc, ty, next), blob)
    case _ => None
  }

  /** The record is accepted: every indexed property is. */
  ghost predicate RecordFine(ty: Type, prior: Option<Object>, next: Option<Object>) {
    && (forall n :: n in ty.props && ty.props[n].indexed ==> ScalarFine(ty, prior, next, n))
    && (forall n :: n in ty.props && ty.props[n].setIndexed ==>
      MemberFine(ty.props[n], RawAt(prior, n), RawAt(next, n)))
  }

  method RecordOps(b: Batch, sc: Schema, t: Name, id: Id, prior: Option<Object>, next: Option<Object>)
      returns (ok: bool)
    requires t in sc.types && ValidType(sc.types[t])
    modifies b
    ensures ok <==> RecordFine(sc.types[t], prior, next)
    ensures ok ==>
      forall k :: EffectAt(b.ops, k) == Over(RecordEffect(sc, t, id, prior, next, k), EffectAt(old(b.ops), k))
  {
    var ty := sc.types[t];
    ghost var ops0 := b.ops;
    if next.Some? {
      b.Set(Obj(t, id), Record(next.value));
    } else {
      b.Delete(Obj(t, id));
    }
    ghost var ops1 := b.ops;
    ok := AllScalarOps(b, t, ty, id, prior, next);
    if !ok { return; }
    ghost var ops2 := b.ops;
    RefOps(b, t, id, RefsOf(sc, ty, prior), RefsOf(sc, ty, next));
    ghost var ops3 := b.ops;
    ok := AllMemberOps(b, t, ty, id, prior, next);
    if !ok { return; }
    forall k ensures EffectAt(b.ops, k) == Over(RecordEffect(sc, t, id, prior, next, k), EffectAt(ops0, k)) {
      AllTogether(sc, t, id, prior, next, k, ops0, ops1, ops2, ops3, b.ops);
    }
  }

  lemma AllTogether(sc: Schema, t: Name, id: Id, prior: Option<Object>, next: Option<Object>, k: Key,
                    ops0: seq<Op>, ops1: seq<Op>, ops2: seq<Op>, ops3: seq<Op>, ops4: seq<Op>)
    requires t in sc.types && ValidType(sc.types[t])
    requires EffectAt(ops1, k) ==
      if k == Obj(t, id) then Some(if next.Some? then Some(Record(next.value)) else None)
      else EffectAt(ops0, k)
    requires EffectAt(ops2, k) == ScalarOver(t, sc.types[t], id, prior, next, sc.types[t].props.Keys, ops1, k)
    requires var was, now := RefsOf(sc, sc.types[t], prior), RefsOf(sc, sc.types[t], next);
      EffectAt(ops3, k) == RefOver(t, id, was, now, was + now, ops2, k)
    requires EffectAt(ops4, k) == MemberOver(t, sc.types[t], id, prior, next, sc.types[t].props.Keys, ops3, k)
    ensures EffectAt(ops4, k) == Over(RecordEffect(sc, t, id, prior, next, k), EffectAt(ops0, k))
  {
  }
}
