/** Range reads of a property index (core/objectdb/objectdb.go: IdsWhereAtMost,
    IdsWhereAtLeast): the records by value, then OrderBy, then id. */
module IndexScans {
  import opened Options
  import opened ByteOrder
  import opened Records
  import opened Lists
  import opened KeyEncoding
  import opened Keys
  import opened Store
  import opened Schema
  import opened Results
  import opened Commits
  import opened QueryReply

  /** What a backend scan of a half-open key range returns: the keys in it, in byte order. */
  ghost predicate IsRange(acct: Id, s: Store, start: Bytes, end: Option<Bytes>, rows: seq<Key>) {
    && (forall i :: 0 <= i < |rows| ==> RowIn(acct, s, start, end, rows[i]))
    && (forall i, j :: 0 <= i < j < |rows| ==> RowLess(acct, rows[i], rows[j]))
    && (forall k :: RowIn(acct, s, start, end, k) ==> k in rows)
  }

  ghost predicate RowIn(acct: Id, s: Store, start: Bytes, end: Option<Bytes>, k: Key) {
    k in s && Encodable(k) && InRange(KeyBytes(acct, k), start, end)
  }

  predicate RowLess(acct: Id, a: Key, b: Key) {
    Encodable(a) && Encodable(b) && Less(KeyBytes(acct, a), KeyBytes(acct, b))
  }

  function Prefix(acct: Id, t: Name, n: Name): Tuple { [acct, [0x78], t, n] }

  // ---- The ranges ----

  /** A range inside a prefix's holds only keys with the prefix. */
  lemma InsidePrefix(p: Bytes, p': Bytes, x: Bytes)
    requires p <= p' && InRange(x, p, Successor(p'))
    ensures p <= x
  {
    RangeIsPrefix(p, p');
    RangeIsPrefix(p, x);
    RangeIsPrefix(p', x);
    Total(p', x);
    if Less(x, p') && Successor(p).Some? { Transitive(x, p', Successor(p).value); }
  }

  lemma PastStart(p: Bytes, p': Bytes, x: Bytes)
    requires p <= p' && InRange(x, p', Successor(p))
    ensures p <= x
  {
    RangeIsPrefix(p, p');
    RangeIsPrefix(p, x);
    if p != p' && p' != x && p != x { Transitive(p, p', x); }
  }

  /** The index keys of a property, and only they, have its prefix. */
  lemma PrefixKeys(acct: Id, t: Name, n: Name, k: Key)
    requires Encodable(k)
    ensures Prefix(acct, t, n) <= Segments(acct, k) <==> k.Idx? && k.typ == t && k.prop == n
    ensures k.Idx? && k.typ == t && k.prop == n ==>
      Segments(acct, k) == Prefix(acct, t, n) + ([k.value] + k.order + [k.id]) && Segments(acct, k)[4] == k.value
  {
    var segs := Segments(acct, k);
    assert segs[1][0] == 0x78 <==> k.Idx?;
    if Prefix(acct, t, n) <= segs { assert segs[1] == Prefix(acct, t, n)[1] && segs[2] == t && segs[3] == n; }
    if k.Idx? && k.typ == t && k.prop == n {
      assert segs == Prefix(acct, t, n) + ([k.value] + k.order + [k.id]);
      assert segs[..4] == Prefix(acct, t, n);
    }
  }

  /** Rows of one property scan back by value, then OrderBy, then id. */
  lemma RowOrder(acct: Id, t: Name, n: Name, a: Key, b: Key)
    requires a.Idx? && b.Idx? && a.typ == t == b.typ && a.prop == n == b.prop
    ensures RowLess(acct, a, b) <==> TupleLess([a.value] + a.order + [a.id], [b.value] + b.order + [b.id])
  {
    PrefixKeys(acct, t, n, a);
    PrefixKeys(acct, t, n, b);
    KeyOrder(Segments(acct, a), Segments(acct, b));
    TupleCommonPrefix(Prefix(acct, t, n), [a.value] + a.order + [a.id], [b.value] + b.order + [b.id]);
  }

  datatype Bound = AtMostBound(max: Bytes) | AtLeastBound(min: Bytes) | NoBound

  predicate Meets(b: Bound, v: Bytes) {
    match b
    case AtMostBound(max) => AtMost(v, max)
    case AtLeastBound(min) => AtMost(min, v)
    case NoBound => true
  }

  function StartOf(acct: Id, t: Name, n: Name, b: Bound): Bytes {
    EncodeKey(if b.AtLeastBound? then Prefix(acct, t, n) + [b.min] else Prefix(acct, t, n))
  }

  function EndOf(acct: Id, t: Name, n: Name, b: Bound): Option<Bytes> {
    Successor(EncodeKey(if b.AtMostBound? then Prefix(acct, t, n) + [b.max] else Prefix(acct, t, n)))
  }

  /** The range read holds exactly the index rows whose value meets the bound. */
  lemma RangeRows(acct: Id, t: Name, n: Name, b: Bound, k: Key)
    requires Encodable(k)
    ensures InRange(KeyBytes(acct, k), StartOf(acct, t, n, b), EndOf(acct, t, n, b))
       <==> k.Idx? && k.typ == t && k.prop == n && Meets(b, k.value)
  {
    var pre, segs := Prefix(acct, t, n), Segments(acct, k);
    PrefixKeys(acct, t, n, k);
    PrefixRangeExact(pre, segs);
    match b
    case NoBound =>
    case AtMostBound(max) =>
      KeyPrefix(pre, pre + [max]);
      if pre <= segs {
        AtMostRange(pre, max, segs);
      } else if InRange(EncodeKey(segs), EncodeKey(pre), Successor(EncodeKey(pre + [max]))) {
        InsidePrefix(EncodeKey(pre), EncodeKey(pre + [max]), EncodeKey(segs));
        KeyPrefix(pre, segs);
      }
    case AtLeastBound(min) =>
      KeyPrefix(pre, pre + [min]);
      if pre <= segs {
        AtLeastRange(pre, min, segs);
      } else if InRange(EncodeKey(segs), EncodeKey(pre + [min]), Successor(EncodeKey(pre))) {
        PastStart(EncodeKey(pre), EncodeKey(pre + [min]), EncodeKey(segs));
        KeyPrefix(pre, segs);
      }
  }

  // ---- What the rows mean ----

  function ValueAt(sc: Schema, s: Store, t: Name, n: Name, id: Id): Option<Bytes>
    requires t in sc.types && n in sc.types[t].props
  {
    IndexValue(sc.types[t].props[n], RawAt(ObjectAt(s, t, id), n))
  }

  /** Where the record stands in the index: value, OrderBy values, id. */
  function PlaceOf(sc: Schema, s: Store, t: Name, n: Name, id: Id): Tuple
    requires t in sc.types && n in sc.types[t].props && ValueAt(sc, s, t, n, id).Some?
  {
    [ValueAt(sc, s, t, n, id).value] + OrderSegs(sc.types[t], sc.types[t].props[n].orderBy, ObjectAt(s, t, id)) + [id]
  }

  /** Exactly the records whose value meets the bound, in index order. */
  ghost predicate IsIndexList(sc: Schema, s: Store, t: Name, n: Name, b: Bound, list: seq<Id>)
    requires t in sc.types && n in sc.types[t].props
  {
    && (forall id :: id in list <==> ValueAt(sc, s, t, n, id).Some? && Meets(b, ValueAt(sc, s, t, n, id).value))
    && (forall i, j :: 0 <= i < j < |list| ==> InPlace(sc, s, t, n, list[i], list[j]))
  }

  ghost predicate InPlace(sc: Schema, s: Store, t: Name, n: Name, x: Id, y: Id)
    requires t in sc.types && n in sc.types[t].props
  {
    && ValueAt(sc, s, t, n, x).Some? && ValueAt(sc, s, t, n, y).Some?
    && TupleLess(PlaceOf(sc, s, t, n, x), PlaceOf(sc, s, t, n, y))
  }

  /** An index row is a record with that value and those OrderBy values. */
  lemma RowIsRecord(sc: Schema, s: Store, t: Name, n: Name, k: Key)
    requires ValidSchema(sc) && Agrees(sc, s) && t in sc.types && n in sc.types[t].props && sc.types[t].props[n].indexed
    requires k.Idx? && k.typ == t && k.prop == n
    ensures k in s <==> RowAt(sc, s, t, n, k)
  {
    assert ValidType(sc.types[t]);
    assert IdxAgrees(sc, s, t, n, k.value, k.order, k.id);
  }

  function IdsOfRows(rows: seq<Key>): seq<Id>
    requires forall i :: 0 <= i < |rows| ==> rows[i].Idx?
  {
    seq(|rows|, i requires 0 <= i < |rows| => rows[i].id)
  }

  /** The range read lists them. */
  lemma RangeLists(sc: Schema, s: Store, acct: Id, t: Name, n: Name, b: Bound, rows: seq<Key>)
    requires ValidSchema(sc) && Agrees(sc, s) && t in sc.types && n in sc.types[t].props && sc.types[t].props[n].indexed
    requires IsRange(acct, s, StartOf(acct, t, n, b), EndOf(acct, t, n, b), rows)
    ensures forall i :: 0 <= i < |rows| ==> rows[i].Idx?
    ensures IsIndexList(sc, s, t, n, b, IdsOfRows(rows))
  {
    forall i | 0 <= i < |rows|
      ensures rows[i].Idx? && rows[i].typ == t && rows[i].prop == n && Meets(b, rows[i].value)
      ensures RowAt(sc, s, t, n, rows[i])
    {
      assert RowIn(acct, s, StartOf(acct, t, n, b), EndOf(acct, t, n, b), rows[i]);
      RangeRows(acct, t, n, b, rows[i]);
      RowIsRecord(sc, s, t, n, rows[i]);
    }
    var list := IdsOfRows(rows);
    forall id ensures id in list <==> ValueAt(sc, s, t, n, id).Some? && Meets(b, ValueAt(sc, s, t, n, id).value) {
      InList(sc, s, acct, t, n, b, rows, id);
    }
    forall i, j | 0 <= i < j < |list| ensures InPlace(sc, s, t, n, list[i], list[j]) {
      assert RowLess(acct, rows[i], rows[j]) && RowAt(sc, s, t, n, rows[i]) && RowAt(sc, s, t, n, rows[j]);
      RowOrder(acct, t, n, rows[i], rows[j]);
    }
  }

  /** The row stands for its record. */
  ghost predicate RowAt(sc: Schema, s: Store, t: Name, n: Name, k: Key)
    requires t in sc.types && n in sc.types[t].props
  {
    && k.Idx? && ValueAt(sc, s, t, n, k.id) == Some(k.value)
    && k.order == OrderSegs(sc.types[t], sc.types[t].props[n].orderBy, ObjectAt(s, t, k.id))
  }

  lemma InList(sc: Schema, s: Store, acct: Id, t: Name, n: Name, b: Bound, rows: seq<Key>, id: Id)
    requires ValidSchema(sc) && Agrees(sc, s) && t in sc.types && n in sc.types[t].props && sc.types[t].props[n].indexed
    requires IsRange(acct, s, StartOf(acct, t, n, b), EndOf(acct, t, n, b), rows)
    requires forall i :: 0 <= i < |rows| ==> rows[i].Idx? && RowAt(sc, s, t, n, rows[i]) && Meets(b, rows[i].value)
    ensures id in IdsOfRows(rows) <==> ValueAt(sc, s, t, n, id).Some? && Meets(b, ValueAt(sc, s, t, n, id).value)
  {
    var list := IdsOfRows(rows);
    if id in list {
      var i :| 0 <= i < |list| && list[i] == id;
      assert RowAt(sc, s, t, n, rows[i]);
    }
    if ValueAt(sc, s, t, n, id).Some? && Meets(b, ValueAt(sc, s, t, n, id).value) {
      var ty := sc.types[t];
      var k := Idx(t, n, ValueAt(sc, s, t, n, id).value, OrderSegs(ty, ty.props[n].orderBy, ObjectAt(s, t, id)), id);
      RowIsRecord(sc, s, t, n, k);
      RangeRows(acct, t, n, b, k);
      assert RowIn(acct, s, StartOf(acct, t, n, b), EndOf(acct, t, n, b), k);
      var i :| 0 <= i < |rows| && rows[i] == k;
      assert list[i] == id;
    }
  }

  // ---- The reads ----

  /** Append ids row by row, stopping the scan at the limit (0: none). */
  method TakeIds(rows: seq<Key>, limit: nat) returns (ids: seq<Id>)
    requires forall i :: 0 <= i < |rows| ==> rows[i].Idx?
    ensures ids == if 0 < limit < |rows| then IdsOfRows(rows)[..limit] else IdsOfRows(rows)
  {
    ids := [];
    var i := 0;
    while i < |rows| && (limit == 0 || |ids| < limit)
      invariant 0 <= i <= |rows| && ids == IdsOfRows(rows)[..i] && (limit > 0 ==> i <= limit)
    {
      ids := ids + [rows[i].id];
      i := i + 1;
    }
  }

  /** `scan` is the backend's answer to every range. */
  ghost predicate Scans(acct: Id, s: Store, scan: (Bytes, Option<Bytes>) -> seq<Key>) {
    forall start, end :: IsRange(acct, s, start, end, scan(start, end))
  }

  /** The list up to the limit. */
  ghost predicate TakesOf(sc: Schema, s: Store, t: Name, n: Name, b: Bound, limit: nat, ids: seq<Id>)
    requires t in sc.types && n in sc.types[t].props
  {
    exists full :: IsIndexList(sc, s, t, n, b, full) && ids == if 0 < limit < |full| then full[..limit] else full
  }

  method ReadIndex(sc: Schema, acct: Id, t: Name, n: Name, b: Bound, limit: nat,
          scan: (Bytes, Option<Bytes>) -> seq<Key>, ghost s: Store)
      returns (ids: seq<Id>)
    requires ValidSchema(sc) && Agrees(sc, s) && t in sc.types && n in sc.types[t].props && sc.types[t].props[n].indexed
    requires Scans(acct, s, scan)
    ensures TakesOf(sc, s, t, n, b, limit, ids)
  {
    var rows := scan(StartOf(acct, t, n, b), EndOf(acct, t, n, b));
    RangeLists(sc, s, acct, t, n, b, rows);
    ids := TakeIds(rows, limit);
    assert IsIndexList(sc, s, t, n, b, IdsOfRows(rows));
  }

  predicate Readable(sc: Schema, t: Name, n: Name, bound: Option<Raw>) {
    && t in sc.types && n in sc.types[t].props && sc.types[t].props[n].indexed
    && (bound.Some? ==> sc.types[t].props[n].encode(bound.value).Ok?)
  }

  /** The records whose value is at most `max`, by value, then OrderBy, then id. */
  method IdsWhereAtMost(sc: Schema, acct: Id, t: Name, n: Name, max: Option<Raw>, limit: nat,
          scan: (Bytes, Option<Bytes>) -> seq<Key>, ghost s: Store)
      returns (r: Result<seq<Id>>)
    requires ValidSchema(sc) && Agrees(sc, s) && Scans(acct, s, scan)
    ensures r.Ok? <==>
      && t in sc.types && n in sc.types[t].props && sc.types[t].props[n].indexed
      && (max.Some? ==> sc.types[t].props[n].encode(max.value).Ok?)
    ensures r.Ok? ==>
      var b := if max.Some? then AtMostBound(sc.types[t].props[n].encode(max.value).value) else NoBound;
      TakesOf(sc, s, t, n, b, limit, r.value)
  {
    if !Readable(sc, t, n, max) {
      return Err;
    }
    var b := if max.Some? then AtMostBound(sc.types[t].props[n].encode(max.value).value) else NoBound;
    var ids := ReadIndex(sc, acct, t, n, b, limit, scan, s);
    r := Ok(ids);
  }

  /** The records whose value is at least `min`, in the same order. */
  method IdsWhereAtLeast(sc: Schema, acct: Id, t: Name, n: Name, min: Option<Raw>, limit: nat,
          scan: (Bytes, Option<Bytes>) -> seq<Key>, ghost s: Store)
      returns (r: Result<seq<Id>>)
    requires ValidSchema(sc) && Agrees(sc, s) && Scans(acct, s, scan)
    ensures r.Ok? <==>
      && t in sc.types && n in sc.types[t].props && sc.types[t].props[n].indexed
      && (min.Some? ==> sc.types[t].props[n].encode(min.value).Ok?)
    ensures r.Ok? ==>
      var b := if min.Some? then AtLeastBound(sc.types[t].props[n].encode(min.value).value) else NoBound;
      TakesOf(sc, s, t, n, b, limit, r.value)
  {
    if !Readable(sc, t, n, min) {
      return Err;
    }
    var b := if min.Some? then AtLeastBound(sc.types[t].props[n].encode(min.value).value) else NoBound;
    var ids := ReadIndex(sc, acct, t, n, b, limit, scan, s);
    r := Ok(ids);
  }

  /** What the narrowed evaluation of an upToId anchor is restricted to. */
  lemma AtMostRestricts(sc: Schema, s: Store, t: Name, n: Name, enc: Raw -> Bytes, v: Bytes, db: Table, ids: seq<Id>)
    requires t in sc.types && n in sc.types[t].props && TakesOf(sc, s, t, n, AtMostBound(v), 0, ids)
    requires forall id :: (id in db <==> ObjectAt(s, t, id).Some?) && (id in db ==> db[id] == ObjectAt(s, t, id).value)
    requires forall id :: id in db && n in db[id] ==> sc.types[t].props[n].encode(db[id][n]) == Ok(enc(db[id][n]))
    ensures Elems(ids) == AtMostIds(db, n, enc, v).Keys
  {
    var full :| IsIndexList(sc, s, t, n, AtMostBound(v), full) && ids == full;
    forall id ensures id in Elems(ids) <==> id in AtMostIds(db, n, enc, v) {
      assert id in full <==> ValueAt(sc, s, t, n, id).Some? && Meets(AtMostBound(v), ValueAt(sc, s, t, n, id).value);
    }
  }
}
