/** Sorting a query's records (core/runtime/query.go: ordering, sortRecords): decorate,
    sort a permutation of positions or only its window, undecorate. */
module RecordSort {
  import opened ByteOrder
  import opened Records
  import opened Lists
  import opened Schema
  import opened Results
  import opened Comparators
  import Selection

  datatype QueryRecord = QueryRecord(id: Id, obj: Object)

  /** The comparators in turn; the first that tells the records apart decides. */
  function CompareRecords(cmps: seq<Comparator>, a: Object, b: Object): int {
    if cmps == [] then 0
    else
      var r := CompareValues(cmps[0], ValueOf(cmps[0], a), ValueOf(cmps[0], b));
      if r != 0 then r else CompareRecords(cmps[1..], a, b)
  }

  function SortQuery(cmps: seq<Comparator>, matches: Object -> bool): Query {
    Query(matches, (a: Object, b: Object) => CompareRecords(cmps, a, b))
  }

  ghost function Values(c: Comparator, recs: set<Object>): set<SortValue> { set o | o in recs :: ValueOf(c, o) }

  /** Every comparator decodes to its form and is consistent on the records. */
  ghost predicate Comparable(cmps: seq<Comparator>, recs: set<Object>) {
    forall c :: c in cmps ==> Consistent(c, Values(c, recs))
  }

  lemma {:induction false} ComparesBothWays(cmps: seq<Comparator>, recs: set<Object>, a: Object, b: Object)
    requires Comparable(cmps, recs) && a in recs && b in recs
    ensures CompareRecords(cmps, a, b) < 0 <==> CompareRecords(cmps, b, a) > 0
  {
    if cmps != [] {
      var c := cmps[0];
      assert c in cmps && ValueOf(c, a) in Values(c, recs) && ValueOf(c, b) in Values(c, recs);
      assert Mirrored(c, ValueOf(c, a), ValueOf(c, b)) && Mirrored(c, ValueOf(c, b), ValueOf(c, a));
      ComparesBothWays(cmps[1..], recs, a, b);
      ComparesBothWays(cmps[1..], recs, b, a);
    }
  }

  lemma {:induction false} ComparesInChains(cmps: seq<Comparator>, recs: set<Object>, a: Object, b: Object, d: Object)
    requires Comparable(cmps, recs) && a in recs && b in recs && d in recs
    requires CompareRecords(cmps, a, b) <= 0 && CompareRecords(cmps, b, d) <= 0
    ensures CompareRecords(cmps, a, d) <= 0
  {
    if cmps != [] {
      var c := cmps[0];
      var x, y, z := ValueOf(c, a), ValueOf(c, b), ValueOf(c, d);
      assert c in cmps;
      HeadChains(c, recs, x, y, z);
      if CompareValues(c, x, y) == 0 && CompareValues(c, y, z) == 0 { ComparesInChains(cmps[1..], recs, a, b, d); }
    }
  }

  lemma HeadChains(c: Comparator, recs: set<Object>, x: SortValue, y: SortValue, z: SortValue)
    requires Consistent(c, Values(c, recs)) && x in Values(c, recs) && y in Values(c, recs) && z in Values(c, recs)
    requires CompareValues(c, x, y) <= 0 && CompareValues(c, y, z) <= 0
    ensures CompareValues(c, x, z) <= 0
    ensures CompareValues(c, x, z) == 0 <==> CompareValues(c, x, y) == 0 && CompareValues(c, y, z) == 0
  {
    assert Chained(c, x, y, z) && Mirrored(c, x, z) && Mirrored(c, z, x);
    assert Mirrored(c, x, y) && Mirrored(c, y, x) && Mirrored(c, y, z) && Mirrored(c, z, y);
    assert Chained(c, z, x, y) && Chained(c, y, z, x) && Chained(c, z, y, x);
  }

  lemma ComparatorsOrderly(cmps: seq<Comparator>, matches: Object -> bool, recs: set<Object>)
    requires Comparable(cmps, recs)
    ensures Orderly(SortQuery(cmps, matches), recs)
  {
    var q := SortQuery(cmps, matches);
    forall a, b | a in recs && b in recs ensures q.cmp(a, b) < 0 <==> q.cmp(b, a) > 0 {
      ComparesBothWays(cmps, recs, a, b);
    }
    forall a, b, d | a in recs && b in recs && d in recs && q.cmp(a, b) <= 0 && q.cmp(b, d) <= 0
      ensures q.cmp(a, d) <= 0
    {
      ComparesInChains(cmps, recs, a, b, d);
    }
  }

  // ---- The order a request means ----

  /** The first record comes before the second: under the first comparator that tells them
      apart, in its direction, and by id where none does. */
  ghost predicate Ranked(cmps: seq<Comparator>, a: Object, b: Object, aId: Id, bId: Id) {
    if cmps == [] then Less(aId, bId)
    else
      var x, y := ValueOf(cmps[0], a), ValueOf(cmps[0], b);
      Follows(cmps[0], x, y) && (Follows(cmps[0], y, x) ==> Ranked(cmps[1..], a, b, aId, bId))
  }

  /** The comparators decode the records to their forms. */
  ghost predicate Decodes(cmps: seq<Comparator>, recs: set<Object>) {
    forall c, o :: c in cmps && o in recs ==> Fits(c, ValueOf(c, o))
  }

  lemma {:induction false} RankedIsBefore(cmps: seq<Comparator>, a: Object, b: Object, aId: Id, bId: Id)
    requires Decodes(cmps, {a, b})
    ensures Ranked(cmps, a, b, aId, bId) <==>
      (CompareRecords(cmps, a, b) < 0 || (CompareRecords(cmps, a, b) == 0 && Less(aId, bId)))
  {
    if cmps != [] {
      assert cmps[0] in cmps && a in {a, b} && b in {a, b};
      ComparesAsMeant(cmps[0], ValueOf(cmps[0], a), ValueOf(cmps[0], b));
      assert forall c :: c in cmps[1..] ==> c in cmps;
      RankedIsBefore(cmps[1..], a, b, aId, bId);
    }
  }

  /** A list is the result of a sorted query if and only if it holds the matching records,
      each before all those it is meant to come before. */
  lemma SortedAsMeant(cmps: seq<Comparator>, matches: Object -> bool, db: Table, list: seq<Id>)
    requires var q := SortQuery(cmps, matches); Decodes(cmps, Matched(q, db))
    ensures IsResult(SortQuery(cmps, matches), db, list) <==>
      && (forall id :: id in list <==> id in db && matches(db[id]))
      && (forall i, j :: 0 <= i < j < |list| ==>
        list[i] in db && list[j] in db && Ranked(cmps, db[list[i]], db[list[j]], list[i], list[j]))
  {
    var q := SortQuery(cmps, matches);
    assert Elems(list) == Matching(q, db) <==> forall id :: id in list <==> id in db && matches(db[id]) by {
      assert forall id :: id in Elems(list) <==> id in list;
      assert forall id :: id in Matching(q, db) <==> id in db && matches(db[id]);
    }
    if forall id :: id in list <==> id in db && matches(db[id]) {
      forall i, j | 0 <= i < j < |list|
        ensures list[i] in db && list[j] in db
        ensures Before(q, db, list[i], list[j]) <==> Ranked(cmps, db[list[i]], db[list[j]], list[i], list[j])
      {
        assert list[i] in list && list[j] in list;
        assert db[list[i]] in Matched(q, db) && db[list[j]] in Matched(q, db);
        RankedIsBefore(cmps, db[list[i]], db[list[j]], list[i], list[j]);
      }
    }
  }

  /** By the first comparator alone, in the values it decodes: ascending values rise along
      the list, descending ones fall, and records without one come first or last. */
  lemma FirstComparatorDecides(cmps: seq<Comparator>, matches: Object -> bool, db: Table, list: seq<Id>, i: nat, j: nat)
    requires cmps != [] && Decodes(cmps, Matched(SortQuery(cmps, matches), db))
    requires IsResult(SortQuery(cmps, matches), db, list) && i < j < |list|
    ensures list[i] in db && list[j] in db
    ensures var c := cmps[0];
      var a, b := ValueOf(c, db[list[i]]), ValueOf(c, db[list[j]]);
      && (a.Number? && b.Number? ==> if c.descending then a.num >= b.num else a.num <= b.num)
      && (a.Keyed? && b.Keyed? ==> a.key == b.key || if c.descending then Less(b.key, a.key) else Less(a.key, b.key))
      && (a.Digits? && b.Digits? ==>
          && AllDigits(a.run) && AllDigits(b.run)
          && if c.descending then Value(a.run) >= Value(b.run) else Value(a.run) <= Value(b.run))
      && (a.Absent? != b.Absent? ==> if c.descending then b.Absent? else a.Absent?)
  {
    SortedAsMeant(cmps, matches, db, list);
    var c := cmps[0];
    assert Ranked(cmps, db[list[i]], db[list[j]], list[i], list[j]);
    assert list[i] in list && list[j] in list;
    assert db[list[i]] in Matched(SortQuery(cmps, matches), db) && db[list[j]] in Matched(SortQuery(cmps, matches), db);
    assert c in cmps && Fits(c, ValueOf(c, db[list[i]])) && Fits(c, ValueOf(c, db[list[j]]));
  }

  /** Records the first comparator does not tell apart are ordered by the rest. */
  lemma LaterComparatorsDecide(cmps: seq<Comparator>, matches: Object -> bool, db: Table, list: seq<Id>, i: nat, j: nat)
    requires cmps != [] && Decodes(cmps, Matched(SortQuery(cmps, matches), db))
    requires IsResult(SortQuery(cmps, matches), db, list) && i < j < |list|
    requires list[i] in db && list[j] in db && ValueOf(cmps[0], db[list[i]]) == ValueOf(cmps[0], db[list[j]])
    ensures Ranked(cmps[1..], db[list[i]], db[list[j]], list[i], list[j])
  {
    SortedAsMeant(cmps, matches, db, list);
    assert Ranked(cmps, db[list[i]], db[list[j]], list[i], list[j]);
  }

  // ---- Kinds ----

  /** What the comparator makes of the values its property's kind check accepts: they all
      decode, or - objects and arrays, of which at most a null does - those that decode
      are one and the same. */
  ghost predicate KindSorts(p: Property, c: Comparator) {
    && (forall raw :: p.check(raw) ==> Fits(c, c.decode(raw)))
    && (|| c.form.AsciiNumeric?
        || (forall raw :: p.check(raw) ==> Usable(c.decode(raw)))
        || (forall a, b :: p.check(a) && p.check(b) && Usable(c.decode(a)) && Usable(c.decode(b)) ==>
          c.decode(a) == c.decode(b)))
  }

  /** The comparator's values of the records are absent or have passed the check. */
  ghost predicate ChecksAt(p: Property, c: Comparator, recs: set<Object>) {
    forall o :: o in recs && c.name in o ==> p.check(o[c.name])
  }

  /** Kind-checked records are ordered consistently. */
  lemma CheckedConsistent(p: Property, c: Comparator, recs: set<Object>)
    requires KindSorts(p, c) && ChecksAt(p, c, recs)
    ensures Consistent(c, Values(c, recs))
  {
    var vs := Values(c, recs);
    forall v | v in vs ensures Fits(c, v) && (v != Absent ==> exists raw :: p.check(raw) && v == c.decode(raw)) {
      var o :| o in recs && v == ValueOf(c, o);
      if c.name in o { assert p.check(o[c.name]) && v == c.decode(o[c.name]); }
    }
    ConsistentIff(c, vs);
  }

  /** A value that does not decode, between 1 and 2, makes a cycle; but where 1 and 2 pass
      the property's check, it does not: such a record was stored under another kind. */
  lemma MuddledCycle(c: Comparator, one: Raw, two: Raw, bad: Raw)
    requires c.form.Integral? && !c.descending
    requires c.decode(one) == Number(1) && c.decode(two) == Number(2) && c.decode(bad) == Unusable
    ensures var x, y, z: Object := map[c.name := one], map[c.name := two], map[c.name := bad];
      && CompareRecords([c], x, y) < 0 && CompareRecords([c], y, z) == 0 && CompareRecords([c], z, x) == 0
      && !Comparable([c], {x, y, z})
    ensures forall p :: KindSorts(p, c) && p.check(one) && p.check(two) ==> !p.check(bad)
  {
    var x, y, z: Object := map[c.name := one], map[c.name := two], map[c.name := bad];
    var recs := {x, y, z};
    assert ValueOf(c, x) == Number(1) && ValueOf(c, y) == Number(2) && ValueOf(c, z) == Unusable;
    assert x in recs && y in recs && z in recs && c in [c];
    assert Number(1) in Values(c, recs) && Number(2) in Values(c, recs) && Unusable in Values(c, recs);
    assert !Chained(c, Number(2), Unusable, Number(1));
  }

  // ---- Ties ----

  /** An id of the alphabet of section 1.2 of RFC 8620, or of any whose characters
      come after the quotation mark. */
  predicate PlainId(id: Id) { forall i :: 0 <= i < |id| ==> id[i] > 0x22 }

  lemma {:induction false} TerminatedOrder(a: Id, b: Id)
    requires PlainId(a) && PlainId(b)
    ensures Less(a + [0x22], b + [0x22]) <==> Less(a, b)
  {
    if a != [] && b != [] {
      assert (a + [0x22])[1..] == a[1..] + [0x22] && (b + [0x22])[1..] == b[1..] + [0x22];
      TerminatedOrder(a[1..], b[1..]);
    }
  }

  /** Comparing the stored id values compares the ids. */
  lemma QuotedOrder(a: Id, b: Id)
    requires PlainId(a) && PlainId(b)
    ensures CompareBytes(Quote(a), Quote(b)) == CompareBytes(a, b)
  {
    assert Quote(a) == [0x22] + (a + [0x22]) && Quote(b) == [0x22] + (b + [0x22]);
    CommonPrefix([0x22], a + [0x22], b + [0x22]);
    TerminatedOrder(a, b);
    assert Quote(a) == Quote(b) ==> Quote(a)[1..|a| + 1] == Quote(b)[1..|b| + 1];
    assert Quote(a)[1..|a| + 1] == a && Quote(b)[1..|b| + 1] == b;
  }

  /** What the query loads: distinct records, each carrying its own id. */
  ghost predicate Loaded(recs: seq<QueryRecord>) {
    && (forall i :: 0 <= i < |recs| ==>
      PlainId(recs[i].id) && ID in recs[i].obj && recs[i].obj[ID] == Quote(recs[i].id))
    && (forall i, j :: 0 <= i < j < |recs| ==> recs[i].id != recs[j].id)
  }

  ghost function Objects(recs: seq<QueryRecord>): set<Object> { set r | r in recs :: r.obj }

  function IdAt(o: Object): Raw { if ID in o then o[ID] else [] }

  /** The comparison of two positions: the comparators, then the id, then the position. */
  function PositionLess(cmps: seq<Comparator>, recs: seq<QueryRecord>, x: int, y: int): int {
    if !(0 <= x < |recs|) || !(0 <= y < |recs|) then Outside(|recs|, x, y)
    else
      var r := CompareRecords(cmps, recs[x].obj, recs[y].obj);
      if r != 0 then r else
      var s := CompareBytes(IdAt(recs[x].obj), IdAt(recs[y].obj));
      if s != 0 then s else CompareInts(x, y)
  }

  /** No position is outside; this only makes the comparison total. */
  function Outside(n: nat, x: int, y: int): int {
    if 0 <= x < n then -1 else if 0 <= y < n then 1 else CompareInts(x, y)
  }

  lemma PositionMirrored(cmps: seq<Comparator>, recs: seq<QueryRecord>, x: int, y: int)
    requires Comparable(cmps, Objects(recs))
    ensures PositionLess(cmps, recs, x, y) < 0 <==> PositionLess(cmps, recs, y, x) > 0
    ensures PositionLess(cmps, recs, x, y) == 0 <==> x == y
  {
    if 0 <= x < |recs| && 0 <= y < |recs| {
      assert recs[x] in recs && recs[y] in recs;
      ComparesBothWays(cmps, Objects(recs), recs[x].obj, recs[y].obj);
      ComparesBothWays(cmps, Objects(recs), recs[y].obj, recs[x].obj);
      ByteCompare(IdAt(recs[x].obj), IdAt(recs[y].obj), []);
      ByteCompare(IdAt(recs[y].obj), IdAt(recs[x].obj), []);
    }
  }

  lemma PositionChained(cmps: seq<Comparator>, recs: seq<QueryRecord>, x: int, y: int, z: int)
    requires Comparable(cmps, Objects(recs)) && PositionLess(cmps, recs, x, y) <= 0
    requires PositionLess(cmps, recs, y, z) <= 0
    ensures PositionLess(cmps, recs, x, z) <= 0
  {
    if 0 <= x < |recs| && 0 <= y < |recs| && 0 <= z < |recs| {
      var a, b, c := recs[x].obj, recs[y].obj, recs[z].obj;
      assert recs[x] in recs && recs[y] in recs && recs[z] in recs;
      RecordsChain(cmps, Objects(recs), a, b, c);
      ByteChain(IdAt(a), IdAt(b), IdAt(c));
    }
  }

  lemma RecordsChain(cmps: seq<Comparator>, recs: set<Object>, a: Object, b: Object, c: Object)
    requires Comparable(cmps, recs) && a in recs && b in recs && c in recs
    ensures CompareRecords(cmps, a, b) <= 0 && CompareRecords(cmps, b, c) <= 0 ==> CompareRecords(cmps, a, c) <= 0
    ensures CompareRecords(cmps, a, b) <= 0 && CompareRecords(cmps, b, c) <= 0 && CompareRecords(cmps, a, c) == 0
      ==> CompareRecords(cmps, a, b) == 0 && CompareRecords(cmps, b, c) == 0
  {
    ComparesBothWays(cmps, recs, a, b);
    ComparesBothWays(cmps, recs, b, a);
    ComparesBothWays(cmps, recs, b, c);
    ComparesBothWays(cmps, recs, c, b);
    ComparesBothWays(cmps, recs, a, c);
    ComparesBothWays(cmps, recs, c, a);
    if CompareRecords(cmps, a, b) <= 0 && CompareRecords(cmps, b, c) <= 0 {
      ComparesInChains(cmps, recs, a, b, c);
      if CompareRecords(cmps, a, c) == 0 {
        ComparesInChains(cmps, recs, c, a, b);
        ComparesInChains(cmps, recs, b, c, a);
      }
    }
  }

  lemma ByteChain(a: Bytes, b: Bytes, c: Bytes)
    ensures CompareBytes(a, b) <= 0 && CompareBytes(b, c) <= 0 ==> CompareBytes(a, c) <= 0
    ensures CompareBytes(a, b) <= 0 && CompareBytes(b, c) <= 0 && CompareBytes(a, c) == 0 ==>
      CompareBytes(a, b) == 0 && CompareBytes(b, c) == 0
  {
    ByteCompare(a, b, c);
    ByteCompare(b, c, a);
    ByteCompare(c, a, b);
    ByteCompare(b, a, c);
  }

  lemma PositionsTotal(cmps: seq<Comparator>, recs: seq<QueryRecord>, less: Selection.Compare)
    requires Comparable(cmps, Objects(recs)) && forall x, y :: less(x, y) == PositionLess(cmps, recs, x, y)
    ensures Selection.TotalOrder(less)
  {
    forall x, y ensures Selection.Antisymmetric(less, x, y) { PositionMirrored(cmps, recs, x, y); }
    forall x, y, z ensures Selection.Transitive(less, x, y, z) {
      if Selection.AtMost(less, x, y) && Selection.AtMost(less, y, z) { PositionChained(cmps, recs, x, y, z); }
    }
  }

  // ---- Permutations of positions ----

  function Positions(n: nat): seq<int> { if n == 0 then [] else Positions(n - 1) + [n - 1] }

  lemma {:induction false} PositionAt(n: nat, i: nat)
    requires i < n
    ensures |Positions(n)| == n && Positions(n)[i] == i
  {
    if n == 1 { assert Positions(0) == []; } else { PositionAt(n - 1, if i < n - 1 then i else 0); }
  }

  lemma {:induction false} PositionOnce(n: nat, x: int)
    ensures multiset(Positions(n))[x] == if 0 <= x < n then 1 else 0
  {
    if n > 0 { PositionOnce(n - 1, x); }
  }

  lemma TwiceIn(p: seq<int>, i: nat, j: nat)
    requires i < j < |p| && p[i] == p[j]
    ensures multiset(p)[p[i]] >= 2
  {
    assert p == p[..j] + [p[j]] + p[j + 1..];
    assert p[..j][i] == p[i];
    assert p[i] in multiset(p[..j]);
  }

  /** A permutation of the positions names each once. */
  ghost predicate Permutation(p: seq<int>, n: nat) {
    && |p| == n && (forall i :: 0 <= i < n ==> 0 <= p[i] < n)
    && (forall i, j :: 0 <= i < j < n ==> p[i] != p[j])
    && (forall x :: 0 <= x < n ==> x in p)
  }

  lemma IsPermutation(p: seq<int>, n: nat)
    requires multiset(p) == multiset(Positions(n))
    ensures Permutation(p, n)
  {
    if n > 0 { PositionAt(n, 0); }
    assert |p| == |multiset(p)| == |multiset(Positions(n))| == |Positions(n)|;
    forall i | 0 <= i < |p| ensures 0 <= p[i] < n { assert p[i] in multiset(p); PositionOnce(n, p[i]); }
    forall i, j | 0 <= i < j < |p| ensures p[i] != p[j] {
      if p[i] == p[j] { TwiceIn(p, i, j); PositionOnce(n, p[i]); }
    }
    forall x | 0 <= x < n ensures x in p { PositionOnce(n, x); assert x in multiset(p); }
  }

  // ---- The sorted list is the result ----

  function TableOf(recs: seq<QueryRecord>): Table
    requires Loaded(recs)
  {
    map r | r in recs :: r.id := r.obj
  }

  function Everything(o: Object): bool { true }

  function IdsBy(recs: seq<QueryRecord>, p: seq<int>): seq<Id>
    requires forall i :: 0 <= i < |p| ==> 0 <= p[i] < |recs|
  {
    seq(|p|, i requires 0 <= i < |p| => recs[p[i]].id)
  }

  lemma PositionBefore(cmps: seq<Comparator>, recs: seq<QueryRecord>, x: nat, y: nat)
    requires Loaded(recs) && x < |recs| && y < |recs| && x != y && PositionLess(cmps, recs, x, y) <= 0
    ensures Before(SortQuery(cmps, Everything), TableOf(recs), recs[x].id, recs[y].id)
  {
    assert recs[x] in recs && recs[y] in recs && recs[x].id != recs[y].id;
    assert TableOf(recs)[recs[x].id] == recs[x].obj && TableOf(recs)[recs[y].id] == recs[y].obj;
    QuotedOrder(recs[x].id, recs[y].id);
  }

  lemma IdsOfAll(recs: seq<QueryRecord>, p: seq<int>, id: Id)
    requires Loaded(recs) && Permutation(p, |recs|)
    ensures id in IdsBy(recs, p) <==> id in TableOf(recs)
  {
    var ids := IdsBy(recs, p);
    if id in TableOf(recs) {
      var r :| r in recs && r.id == id;
      var x :| 0 <= x < |recs| && recs[x] == r;
      assert x in p;
      var i :| 0 <= i < |p| && p[i] == x;
      assert ids[i] == id;
    }
    if id in ids {
      var i :| 0 <= i < |ids| && ids[i] == id;
      assert recs[p[i]] in recs;
    }
  }

  lemma SortedIsResult(cmps: seq<Comparator>, recs: seq<QueryRecord>, p: seq<int>, less: Selection.Compare)
    requires Loaded(recs) && Permutation(p, |recs|) && (forall x, y :: less(x, y) == PositionLess(cmps, recs, x, y))
    requires Selection.Sorted(p, less)
    ensures IsResult(SortQuery(cmps, Everything), TableOf(recs), IdsBy(recs, p))
  {
    var q, db, ids := SortQuery(cmps, Everything), TableOf(recs), IdsBy(recs, p);
    forall i, j | 0 <= i < j < |ids| ensures Before(q, db, ids[i], ids[j]) {
      assert Selection.AtMost(less, p[i], p[j]);
      PositionBefore(cmps, recs, p[i], p[j]);
    }
    forall id ensures id in Elems(ids) <==> id in Matching(q, db) { IdsOfAll(recs, p, id); }
  }

  lemma OrderlyTable(cmps: seq<Comparator>, recs: seq<QueryRecord>)
    requires Loaded(recs) && Comparable(cmps, Objects(recs))
    ensures var q := SortQuery(cmps, Everything); Orderly(q, Matched(q, TableOf(recs)))
  {
    assert Matched(SortQuery(cmps, Everything), TableOf(recs)) <= Objects(recs);
    ComparatorsOrderly(cmps, Everything, Objects(recs));
  }

  // ---- Decorate, sort, undecorate ----

  function Row(cmps: seq<Comparator>, o: Object): seq<SortValue> {
    seq(|cmps|, j requires 0 <= j < |cmps| => ValueOf(cmps[j], o))
  }

  function CompareRows(cmps: seq<Comparator>, vx: seq<SortValue>, vy: seq<SortValue>): int
    requires |vx| == |vy| == |cmps|
  {
    if cmps == [] then 0
    else
      var r := CompareValues(cmps[0], vx[0], vy[0]);
      if r != 0 then r else CompareRows(cmps[1..], vx[1..], vy[1..])
  }

  /** Comparing decoded rows is comparing the records. */
  lemma {:induction false} RowsCompareRecords(cmps: seq<Comparator>, a: Object, b: Object)
    ensures CompareRows(cmps, Row(cmps, a), Row(cmps, b)) == CompareRecords(cmps, a, b)
  {
    if cmps != [] {
      assert Row(cmps, a)[1..] == Row(cmps[1..], a) && Row(cmps, b)[1..] == Row(cmps[1..], b);
      RowsCompareRecords(cmps[1..], a, b);
    }
  }

  function RowLess(cmps: seq<Comparator>, rows: seq<seq<SortValue>>, ids: seq<Raw>, x: int, y: int): int
    requires |rows| == |ids| && forall i :: 0 <= i < |rows| ==> |rows[i]| == |cmps|
  {
    if !(0 <= x < |rows|) || !(0 <= y < |rows|) then Outside(|rows|, x, y)
    else
      var r := CompareRows(cmps, rows[x], rows[y]);
      if r != 0 then r else
      var s := CompareBytes(ids[x], ids[y]);
      if s != 0 then s else CompareInts(x, y)
  }

  method SortPositions(n: nat, window: nat, less: Selection.Compare) returns (order: seq<int>)
    ensures Permutation(order, n)
    ensures Selection.TotalOrder(less) ==> var w := if 0 < window < n then window else n;
      |Selection.StableSort(Positions(n), less)| == n && order[..w] == Selection.StableSort(Positions(n), less)[..w]
  {
    var a := new int[n](i => i);
    if n > 0 { PositionAt(n, 0); }
    forall i | 0 <= i < n ensures a[i] == Positions(n)[i] { PositionAt(n, i); }
    assert a[..] == Positions(n);
    Selection.SortWindow(a, window, less);
    order := a[..];
    IsPermutation(order, n);
  }

  method Undecorate(matched: array<QueryRecord>, src: seq<QueryRecord>, order: seq<int>)
    requires matched.Length == |src| && Permutation(order, |src|)
    modifies matched
    ensures forall i :: 0 <= i < |src| ==> matched[i] == src[order[i]]
  {
    for i := 0 to |src|
      invariant forall k :: 0 <= k < i ==> matched[k] == src[order[k]]
    {
      matched[i] := src[order[i]];
    }
  }

  /** The full stable sort of the positions lists the query's result. */
  lemma FullOrder(cmps: seq<Comparator>, recs: seq<QueryRecord>, less: Selection.Compare, full: seq<Id>)
    requires Loaded(recs) && Comparable(cmps, Objects(recs))
    requires forall x, y :: less(x, y) == PositionLess(cmps, recs, x, y)
    requires IsResult(SortQuery(cmps, Everything), TableOf(recs), full)
    ensures Selection.TotalOrder(less) && Permutation(Selection.StableSort(Positions(|recs|), less), |recs|)
    ensures full == IdsBy(recs, Selection.StableSort(Positions(|recs|), less))
  {
    var p := Selection.StableSort(Positions(|recs|), less);
    PositionsTotal(cmps, recs, less);
    IsPermutation(p, |recs|);
    Selection.StableSortSorts(Positions(|recs|), less);
    SortedIsResult(cmps, recs, p, less);
    OrderlyTable(cmps, recs);
    ResultUnique(SortQuery(cmps, Everything), TableOf(recs), full, IdsBy(recs, p));
  }

  /** Every position the window covers holds what the query's result has there. */
  ghost predicate WindowIs(now: seq<QueryRecord>, window: nat, full: seq<Id>) {
    && |full| == |now|
    && forall i :: 0 <= i < (if 0 < window < |now| then window else |now|) ==> now[i].id == full[i]
  }

  ghost predicate Rearranged(was: seq<QueryRecord>, now: seq<QueryRecord>, p: seq<int>) {
    Permutation(p, |was|) && |now| == |was| && forall i :: 0 <= i < |was| ==> now[i] == was[p[i]]
  }

  lemma WindowFromOrder(cmps: seq<Comparator>, src: seq<QueryRecord>, less: Selection.Compare, order: seq<int>,
          window: nat, now: seq<QueryRecord>, full: seq<Id>)
    requires Loaded(src) && Comparable(cmps, Objects(src))
    requires (forall x, y :: less(x, y) == PositionLess(cmps, src, x, y))
    requires Rearranged(src, now, order) && IsResult(SortQuery(cmps, Everything), TableOf(src), full)
    requires Selection.TotalOrder(less) ==> var w := if 0 < window < |src| then window else |src|;
      |Selection.StableSort(Positions(|src|), less)| == |src| &&
        order[..w] == Selection.StableSort(Positions(|src|), less)[..w]
    ensures WindowIs(now, window, full)
  {
    FullOrder(cmps, src, less, full);
    var p, w := Selection.StableSort(Positions(|src|), less), if 0 < window < |src| then window else |src|;
    forall i | 0 <= i < w ensures now[i].id == full[i] {
      assert order[..w][i] == p[..w][i];
    }
  }

  /** The positions the window covers are in the order the request means. */
  ghost predicate WindowRanked(cmps: seq<Comparator>, now: seq<QueryRecord>, window: nat) {
    forall i, j :: 0 <= i < j < (if 0 < window < |now| then window else |now|) ==>
      Ranked(cmps, now[i].obj, now[j].obj, now[i].id, now[j].id)
  }

  lemma WindowInOrder(cmps: seq<Comparator>, was: seq<QueryRecord>, now: seq<QueryRecord>, p: seq<int>, window: nat,
          full: seq<Id>)
    requires Loaded(was) && Decodes(cmps, Objects(was)) && Rearranged(was, now, p)
    requires IsResult(SortQuery(cmps, Everything), TableOf(was), full) && WindowIs(now, window, full)
    ensures WindowRanked(cmps, now, window)
  {
    var db := TableOf(was);
    assert Matched(SortQuery(cmps, Everything), db) <= Objects(was);
    SortedAsMeant(cmps, Everything, db, full);
    forall i, j | 0 <= i < j < (if 0 < window < |now| then window else |now|)
      ensures Ranked(cmps, now[i].obj, now[j].obj, now[i].id, now[j].id)
    {
      assert was[p[i]] in was && was[p[j]] in was;
      assert db[now[i].id] == now[i].obj && db[now[j].id] == now[j].obj;
      assert now[i].id == full[i] && now[j].id == full[j];
    }
  }

  /** Sort the records of a query in place, or only as many as are read. Every position
      read then holds what the full order puts there, which is the query's result. */
  method SortRecords(matched: array<QueryRecord>, cmps: seq<Comparator>, window: nat) returns (ghost p: seq<int>)
    requires Loaded(matched[..]) && Comparable(cmps, Objects(matched[..]))
    modifies matched
    ensures Rearranged(old(matched[..]), matched[..], p)
    ensures forall full :: IsResult(SortQuery(cmps, Everything), TableOf(old(matched[..])), full) ==>
      WindowIs(matched[..], window, full)
    ensures Decodes(cmps, Objects(old(matched[..]))) ==> WindowRanked(cmps, matched[..], window)
  {
    var src := matched[..];
    var n := |src|;
    var rows := seq(n, i requires 0 <= i < n => Row(cmps, src[i].obj));
    var ids := seq(n, i requires 0 <= i < n => IdAt(src[i].obj));
    assert forall i :: 0 <= i < n ==> |rows[i]| == |cmps|;
    var less := Decorated(cmps, rows, ids);
    forall x, y ensures less(x, y) == PositionLess(cmps, src, x, y) {
      if 0 <= x < n && 0 <= y < n { RowsCompareRecords(cmps, src[x].obj, src[y].obj); }
    }
    var order := SortPositions(n, window, less);
    Undecorate(matched, src, order);
    p := order;
    forall full | IsResult(SortQuery(cmps, Everything), TableOf(src), full)
      ensures WindowIs(matched[..], window, full)
    {
      WindowFromOrder(cmps, src, less, order, window, matched[..], full);
    }
    if Decodes(cmps, Objects(src)) {
      OrderlyTable(cmps, src);
      WindowInOrder(cmps, src, matched[..], p, window, Results.Result(SortQuery(cmps, Everything), TableOf(src)));
    }
  }

  function Decorated(cmps: seq<Comparator>, rows: seq<seq<SortValue>>, ids: seq<Raw>): Selection.Compare
    requires |rows| == |ids| && forall i :: 0 <= i < |rows| ==> |rows[i]| == |cmps|
  {
    (x: int, y: int) => RowLess(cmps, rows, ids, x, y)
  }
}
