/** The reply of Foo/queryChanges (core/runtime/query.go:401-524): the tiers, the
    client's maxChanges, and the upToId anchor with its narrowed evaluation. */
module QueryReply {
  import opened Options
  import opened ByteOrder
  import opened Records
  import opened Lists
  import opened Splice
  import opened Results

  datatype Reply = Reply(removed: set<Id>, added: seq<AddedItem<Id>>, total: Option<nat>)
  datatype Outcome = Replied(reply: Reply) | TooManyChanges

  /** The results up to and including the anchor; all of them without one. */
  function UpTo(results: seq<Id>, anchor: Option<Id>): seq<Id> {
    if results == [] || anchor.None? then results
    else if results[0] == anchor.value then [results[0]]
    else [results[0]] + UpTo(results[1..], anchor)
  }

  /** The answer with no shortcut: every candidate among the results up to the
      anchor, refused when it outnumbers what the client accepts. */
  function FullAnswer(results: seq<Id>, removed: set<Id>, cand: set<Id>, anchor: Option<Id>,
                      maxChanges: Option<nat>, calculateTotal: bool): Outcome {
    var added := AddedOf(UpTo(results, anchor), cand);
    if maxChanges.Some? && |removed| + |added| > maxChanges.value then TooManyChanges
    else Replied(Reply(removed, added, if calculateTotal then Some(|results|) else None))
  }

  lemma {:induction false} UpToIndex(results: seq<Id>, anchor: Id, k: nat)
    requires k < |results| && results[k] == anchor && anchor !in results[..k]
    ensures UpTo(results, Some(anchor)) == results[..k + 1]
  {
    if k > 0 {
      assert results[0] == results[..k][0];
      assert results[1..][..k - 1] == results[..k][1..];
      UpToIndex(results[1..], anchor, k - 1);
      assert results[..k + 1] == [results[0]] + results[1..][..k];
    }
  }

  lemma {:induction false} UpToAbsent(results: seq<Id>, anchor: Id)
    requires anchor !in results
    ensures UpTo(results, Some(anchor)) == results
  {
    if results != [] {
      assert results[0] in results && forall x :: x in results[1..] ==> x in results;
      UpToAbsent(results[1..], anchor);
    }
  }

  // ---- What a reply says, position by position ----

  /** The positions a reply reports: those of candidates, none behind the anchor. */
  ghost function Reported(results: seq<Id>, cand: set<Id>, anchor: Option<Id>): set<nat> {
    set i: nat | i < |results| && results[i] in cand && (anchor.Some? ==> anchor.value !in results[..i])
  }

  ghost predicate Names(added: seq<AddedItem<Id>>, i: nat) { exists k :: 0 <= k < |added| && added[k].index == i }

  /** The items name exactly these positions, lowest first, each with the id found there. */
  ghost predicate Reports(results: seq<Id>, positions: set<nat>, added: seq<AddedItem<Id>>) {
    && |added| == |positions|
    && (forall k :: 0 <= k < |added| ==>
      added[k].index in positions && added[k].index < |results| && added[k].id == results[added[k].index])
    && (forall i: nat :: i in positions ==> Names(added, i))
    && (forall k, l :: 0 <= k < l < |added| ==> added[k].index < added[l].index)
  }

  /** Refused exactly when what is removed and what is reported are together more than the
      client accepts; otherwise all of both is in the reply. */
  ghost predicate Rightly(results: seq<Id>, removed: set<Id>, cand: set<Id>, anchor: Option<Id>,
                          maxChanges: Option<nat>, calculateTotal: bool, r: Outcome) {
    var reported := Reported(results, cand, anchor);
    && (r.TooManyChanges? <==> maxChanges.Some? && |removed| + |reported| > maxChanges.value)
    && (r.Replied? ==>
        && r.reply.removed == removed && Reports(results, reported, r.reply.added)
        && r.reply.total == if calculateTotal then Some(|results|) else None)
  }

  /** The cut keeps exactly the positions that do not lie behind the anchor. */
  lemma {:induction false} UpToCut(results: seq<Id>, anchor: Option<Id>)
    ensures UpTo(results, anchor) <= results
    ensures forall i: nat :: i < |results| ==>
      (i < |UpTo(results, anchor)| <==> (anchor.Some? ==> anchor.value !in results[..i]))
  {
    if results != [] && anchor.Some? {
      if results[0] == anchor.value {
        forall i: nat | 0 < i < |results| ensures anchor.value in results[..i] { assert results[..i][0] == results[0]; }
      } else {
        UpToCut(results[1..], anchor);
        assert results == [results[0]] + results[1..];
        forall i: nat | 0 < i < |results|
          ensures anchor.value in results[..i] <==> anchor.value in results[1..][..i - 1]
        {
          assert results[..i] == [results[0]] + results[1..][..i - 1];
        }
      }
    }
  }

  ghost function CandidateAt(s: seq<Id>, cand: set<Id>): set<nat> { set i: nat | i < |s| && s[i] in cand }

  lemma CandidateSnoc(s: seq<Id>, n: nat, cand: set<Id>)
    requires |s| == n + 1
    ensures CandidateAt(s, cand) == if s[n] in cand then CandidateAt(s[..n], cand) + {n} else CandidateAt(s[..n], cand)
  {
  }

  lemma {:induction false} AddedReports(s: seq<Id>, cand: set<Id>)
    ensures Reports(s, CandidateAt(s, cand), AddedOf(s, cand))
  {
    if s != [] {
      var n := |s| - 1;
      AddedReports(s[..n], cand);
      CandidateSnoc(s, n, cand);
      AddedStep(s, n, cand, CandidateAt(s[..n], cand), AddedOf(s[..n], cand));
    }
  }

  lemma AddedStep(s: seq<Id>, n: nat, cand: set<Id>, positions: set<nat>, added: seq<AddedItem<Id>>)
    requires |s| == n + 1 && Reports(s[..n], positions, added) && added == AddedOf(s[..n], cand)
    ensures Reports(s, if s[n] in cand then positions + {n} else positions, AddedOf(s, cand))
  {
    ReportMore(s, n, positions, added);
    assert AddedOf(s, cand) == if s[n] in cand then added + [AddedItem(s[n], n)] else added;
  }

  lemma ReportMore(s: seq<Id>, n: nat, positions: set<nat>, added: seq<AddedItem<Id>>)
    requires |s| == n + 1 && Reports(s[..n], positions, added)
    ensures Reports(s, positions, added)
    ensures Reports(s, positions + {n}, added + [AddedItem(s[n], n)])
  {
    var more := added + [AddedItem(s[n], n)];
    forall i: nat | i in positions ensures i < n && Names(more, i) {
      assert Names(added, i);
      var k :| 0 <= k < |added| && added[k].index == i;
      assert more[k].index == i;
    }
    assert more[|added|].index == n && Names(more, n);
  }

  lemma FullAnswerRightly(results: seq<Id>, removed: set<Id>, cand: set<Id>, anchor: Option<Id>,
                          maxChanges: Option<nat>, calculateTotal: bool)
    ensures Rightly(results, removed, cand, anchor, maxChanges, calculateTotal,
                    FullAnswer(results, removed, cand, anchor, maxChanges, calculateTotal))
  {
    var goal := UpTo(results, anchor);
    UpToCut(results, anchor);
    AddedReports(goal, cand);
    assert CandidateAt(goal, cand) == Reported(results, cand, anchor);
  }

  lemma {:induction false} AddedGrows(s: seq<Id>, t: seq<Id>, cand: set<Id>)
    requires s <= t
    ensures |AddedOf(s, cand)| <= |AddedOf(t, cand)|
    decreases |t|
  {
    if s != t {
      AddedGrows(s, t[..|t| - 1], cand);
    } else {
      assert s == t;
    }
  }

  /** The anchor's position, -1 when it is not among the results. */
  method AnchorIndex(results: seq<Id>, anchor: Id) returns (k: int)
    ensures -1 <= k < |results|
    ensures UpTo(results, Some(anchor)) == if k >= 0 then results[..k + 1] else results
  {
    for i := 0 to |results|
      invariant anchor !in results[..i]
    {
      if results[i] == anchor {
        UpToIndex(results, anchor, i);
        return i;
      }
    }
    assert results[..|results|] == results;
    UpToAbsent(results, anchor);
    return -1;
  }

  /** Collect the added items up to the anchor, giving up once the client's limit is
      passed. */
  method ReportAdded(results: seq<Id>, cand: set<Id>, trimIdx: int, removed: nat, maxChanges: Option<nat>)
      returns (added: seq<AddedItem<Id>>, tooMany: bool)
    requires -1 <= trimIdx < |results|
    requires maxChanges.Some? ==> removed <= maxChanges.value
    ensures var goal := if trimIdx >= 0 then results[..trimIdx + 1] else results;
      && (tooMany <==> maxChanges.Some? && removed + |AddedOf(goal, cand)| > maxChanges.value)
      && (!tooMany ==> added == AddedOf(goal, cand))
  {
    ghost var goal := if trimIdx >= 0 then results[..trimIdx + 1] else results;
    var count, i := removed, 0;
    added := [];
    while i < |results|
      invariant 0 <= i <= |goal|
      invariant added == AddedOf(goal[..i], cand) && count == removed + |added|
      invariant maxChanges.Some? ==> count <= maxChanges.value
    {
      if trimIdx >= 0 && i > trimIdx {
        break;
      }
      assert goal[..i + 1][..i] == goal[..i];
      if results[i] in cand {
        added := added + [AddedItem(results[i], i)];
        count := count + 1;
        if maxChanges.Some? && count > maxChanges.value {
          AddedGrows(goal[..i + 1], goal, cand);
          return added, true;
        }
      }
      i := i + 1;
    }
    assert goal[..i] == goal;
    tooMany := false;
  }

  /** Both shortcuts - refusing on the removed count alone, and skipping the
      evaluation when no candidate matches - give the full answer. */
  method Answer(q: Query, db: Table, created: set<Id>, updated: set<Id>, destroyed: set<Id>, expanded: set<Id>,
                immutable: bool, maxChanges: Option<nat>, calculateTotal: bool, upToId: Option<Id>, results: seq<Id>)
      returns (r: Outcome)
    requires forall id :: id in results ==> id in Matching(q, db)
    ensures r == FullAnswer(results, RemovedSet(created, updated, destroyed, expanded, immutable),
                            AddCand(created, updated, expanded, immutable),
                            if immutable then upToId else None, maxChanges, calculateTotal)
    ensures Rightly(results, if immutable then destroyed else destroyed + updated + (expanded - created),
                    if immutable then created else created + updated + expanded,
                    if immutable then upToId else None, maxChanges, calculateTotal, r)
    ensures r.Replied? && maxChanges.Some? ==> |r.reply.removed| + |r.reply.added| <= maxChanges.value
  {
    var removed, cand := destroyed, created;
    if !immutable {
      removed, cand := destroyed + updated + (expanded - created), updated + created + expanded;
    }
    FullAnswerRightly(results, removed, cand, if immutable then upToId else None, maxChanges, calculateTotal);
    assert cand == if immutable then created else created + updated + expanded;
    if maxChanges.Some? && |removed| > maxChanges.value {
      return TooManyChanges;
    }
    if !calculateTotal {
      var matched := set id | id in cand && id in db && q.matches(db[id]);
      if matched == {} {
        assert forall id :: id in cand && id in db && q.matches(db[id]) ==> id in matched;
        NothingAdded(q, db, results, cand, if immutable then upToId else None);
        return Replied(Reply(removed, [], None));
      }
    }
    var trimIdx := -1;
    if immutable && upToId.Some? {
      trimIdx := AnchorIndex(results, upToId.value);
    }
    var added, tooMany := ReportAdded(results, cand, trimIdx, |removed|, maxChanges);
    if tooMany {
      return TooManyChanges;
    }
    r := Replied(Reply(removed, added, if calculateTotal then Some(|results|) else None));
  }

  lemma {:induction false} UpToMembers(results: seq<Id>, anchor: Option<Id>)
    ensures forall x :: x in UpTo(results, anchor) ==> x in results
  {
    if results != [] && anchor.Some? {
      assert results[0] in results && forall x :: x in results[1..] ==> x in results;
      UpToMembers(results[1..], anchor);
    }
  }

  lemma NothingAdded(q: Query, db: Table, results: seq<Id>, cand: set<Id>, anchor: Option<Id>)
    requires forall id :: id in results ==> id in Matching(q, db)
    requires forall id :: id in cand && id in db ==> !q.matches(db[id])
    ensures AddedOf(UpTo(results, anchor), cand) == []
  {
    var goal := UpTo(results, anchor);
    UpToMembers(results, anchor);
    assert forall x :: x in goal ==> x !in cand;
    NoCandidates([], goal, cand);
    assert [] + goal == goal;
  }

  // ---- upToId: the narrowed evaluation ----

  /** One ascending comparator on `prop`: records without it first, then by the
      index encoding of the value. */
  ghost predicate SortsBy(q: Query, prop: Name, enc: Raw -> Bytes) {
    forall a, b ::
      && (q.cmp(a, b) < 0 <==> prop in b && (prop !in a || Less(enc(a[prop]), enc(b[prop]))))
      && (q.cmp(a, b) == 0 <==> (prop in a <==> prop in b) && (prop in a && prop in b ==> enc(a[prop]) == enc(b[prop])))
  }

  /** What IdsWhereAtMost returns for the anchor's value: records without the
      property have no index key. */
  function AtMostIds(db: Table, prop: Name, enc: Raw -> Bytes, v: Bytes): Table {
    map id | id in db && prop in db[id] && AtMost(enc(db[id][prop]), v) :: db[id]
  }

  lemma SortsByOrderly(q: Query, prop: Name, enc: Raw -> Bytes, recs: set<Object>)
    requires SortsBy(q, prop, enc)
    ensures Orderly(q, recs)
  {
    forall a, b ensures q.cmp(a, b) < 0 <==> q.cmp(b, a) > 0 {
      if prop in a && prop in b {
        Total(enc(a[prop]), enc(b[prop]));
        if Less(enc(a[prop]), enc(b[prop])) { Asymmetric(enc(a[prop]), enc(b[prop])); }
        Irreflexive(enc(a[prop]));
      }
    }
    forall a, b, c | q.cmp(a, b) <= 0 && q.cmp(b, c) <= 0 ensures q.cmp(a, c) <= 0 {
      if prop in a && prop in b && prop in c && Less(enc(a[prop]), enc(b[prop])) && Less(enc(b[prop]), enc(c[prop])) {
        Transitive(enc(a[prop]), enc(b[prop]), enc(c[prop]));
      }
    }
  }

  lemma {:induction false} DropTail(s: seq<Id>, drop: set<Id>, before: (Id, Id) -> bool)
    requires Ascending(s, before) && AsymmetricOn(before, Elems(s))
    requires forall x, y :: x in s && y in s && x !in drop && y in drop ==> before(x, y)
    ensures Without(s, drop) <= s
  {
    if s != [] {
      assert Elems(s[1..]) <= Elems(s) && forall x :: x in s[1..] ==> x in s;
      if s[0] in drop {
        forall x | x in s[1..] ensures x in drop {
          HeadFirst(s, x, before);
          assert x in Elems(s) && s[0] in Elems(s);
        }
        WithoutAll(s[1..], drop);
      } else {
        DropTail(s[1..], drop, before);
        assert s == [s[0]] + s[1..];
      }
    }
  }

  /** Positions read off the narrowed evaluation are the full positions if and only
      if every matching record has the sort property: one without it sorts first in
      the results but has no index key. */
  lemma NarrowedIffPresent(q: Query, db: Table, prop: Name, enc: Raw -> Bytes, anchor: Id, full: seq<Id>,
          narrowed: seq<Id>)
    requires SortsBy(q, prop, enc) && anchor in Matching(q, db) && prop in db[anchor]
    requires IsResult(q, db, full)
    requires IsResult(q, AtMostIds(db, prop, enc, enc(db[anchor][prop])), narrowed)
    ensures anchor in narrowed
    ensures narrowed <= full <==> forall id :: id in Matching(q, db) ==> prop in db[id]
  {
    var v := enc(db[anchor][prop]);
    var part := AtMostIds(db, prop, enc, v);
    assert anchor in Matching(q, part);
    assert anchor in Elems(narrowed);
    if m :| m in Matching(q, db) && prop !in db[m] {
      assert m in Elems(full);
      HeadFirst(full, m, (a, b) => Before(q, db, a, b));
      assert narrowed[0] in Elems(narrowed);
      assert narrowed[0] in db && prop in db[narrowed[0]];
    } else {
      NarrowedPrefix(q, db, prop, enc, v, full, narrowed);
    }
  }

  /** It is not met by one record that has the property beside one that has not: the
      full result lists the other first, the narrowed one does not hold it. */
  lemma NarrowedMisplaces(prop: Name, a: Id, b: Id, raw: Raw)
      returns (q: Query, db: Table, enc: Raw -> Bytes, full: seq<Id>, narrowed: seq<Id>)
    requires a != b
    ensures SortsBy(q, prop, enc) && b in Matching(q, db) && prop in db[b]
    ensures IsResult(q, db, full) && IsResult(q, AtMostIds(db, prop, enc, enc(db[b][prop])), narrowed)
    ensures full == [a, b] && narrowed == [b] && !(narrowed <= full)
  {
    enc := (r: Raw) => r;
    q := Query((o: Object) => true, (x: Object, y: Object) => ByValue(prop, x, y));
    forall x, y
      ensures q.cmp(x, y) < 0 <==> prop in y && (prop !in x || Less(enc(x[prop]), enc(y[prop])))
      ensures q.cmp(x, y) == 0 <==>
        (prop in x <==> prop in y) && (prop in x && prop in y ==> enc(x[prop]) == enc(y[prop]))
    {
      if prop in x { Irreflexive(x[prop]); }
    }
    var with, without: Object := map[prop := raw], map[];
    db, full, narrowed := map[a := without, b := with], [a, b], [b];
    assert Before(q, db, a, b);
    assert AtMostIds(db, prop, enc, raw) == map[b := with];
    assert narrowed[0] != full[0];
  }

  /** Records without the property first, then by its bytes. */
  function ByValue(prop: Name, x: Object, y: Object): int {
    if prop !in x || prop !in y then (if prop in y then -1 else if prop in x then 1 else 0)
    else if x[prop] == y[prop] then 0 else if Less(x[prop], y[prop]) then -1 else 1
  }

  lemma NarrowedPrefix(q: Query, db: Table, prop: Name, enc: Raw -> Bytes, v: Bytes, full: seq<Id>, narrowed: seq<Id>)
    requires SortsBy(q, prop, enc)
    requires forall id :: id in Matching(q, db) ==> prop in db[id]
    requires IsResult(q, db, full) && IsResult(q, AtMostIds(db, prop, enc, v), narrowed)
    ensures narrowed <= full
  {
    var part := AtMostIds(db, prop, enc, v);
    var drop := Matching(q, db) - part.Keys;
    var before := (a, b) => Before(q, db, a, b);
    SortsByOrderly(q, prop, enc, db.Values);
    BeforeAsymmetric(q, db, Elems(full));
    WithoutMembers(full, drop);
    AscendingWithout(full, drop, before);
    assert Matching(q, part) == Matching(q, db) - drop;
    assert Elems(Without(full, drop)) == Elems(narrowed) by {
      assert forall x :: x in full <==> x in Elems(full);
      assert forall x :: x in narrowed <==> x in Elems(narrowed);
    }
    forall i, j | 0 <= i < j < |narrowed| ensures before(narrowed[i], narrowed[j]) {
      assert Before(q, part, narrowed[i], narrowed[j]);
    }
    BeforeAsymmetric(q, db, Elems(narrowed));
    AscendingUnique(Without(full, drop), narrowed, before);
    forall x, y | x in full && y in full && x !in drop && y in drop ensures before(x, y) {
      assert x in Elems(full) && y in Elems(full);
      SmallerValueFirst(q, db, prop, enc, v, x, y);
    }
    DropTail(full, drop, before);
  }

  lemma SmallerValueFirst(q: Query, db: Table, prop: Name, enc: Raw -> Bytes, v: Bytes, x: Id, y: Id)
    requires SortsBy(q, prop, enc) && x in db && y in db && prop in db[x] && prop in db[y]
    requires AtMost(enc(db[x][prop]), v) && !AtMost(enc(db[y][prop]), v)
    ensures Before(q, db, x, y)
  {
    Total(enc(db[y][prop]), v);
    if Less(enc(db[x][prop]), v) { Transitive(enc(db[x][prop]), v, enc(db[y][prop])); }
  }

  /** With the property present everywhere, the narrowed evaluation answers exactly
      as the full one. */
  lemma NarrowedAnswerSame(q: Query, db: Table, prop: Name, enc: Raw -> Bytes, anchor: Id, full: seq<Id>,
          narrowed: seq<Id>, removed: set<Id>, cand: set<Id>, maxChanges: Option<nat>)
    requires SortsBy(q, prop, enc) && anchor in Matching(q, db) && prop in db[anchor]
    requires IsResult(q, db, full)
    requires IsResult(q, AtMostIds(db, prop, enc, enc(db[anchor][prop])), narrowed)
    requires forall id :: id in Matching(q, db) ==> prop in db[id]
    ensures FullAnswer(narrowed, removed, cand, Some(anchor), maxChanges, false)
         == FullAnswer(full, removed, cand, Some(anchor), maxChanges, false)
  {
    NarrowedIffPresent(q, db, prop, enc, anchor, full, narrowed);
    var k := FirstIndex(narrowed, anchor);
    UpToIndex(narrowed, anchor, k);
    assert full[..k] == narrowed[..k] && full[..k + 1] == narrowed[..k + 1];
    UpToIndex(full, anchor, k);
  }

  lemma {:induction false} FirstIndex(s: seq<Id>, x: Id) returns (k: nat)
    requires x in s
    ensures k < |s| && s[k] == x && x !in s[..k]
  {
    if s[0] == x {
      k := 0;
    } else {
      assert x in s[1..];
      k := FirstIndex(s[1..], x);
      k := k + 1;
      assert s[..k] == [s[0]] + s[1..][..k - 1];
    }
  }
}
