/** The list surgery of section 5.6 of RFC 8620: the server reports removed ids
    and added (id, index) pairs, the client splices them into its cached list. */
module Splice {
  import opened Lists

  datatype AddedItem<T> = AddedItem(id: T, index: nat)

  /** One client insertion; an index past the end appends. */
  function InsertAt<T>(s: seq<T>, i: nat, x: T): seq<T> {
    if i <= |s| then s[..i] + [x] + s[i..] else s + [x]
  }

  function InsertAll<T>(s: seq<T>, added: seq<AddedItem<T>>): seq<T> {
    if added == [] then s
    else var last := added[|added| - 1];
      InsertAt(InsertAll(s, added[..|added| - 1]), last.index, last.id)
  }

  /** What a client does with a reply: drop `removed`, then insert lowest index first. */
  function SpliceReply<T(==)>(cached: seq<T>, removed: set<T>, added: seq<AddedItem<T>>): seq<T> {
    InsertAll(Without(cached, removed), added)
  }

  /** The reply's removed set: everything that may have left or moved, less the
      creations, which no cached list holds. `expanded` holds the current members of
      the changed groups of a collapsed query; an immutable query drops updates. */
  function RemovedSet<T(==)>(created: set<T>, updated: set<T>, destroyed: set<T>, expanded: set<T>,
          immutable: bool): set<T> {
    if immutable then destroyed else destroyed + updated + (expanded - created)
  }

  /** The ids that may have entered the results or moved in them. */
  function AddCand<T(==)>(created: set<T>, updated: set<T>, expanded: set<T>, immutable: bool): set<T> {
    if immutable then created else updated + created + expanded
  }

  /** The reply's added items: the current results that are add candidates, with
      their positions. */
  function AddedOf<T(==)>(results: seq<T>, cand: set<T>): seq<AddedItem<T>> {
    if results == [] then []
    else var n := |results| - 1;
      AddedOf(results[..n], cand) + (if results[n] in cand then [AddedItem(results[n], n)] else [])
  }


  lemma {:induction false} NoCandidates<T(!new)>(m: seq<T>, t: seq<T>, cand: set<T>)
    requires forall x :: x in t ==> x !in cand
    ensures AddedOf(m + t, cand) == AddedOf(m, cand)
  {
    if t == [] {
      assert m + t == m;
    } else {
      var n := |t| - 1;
      assert forall x :: x in t[..n] ==> x in t;
      NoCandidates(m, t[..n], cand);
      assert (m + t)[..|m + t| - 1] == m + t[..n] && (m + t)[|m + t| - 1] == t[n] && t[n] in t;
    }
  }

  /** The splice rebuilds the new list if and only if dropping `removed` from the
      old list and dropping the candidates from the new one leave the same list.
      Nothing is assumed about the two lists or the two sets. */
  lemma {:induction false} SpliceExact<T(!new)>(cached: seq<T>, results: seq<T>, removed: set<T>, cand: set<T>)
    ensures SpliceReply(cached, removed, AddedOf(results, cand)) == results
       <==> Without(cached, removed) == Without(results, cand)
  {
    InsertExact(Without(cached, removed), results, cand);
  }

  lemma {:induction false} InsertExact<T(!new)>(base: seq<T>, results: seq<T>, cand: set<T>)
    ensures InsertAll(base, AddedOf(results, cand)) == results <==> base == Without(results, cand)
    decreases |results|
  {
    if forall x :: x in results ==> x !in cand {
      NoCandidates([], results, cand);
      assert [] + results == results;
      WithoutNone(results, cand);
    } else {
      var m, x, t := LastCandidate(results, cand);
      InsertExact(base, m + t, cand);
      AddedSplit(m, x, t, cand);
      InsertAllSnoc(base, AddedOf(m, cand), AddedItem(x, |m|));
      InsertLast(InsertAll(base, AddedOf(m, cand)), m, x, t);
    }
  }

  lemma AddedSplit<T(!new)>(m: seq<T>, x: T, t: seq<T>, cand: set<T>)
    requires x in cand && forall y :: y in t ==> y !in cand
    ensures AddedOf(m + [x] + t, cand) == AddedOf(m + t, cand) + [AddedItem(x, |m|)]
    ensures AddedOf(m + t, cand) == AddedOf(m, cand)
    ensures Without(m + [x] + t, cand) == Without(m + t, cand)
  {
    NoCandidates(m, t, cand);
    NoCandidates(m + [x], t, cand);
    assert (m + [x])[..|m|] == m;
    WithoutConcat(m, t, cand);
    WithoutConcat(m + [x], t, cand);
    WithoutConcat(m, [x], cand);
  }

  lemma InsertAllSnoc<T(!new)>(s: seq<T>, added: seq<AddedItem<T>>, last: AddedItem<T>)
    ensures InsertAll(s, added + [last]) == InsertAt(InsertAll(s, added), last.index, last.id)
  {
    assert (added + [last])[..|added|] == added;
  }

  lemma InsertLast<T(!new)>(p: seq<T>, m: seq<T>, x: T, t: seq<T>)
    ensures InsertAt(p, |m|, x) == m + [x] + t <==> p == m + t
  {
    var r := InsertAt(p, |m|, x);
    if r == m + [x] + t {
      assert |p| == |m| + |t|;
      assert p[..|m|] == r[..|m|] == m;
      assert p[|m|..] == r[|m| + 1..] == t;
    }
  }

  lemma {:induction false} LastCandidate<T(!new)>(s: seq<T>, cand: set<T>) returns (m: seq<T>, x: T, t: seq<T>)
    requires exists y :: y in s && y in cand
    ensures s == m + [x] + t && x in cand && forall y :: y in t ==> y !in cand
  {
    var n := |s| - 1;
    if s[n] in cand {
      m, x, t := s[..n], s[n], [];
    } else {
      var y :| y in s && y in cand;
      assert y in s[..n];
      m, x, t := LastCandidate(s[..n], cand);
      t := t + [s[n]];
    }
  }

  /** A reply cut off at an anchor still puts every position up to the anchor
      right, and keeps the uncut part of the list in order behind it. */
  lemma SpliceAnchored<T(!new)>(cached: seq<T>, results: seq<T>, removed: set<T>, cand: set<T>, k: nat)
    requires k < |results|
    requires Without(cached, removed) == Without(results, cand)
    ensures SpliceReply(cached, removed, AddedOf(results[..k + 1], cand))
         == results[..k + 1] + Without(results[k + 1..], cand)
  {
    var head, tail := results[..k + 1], Without(results[k + 1..], cand);
    assert results == head + results[k + 1..];
    WithoutConcat(head, results[k + 1..], cand);
    WithoutMembers(results[k + 1..], cand);
    WithoutNone(tail, cand);
    WithoutConcat(head, tail, cand);
    NoCandidates(head, tail, cand);
    InsertExact(Without(cached, removed), head + tail, cand);
  }
}
