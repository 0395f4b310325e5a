/** Collapsed queries (core/runtime/query.go:349-422 and 1205-1219; section 4.4.3 of
    RFC 8621): the list keeps only the first record of each group. */
module Collapse {
  import opened ByteOrder
  import opened Records
  import opened Lists
  import opened Splice
  import opened Results

  /** The raw grouping value; records without it share one group. */
  function GroupOf(o: Object, key: Name): Raw { if key in o then o[key] else [] }

  /** `list` keeping only the first record of each group not in `seen`. */
  function Firsts(list: seq<Id>, db: Table, key: Name, seen: set<Raw>): seq<Id>
    requires forall id :: id in list ==> id in db
  {
    if list == [] then [] else
    assert list[0] in list && forall id :: id in list[1..] ==> id in list;
    var g := GroupOf(db[list[0]], key);
    if g in seen then Firsts(list[1..], db, key, seen)
    else [list[0]] + Firsts(list[1..], db, key, seen + {g})
  }

  method CollapseByKey(list: seq<Id>, db: Table, key: Name) returns (out: seq<Id>)
    requires forall id :: id in list ==> id in db
    ensures out == Firsts(list, db, key, {})
  {
    var seen: set<Raw> := {};
    out := [];
    for i := 0 to |list|
      invariant forall id :: id in list[i..] ==> id in db
      invariant Firsts(list, db, key, {}) == out + Firsts(list[i..], db, key, seen)
    {
      var rest := list[i..];
      assert rest[0] == list[i] && rest[1..] == list[i + 1..] && list[i] in list;
      assert forall id :: id in rest[1..] ==> id in rest;
      var g := GroupOf(db[list[i]], key);
      if g !in seen {
        seen := seen + {g};
        out := out + [list[i]];
      }
    }
  }

  /** `id` matches and comes before every other matching record of its group. */
  ghost predicate Represents(q: Query, db: Table, key: Name, id: Id) {
    && id in Matching(q, db)
    && forall x :: x in Matching(q, db) && GroupOf(db[x], key) == GroupOf(db[id], key)
         ==> x == id || Before(q, db, id, x)
  }

  /** What a collapsed result is, independently of the walk that computes it. */
  ghost predicate IsCollapsed(q: Query, db: Table, key: Name, list: seq<Id>) {
    && (forall id :: id in list <==> Represents(q, db, key, id))
    && Ascending(list, (a, b) => Before(q, db, a, b))
  }

  lemma {:induction false} FirstsMembers(list: seq<Id>, db: Table, key: Name, seen: set<Raw>, before: (Id, Id) -> bool)
    requires (forall id :: id in list ==> id in db) && Ascending(list, before)
    requires forall a, b :: a in list && b in list && before(a, b) ==> !before(b, a)
    ensures forall id :: id in Firsts(list, db, key, seen) <==>
      && id in list && GroupOf(db[id], key) !in seen
      && forall x :: x in list && GroupOf(db[x], key) == GroupOf(db[id], key) ==> x == id || before(id, x)
    ensures Ascending(Firsts(list, db, key, seen), before)
  {
    if list != [] {
      var h, rest := list[0], list[1..];
      assert h in list && forall id :: id in list <==> id == h || id in rest;
      forall id | id in rest ensures before(h, id) && id != h {
        var i :| 0 <= i < |rest| && rest[i] == id;
        assert before(list[0], list[i + 1]);
      }
      var g := GroupOf(db[h], key);
      var seen' := if g in seen then seen else seen + {g};
      FirstsMembers(rest, db, key, seen', before);
      var tail := Firsts(rest, db, key, seen');
      forall j | 0 <= j < |tail| ensures before(h, tail[j]) { assert tail[j] in tail; }
    }
  }

  /** Walking the sorted list and keeping first occurrences yields exactly the
      least record of each group, in order. */
  lemma CollapseCorrect(q: Query, db: Table, key: Name, list: seq<Id>)
    requires Orderly(q, Matched(q, db)) && IsResult(q, db, list)
    ensures forall id :: id in list ==> id in db
    ensures IsCollapsed(q, db, key, Firsts(list, db, key, {}))
  {
    assert forall id :: id in list <==> id in Elems(list);
    BeforeAsymmetric(q, db, Elems(list));
    FirstsMembers(list, db, key, {}, (a, b) => Before(q, db, a, b));
  }

  /** The stored grouping values are the same; having none is having an empty one. */
  ghost predicate SameGroup(a: Object, b: Object, key: Name) {
    if key in a && key in b then a[key] == b[key]
    else (key in a ==> a[key] == []) && (key in b ==> b[key] == [])
  }

  lemma GroupsAre(a: Object, b: Object, key: Name)
    ensures GroupOf(a, key) == GroupOf(b, key) <==> SameGroup(a, b, key)
  {
  }

  /** A collapsed list names no two records of one value, and for every match one of its
      value that does not come after it. */
  lemma OnePerGroup(q: Query, db: Table, key: Name, list: seq<Id>)
    requires Orderly(q, Matched(q, db)) && IsCollapsed(q, db, key, list)
    ensures forall a :: a in list ==> a in Matching(q, db)
    ensures forall i, j :: 0 <= i < j < |list| ==> list[i] != list[j]
    ensures forall a, b :: a in list && b in list && a != b ==> !SameGroup(db[a], db[b], key)
    ensures forall x :: x in Matching(q, db) ==> Stands(q, db, key, list, x)
  {
    forall a | a in list ensures a in Matching(q, db) { assert Represents(q, db, key, a); }
    forall i, j | 0 <= i < j < |list| ensures list[i] != list[j] {
      assert list[i] in list && list[j] in list && Before(q, db, list[i], list[j]);
      BeforeAsymmetric(q, db, {list[i]});
    }
    forall a, b | a in list && b in list && a != b ensures !SameGroup(db[a], db[b], key) {
      assert Represents(q, db, key, a) && Represents(q, db, key, b);
      BeforeAsymmetric(q, db, {a, b});
      GroupsAre(db[a], db[b], key);
    }
    forall x | x in Matching(q, db) ensures Stands(q, db, key, list, x) {
      var r := Least(q, db, key, x);
      GroupsAre(db[r], db[x], key);
      assert r in list;
    }
  }

  /** The list has a record of that value that does not come after `x`. */
  ghost predicate Stands(q: Query, db: Table, key: Name, list: seq<Id>, x: Id)
    requires x in db
  {
    exists r :: r in list && r in db && SameGroup(db[r], db[x], key) && (r == x || Before(q, db, r, x))
  }

  lemma Least(q: Query, db: Table, key: Name, x: Id) returns (r: Id)
    requires Orderly(q, Matched(q, db)) && x in Matching(q, db)
    ensures Represents(q, db, key, r) && GroupOf(db[r], key) == GroupOf(db[x], key) && (r == x || Before(q, db, r, x))
  {
    var group := set y | y in Matching(q, db) && GroupOf(db[y], key) == GroupOf(db[x], key);
    var t := Sorted(q, db, group);
    assert x in Elems(t);
    r := t[0];
    assert r in Elems(t);
    forall y | y in group ensures y == r || Before(q, db, r, y) {
      assert y in Elems(t);
      HeadFirst(t, y, (a, b) => Before(q, db, a, b));
    }
  }

  // ---- The collapsed splice ----

  /** `updated` names every surviving record that differs. */
  ghost predicate NamesUpdates(db0: Table, db1: Table, updated: set<Id>) {
    && updated <= db0.Keys * db1.Keys
    && forall id :: id in db0 && id in db1 && id !in updated ==> db0[id] == db1[id]
  }

  /** Current members of the listed groups, as the collapse-key index gives them. */
  function Expanded(db1: Table, key: Name, groups: set<Raw>): set<Id> {
    set id | id in db1 && GroupOf(db1[id], key) in groups
  }

  function Removed(db0: Table, db1: Table, key: Name, updated: set<Id>, groups: set<Raw>): set<Id> {
    RemovedSet(db1.Keys - db0.Keys, updated, db0.Keys - db1.Keys, Expanded(db1, key, groups), false)
  }

  function Candidates(db0: Table, db1: Table, key: Name, updated: set<Id>, groups: set<Raw>): set<Id> {
    AddCand(db1.Keys - db0.Keys, updated, Expanded(db1, key, groups), false)
  }

  /** A record the reply says nothing about. */
  predicate Untold(db0: Table, db1: Table, key: Name, updated: set<Id>, groups: set<Raw>, id: Id) {
    id in db0 && id in db1 && id !in updated && GroupOf(db1[id], key) !in groups
  }

  /** Splicing a collapsed reply comes down to the records the reply says nothing about
      representing their groups as before. */
  lemma SpliceByRepresentatives(q: Query, db0: Table, db1: Table, key: Name, updated: set<Id>, groups: set<Raw>,
                                l0: seq<Id>, l1: seq<Id>)
    requires Orderly(q, Matched(q, db0)) && NamesUpdates(db0, db1, updated)
    requires IsCollapsed(q, db0, key, l0) && IsCollapsed(q, db1, key, l1)
    ensures SpliceReply(l0, Removed(db0, db1, key, updated, groups),
                        AddedOf(l1, Candidates(db0, db1, key, updated, groups))) == l1
       <==> forall id :: Untold(db0, db1, key, updated, groups, id)
              ==> (Represents(q, db0, key, id) <==> Represents(q, db1, key, id))
  {
    var removed, cand := Removed(db0, db1, key, updated, groups), Candidates(db0, db1, key, updated, groups);
    SpliceExact(l0, l1, removed, cand);
    var s, t := Without(l0, removed), Without(l1, cand);
    WithoutMembers(l0, removed);
    WithoutMembers(l1, cand);
    forall id ensures id in s <==> Represents(q, db0, key, id) && Untold(db0, db1, key, updated, groups, id) {}
    forall id ensures id in t <==> Represents(q, db1, key, id) && Untold(db0, db1, key, updated, groups, id) {}
    if forall id :: Untold(db0, db1, key, updated, groups, id)
         ==> (Represents(q, db0, key, id) <==> Represents(q, db1, key, id)) {
      SameOrder(q, db0, db1, key, updated, groups, l0, l1);
    }
  }

  lemma SameOrder(q: Query, db0: Table, db1: Table, key: Name, updated: set<Id>, groups: set<Raw>,
                  l0: seq<Id>, l1: seq<Id>)
    requires Orderly(q, Matched(q, db0)) && NamesUpdates(db0, db1, updated)
    requires (forall id :: id in l0 ==> id in Matching(q, db0))
    requires Ascending(l0, (a, b) => Before(q, db0, a, b)) && Ascending(l1, (a, b) => Before(q, db1, a, b))
    requires var removed, cand := Removed(db0, db1, key, updated, groups), Candidates(db0, db1, key, updated, groups);
      && (forall id :: id in Without(l0, removed) <==> id in Without(l1, cand))
      && (forall id :: id in Without(l1, cand) ==> Untold(db0, db1, key, updated, groups, id))
    ensures Without(l0, Removed(db0, db1, key, updated, groups))
         == Without(l1, Candidates(db0, db1, key, updated, groups))
  {
    var removed, cand := Removed(db0, db1, key, updated, groups), Candidates(db0, db1, key, updated, groups);
    var before0 := (a, b) => Before(q, db0, a, b);
    var s, t := Without(l0, removed), Without(l1, cand);
    AscendingWithout(l0, removed, before0);
    AscendingWithout(l1, cand, (a, b) => Before(q, db1, a, b));
    forall i, j | 0 <= i < j < |t| ensures before0(t[i], t[j]) {
      assert Before(q, db1, t[i], t[j]);
      assert t[i] in t && t[j] in t;
    }
    WithoutMembers(l0, removed);
    BeforeAsymmetric(q, db0, Elems(s));
    assert Elems(s) == Elems(t);
    AscendingUnique(s, t, before0);
  }

  /** The record is not the same on both sides. */
  predicate Changed(db0: Table, db1: Table, updated: set<Id>, id: Id) {
    id !in db0 || id !in db1 || id in updated
  }

  /** An unchanged match that comes first among the unchanged matches of its group. */
  ghost predicate Leads(q: Query, db0: Table, db1: Table, key: Name, updated: set<Id>, id: Id) {
    && !Changed(db0, db1, updated, id) && q.matches(db1[id])
    && forall x :: !Changed(db0, db1, updated, x) && q.matches(db1[x]) && GroupOf(db1[x], key) == GroupOf(db1[id], key)
         ==> x == id || Before(q, db1, id, x)
  }

  /** A matching member of the group among `changed` is not behind `id`. */
  ghost predicate Overtaken(q: Query, db: Table, key: Name, changed: Id -> bool, id: Id)
    requires id in db
  {
    exists x ::
      changed(x) && x in Matching(q, db) && GroupOf(db[x], key) == GroupOf(db[id], key) && !Before(q, db, id, x)
  }

  /** The splice of a collapsed reply is right if and only if, in every group that is not
      listed, a changed member stood ahead of the first unchanged match exactly when one
      does now. */
  lemma CollapsedSpliceExact(q: Query, db0: Table, db1: Table, key: Name, updated: set<Id>, groups: set<Raw>,
                             l0: seq<Id>, l1: seq<Id>)
    requires Orderly(q, Matched(q, db0)) && NamesUpdates(db0, db1, updated)
    requires IsCollapsed(q, db0, key, l0) && IsCollapsed(q, db1, key, l1)
    ensures var changed := x => Changed(db0, db1, updated, x);
      SpliceReply(l0, Removed(db0, db1, key, updated, groups),
                  AddedOf(l1, Candidates(db0, db1, key, updated, groups))) == l1
      <==> forall id :: Leads(q, db0, db1, key, updated, id) && GroupOf(db1[id], key) !in groups
             ==> (Overtaken(q, db0, key, changed, id) <==> Overtaken(q, db1, key, changed, id))
  {
    SpliceByRepresentatives(q, db0, db1, key, updated, groups, l0, l1);
    forall id | !Changed(db0, db1, updated, id)
      ensures var changed := x => Changed(db0, db1, updated, x);
        && (Represents(q, db0, key, id) <==>
          Leads(q, db0, db1, key, updated, id) && !Overtaken(q, db0, key, changed, id))
        && (Represents(q, db1, key, id) <==>
          Leads(q, db0, db1, key, updated, id) && !Overtaken(q, db1, key, changed, id))
    {
      LeaderRepresents(q, db0, db1, key, updated, id);
    }
  }

  lemma LeaderRepresents(q: Query, db0: Table, db1: Table, key: Name, updated: set<Id>, id: Id)
    requires NamesUpdates(db0, db1, updated) && !Changed(db0, db1, updated, id)
    ensures var changed := x => Changed(db0, db1, updated, x);
      && (Represents(q, db0, key, id) <==> Leads(q, db0, db1, key, updated, id) && !Overtaken(q, db0, key, changed, id))
      && (Represents(q, db1, key, id) <==> Leads(q, db0, db1, key, updated, id) && !Overtaken(q, db1, key, changed, id))
  {
    forall x | !Changed(db0, db1, updated, x)
      ensures (Before(q, db0, id, x) <==> Before(q, db1, id, x)) && db0[x] == db1[x]
    {}
  }

  /** Every group that lost, gained or kept a changed member is listed. */
  ghost predicate GroupsListed(db0: Table, db1: Table, key: Name, updated: set<Id>, groups: set<Raw>) {
    forall id ::
      && (id in db0 && (id !in db1 || id in updated) ==> GroupOf(db0[id], key) in groups)
      && (id in db1 && (id !in db0 || id in updated) ==> GroupOf(db1[id], key) in groups)
  }

  /** When the companion lists every group with a changed member, the splice is
      right, although untouched siblings may become representatives. */
  lemma CollapsedSplice(q: Query, db0: Table, db1: Table, key: Name, updated: set<Id>, groups: set<Raw>,
                        l0: seq<Id>, l1: seq<Id>)
    requires Orderly(q, Matched(q, db0)) && NamesUpdates(db0, db1, updated)
    requires IsCollapsed(q, db0, key, l0) && IsCollapsed(q, db1, key, l1)
    requires GroupsListed(db0, db1, key, updated, groups)
    ensures SpliceReply(l0, Removed(db0, db1, key, updated, groups),
                        AddedOf(l1, Candidates(db0, db1, key, updated, groups))) == l1
  {
    SpliceByRepresentatives(q, db0, db1, key, updated, groups, l0, l1);
    forall id | Untold(db0, db1, key, updated, groups, id)
      ensures Represents(q, db0, key, id) <==> Represents(q, db1, key, id)
    {
      UntoldKeepsStanding(q, db0, db1, key, updated, groups, id);
    }
  }

  /** A group that is not listed has the same members and records on both sides. */
  lemma UntoldKeepsStanding(q: Query, db0: Table, db1: Table, key: Name, updated: set<Id>, groups: set<Raw>, id: Id)
    requires NamesUpdates(db0, db1, updated) && GroupsListed(db0, db1, key, updated, groups)
    requires Untold(db0, db1, key, updated, groups, id)
    ensures Represents(q, db0, key, id) <==> Represents(q, db1, key, id)
  {
    forall x
      ensures x in Matching(q, db0) && GroupOf(db0[x], key) == GroupOf(db0[id], key)
         <==> x in Matching(q, db1) && GroupOf(db1[x], key) == GroupOf(db1[id], key)
      ensures x in Matching(q, db0) && GroupOf(db0[x], key) == GroupOf(db0[id], key)
         ==> (Before(q, db0, id, x) <==> Before(q, db1, id, x))
    {}
  }

  /** Listing only groups whose membership changed is not enough: a member updated
      in place can hand the group to a sibling the reply never mentions. */
  lemma MembershipListingFails(key: Name, flag: Name, a: Id, b: Id, g: Raw)
      returns (q: Query, db0: Table, db1: Table, l0: seq<Id>, l1: seq<Id>)
    requires key != flag && Less(a, b)
    ensures Orderly(q, Matched(q, db0)) && NamesUpdates(db0, db1, {a})
    ensures IsCollapsed(q, db0, key, l0) && IsCollapsed(q, db1, key, l1)
    ensures db0.Keys == db1.Keys && forall id :: id in db0 ==> GroupOf(db0[id], key) == GroupOf(db1[id], key)
    ensures SpliceReply(l0, Removed(db0, db1, key, {a}, {}), AddedOf(l1, Candidates(db0, db1, key, {a}, {}))) != l1
  {
    q := Query((o: Object) => flag in o, (x: Object, y: Object) => 0);
    var on: Object, off: Object := map[key := g, flag := []], map[key := g];
    db0, db1 := map[a := on, b := on], map[a := off, b := on];
    l0, l1 := [a], [b];
    Irreflexive(a);
    Asymmetric(a, b);
    assert Matching(q, db0) == {a, b} && Matching(q, db1) == {b};
    assert Represents(q, db0, key, a) && !Represents(q, db0, key, b);
    assert Represents(q, db1, key, b) && !Represents(q, db1, key, a);
    SpliceByRepresentatives(q, db0, db1, key, {a}, {}, l0, l1);
    assert Untold(db0, db1, key, {a}, {}, b);
  }
}
