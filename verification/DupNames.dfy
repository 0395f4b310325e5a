/** Duplicate member names (core/internal/jsonscan: checkValue, checkMembers,
    probeInsert, rehashInto; section 2.3 of RFC 7493). The grammar is left aside: what
    is walked is the tree of values with decoded names. Whatever the hash, the check
    accepts exactly the values whose objects have distinct names and whose nesting
    stays within bounds. */
module DupNames {
  import opened Options
  import opened ByteOrder

  datatype Json = Scalar | Arr(items: seq<Json>) | Obj(members: seq<Member>)
  datatype Member = Member(name: Bytes, value: Json)

  const DUP_SPILL_AT := 32

  predicate Distinct(names: seq<Bytes>) { forall i, j :: 0 <= i < j < |names| ==> names[i] != names[j] }

  function Names(ms: seq<Member>): (r: seq<Bytes>)
    ensures |r| == |ms| && forall i :: 0 <= i < |ms| ==> r[i] == ms[i].name
  {
    seq(|ms|, i requires 0 <= i < |ms| => ms[i].name)
  }

  /** What the check is for. */
  predicate Acceptable(v: Json, open: nat, maxDepth: int) {
    && open <= maxDepth
    && match v
       case Scalar => true
       case Arr(items) => forall i :: 0 <= i < |items| ==> Acceptable(items[i], open + 1, maxDepth)
       case Obj(ms) => Distinct(Names(ms)) && forall i :: 0 <= i < |ms| ==> Acceptable(ms[i].value, open + 1, maxDepth)
  }

  /** The value a path of positions leads to. */
  function At(v: Json, path: seq<nat>): Option<Json>
    decreases |path|
  {
    if path == [] then Some(v)
    else match v
      case Scalar => None
      case Arr(items) => if path[0] < |items| then At(items[path[0]], path[1..]) else None
      case Obj(ms) => if path[0] < |ms| then At(ms[path[0]].value, path[1..]) else None
  }

  ghost predicate FineAt(v: Json, path: seq<nat>, open: nat, maxDepth: int) {
    At(v, path).Some? ==>
      && open + |path| <= maxDepth
      && (At(v, path).value.Obj? ==> var ms := At(v, path).value.members;
          forall i, j :: 0 <= i < j < |ms| ==> ms[i].name != ms[j].name)
  }

  ghost predicate FineEverywhere(v: Json, open: nat, maxDepth: int) {
    forall path: seq<nat> :: FineAt(v, path, open, maxDepth)
  }

  ghost function Width(v: Json): nat { if v.Arr? then |v.items| else if v.Obj? then |v.members| else 0 }

  ghost function ChildAt(v: Json, i: nat): (c: Json)
    requires i < Width(v)
    ensures c < v
  {
    if v.Arr? then v.items[i] else v.members[i].value
  }

  /** Place by place: acceptable is what has no value nested too deep and no object, however
      deep, with two members of one name. */
  lemma {:induction false} AcceptableEverywhere(v: Json, open: nat, maxDepth: int)
    ensures Acceptable(v, open, maxDepth) <==> FineEverywhere(v, open, maxDepth)
    decreases v
  {
    forall i: nat | i < Width(v)
      ensures Acceptable(ChildAt(v, i), open + 1, maxDepth) <==> FineEverywhere(ChildAt(v, i), open + 1, maxDepth)
    {
      AcceptableEverywhere(ChildAt(v, i), open + 1, maxDepth);
    }
    FineByChildren(v, open, maxDepth);
    AcceptableByChildren(v, open, maxDepth);
  }

  lemma AcceptableByChildren(v: Json, open: nat, maxDepth: int)
    ensures Acceptable(v, open, maxDepth) <==>
      FineAt(v, [], open, maxDepth) && forall i: nat :: i < Width(v) ==> Acceptable(ChildAt(v, i), open + 1, maxDepth)
  {
    if v.Arr? {
      assert forall i: nat :: i < |v.items| ==> ChildAt(v, i) == v.items[i];
    } else if v.Obj? {
      assert forall i: nat :: i < |v.members| ==> ChildAt(v, i) == v.members[i].value;
      assert Distinct(Names(v.members)) <==>
        forall i, j :: 0 <= i < j < |v.members| ==> v.members[i].name != v.members[j].name by {
        assert forall i :: 0 <= i < |v.members| ==> Names(v.members)[i] == v.members[i].name;
        if Distinct(Names(v.members)) {
          forall i, j | 0 <= i < j < |v.members| ensures v.members[i].name != v.members[j].name {
            assert Names(v.members)[i] != Names(v.members)[j];
          }
        }
      }
    }
  }

  lemma FineByChildren(v: Json, open: nat, maxDepth: int)
    ensures FineEverywhere(v, open, maxDepth) <==>
      && FineAt(v, [], open, maxDepth)
      && forall i: nat :: i < Width(v) ==> FineEverywhere(ChildAt(v, i), open + 1, maxDepth)
  {
    if FineEverywhere(v, open, maxDepth) {
      forall i: nat | i < Width(v) ensures FineEverywhere(ChildAt(v, i), open + 1, maxDepth) {
        var child, deeper := ChildAt(v, i), open + 1;
        forall path: seq<nat> ensures FineAt(child, path, deeper, maxDepth) {
          var longer := [i] + path;
          assert longer[0] == i && longer[1..] == path && FineAt(v, longer, open, maxDepth);
        }
      }
    }
    if FineAt(v, [], open, maxDepth)
      && forall i: nat :: i < Width(v) ==> FineEverywhere(ChildAt(v, i), open + 1, maxDepth)
    {
      forall path: seq<nat> ensures FineAt(v, path, open, maxDepth) {
        if path != [] && path[0] < Width(v) {
          assert FineAt(ChildAt(v, path[0]), path[1..], open + 1, maxDepth);
        }
      }
    }
  }

  // ---- The probe table ----

  /** k steps of linear probing from `home`, and how many lead to slot `p`. */
  function Slot(home: int, k: int, n: int): int { if home + k < n then home + k else home + k - n }

  function Steps(home: int, p: int, n: int): int { if p >= home then p - home else p - home + n }

  function Home(h: nat, n: nat): nat
    requires n > 0
  {
    h % n
  }

  /** The first `steps` slots of a probe are taken. */
  ghost predicate Filled(t: seq<int>, home: nat, steps: int)
    requires home < |t| && steps <= |t|
  {
    forall k :: 0 <= k < steps ==> t[Slot(home, k, |t|)] != 0
  }

  /** The entry in slot p, if any, is reached from its home without a gap. */
  ghost predicate Reached(t: seq<int>, hashes: seq<nat>, p: int)
    requires 0 <= p < |t|
  {
    t[p] != 0 ==>
      && 1 <= t[p] <= |hashes|
      && var home := Home(hashes[t[p] - 1], |t|); Filled(t, home, Steps(home, p, |t|))
  }

  /** A probe table of the names with these hashes: each has one slot. */
  ghost predicate Table(t: seq<int>, hashes: seq<nat>) {
    && |hashes| < |t|
    && (forall p :: 0 <= p < |t| ==> Reached(t, hashes, p))
    && (forall p, q :: 0 <= p < q < |t| && t[p] == t[q] ==> t[p] == 0)
    && (forall j :: 1 <= j <= |hashes| ==> j in t)
  }

  /** Free slots are never all taken. */
  lemma FreeSlot(t: seq<int>, hashes: seq<nat>) returns (p: nat)
    requires Table(t, hashes)
    ensures p < |t| && t[p] == 0
  {
    if forall q :: 0 <= q < |t| ==> t[q] != 0 {
      forall q | 0 <= q < |t| ensures 1 <= t[q] <= |hashes| { assert Reached(t, hashes, q); }
      Pigeonhole(t, |hashes|);
      assert false;
    }
    p :| 0 <= p < |t| && t[p] == 0;
  }

  lemma {:induction false} Pigeonhole(t: seq<int>, m: nat)
    requires forall p :: 0 <= p < |t| ==> 1 <= t[p] <= m
    requires forall p, q :: 0 <= p < q < |t| ==> t[p] != t[q]
    ensures |t| <= m
    decreases m
  {
    if |t| > 0 {
      if m in t {
        var p :| 0 <= p < |t| && t[p] == m;
        var rest := t[..p] + t[p + 1..];
        Pigeonhole(rest, m - 1);
      } else {
        assert 1 <= t[0] <= m;
        Pigeonhole(t, m - 1);
      }
    }
  }

  lemma StillReached(t: seq<int>, hashes: seq<nat>, h: nat, i: nat, p: nat)
    requires i < |t| && p < |t| && p != i && Reached(t, hashes, p)
    ensures Reached(t[i := |hashes| + 1], hashes + [h], p)
  {
    var t' := t[i := |hashes| + 1];
    if t[p] != 0 {
      var home := Home(hashes[t[p] - 1], |t|);
      assert (hashes + [h])[t'[p] - 1] == hashes[t[p] - 1];
      forall k | 0 <= k < Steps(home, p, |t|) ensures t'[Slot(home, k, |t|)] != 0 { assert t[Slot(home, k, |t|)] != 0; }
    }
  }

  /** Taking the free slot that probing for `h` ends at keeps the table. */
  lemma Taken(t: seq<int>, hashes: seq<nat>, h: nat, k: nat)
    requires Table(t, hashes) && |hashes| + 1 < |t| && k < |t|
    requires t[Slot(Home(h, |t|), k, |t|)] == 0 && Filled(t, Home(h, |t|), k)
    ensures Table(t[Slot(Home(h, |t|), k, |t|) := |hashes| + 1], hashes + [h])
  {
    var n, home := |t|, Home(h, |t|);
    var i := Slot(home, k, n);
    var t', hashes' := t[i := |hashes| + 1], hashes + [h];
    forall p | 0 <= p < n ensures Reached(t', hashes', p) {
      if p != i {
        assert Reached(t, hashes, p);
        StillReached(t, hashes, h, i, p);
      } else {
        assert Steps(home, i, n) == k && hashes'[t'[i] - 1] == h;
        forall d | 0 <= d < k ensures t'[Slot(home, d, n)] != 0 { assert t[Slot(home, d, n)] != 0; }
      }
    }
    OneSlotEach(t, hashes, i);
    OneMoreName(t, hashes, i, t');
  }

  lemma OneSlotEach(t: seq<int>, hashes: seq<nat>, i: nat)
    requires Table(t, hashes) && i < |t|
    ensures var t' := t[i := |hashes| + 1]; forall p, q :: 0 <= p < q < |t| && t'[p] == t'[q] ==> t'[p] == 0
  {
    forall p | 0 <= p < |t| ensures t[p] <= |hashes| { assert Reached(t, hashes, p); }
  }

  lemma OneMoreName(t: seq<int>, hashes: seq<nat>, i: nat, t': seq<int>)
    requires Table(t, hashes) && i < |t| && t[i] == 0 && t' == t[i := |hashes| + 1]
    ensures forall j :: 1 <= j <= |hashes| + 1 ==> j in t'
  {
    forall j | 1 <= j <= |hashes| + 1 ensures j in t' {
      if j <= |hashes| {
        assert j in t;
        var p :| 0 <= p < |t| && t[p] == j;
        assert t'[p] == j;
      } else {
        assert t'[i] == j;
      }
    }
  }

  /** A name already in the table is met before the first free slot. */
  lemma MetBeforeFree(t: seq<int>, hashes: seq<nat>, j: nat, k: nat) returns (d: nat)
    requires Table(t, hashes) && j < |hashes| && k < |t| && t[Slot(Home(hashes[j], |t|), k, |t|)] == 0
    ensures d < k && t[Slot(Home(hashes[j], |t|), d, |t|)] == j + 1
  {
    var n, home := |t|, Home(hashes[j], |t|);
    assert j + 1 in t;
    var p :| 0 <= p < n && t[p] == j + 1;
    assert Reached(t, hashes, p);
    d := Steps(home, p, n);
    assert Slot(home, d, n) == p;
  }

  // ---- Probing ----

  /** The slot after i, around the end. */
  function After(i: nat, n: nat): nat { if i + 1 == n then 0 else i + 1 }

  /** The slot where a new entry with hash h goes. */
  method FreeFrom(table: array<int>, h: nat, ghost hashes: seq<nat>) returns (i: nat, ghost k: nat)
    requires Table(table[..], hashes)
    ensures k < table.Length && i == Slot(Home(h, table.Length), k, table.Length) && table[i] == 0
    ensures Filled(table[..], Home(h, table.Length), k)
  {
    ghost var free := FreeSlot(table[..], hashes);
    ghost var n, home := table.Length, Home(h, table.Length);
    i, k := h % table.Length, 0;
    while table[i] != 0
      invariant k <= Steps(home, free, n) && i == Slot(home, k, n) && Filled(table[..], home, k)
      decreases n - k
    {
      i := After(i, table.Length);
      k := k + 1;
    }
  }

  /** A table of size n over the hashes of names known to be distinct. */
  method RehashInto(hashes: seq<nat>, n: nat) returns (table: array<int>)
    requires |hashes| < n
    ensures fresh(table) && table.Length == n && Table(table[..], hashes)
  {
    table := new int[n](i => 0);
    for j := 0 to |hashes|
      invariant Table(table[..], hashes[..j])
    {
      ghost var t := table[..];
      ghost var k;
      var i;
      i, k := FreeFrom(table, hashes[j], hashes[..j]);
      Taken(t, hashes[..j], hashes[j], k);
      assert hashes[..j + 1] == hashes[..j] + [hashes[j]];
      table[i] := j + 1;
      assert table[..] == t[i := j + 1];
    }
    assert hashes[..|hashes|] == hashes;
  }

  function Hashes(names: seq<Bytes>, hash: Bytes -> nat): (r: seq<nat>)
    ensures |r| == |names| && forall i :: 0 <= i < |names| ==> r[i] == hash(names[i])
  {
    seq(|names|, i requires 0 <= i < |names| => hash(names[i]))
  }

  /** Look a name up among the object's, and claim a slot for it if it is new: found if
      and only if it is one of them, whatever the hash. */
  method ProbeInsert(table: array<int>, names: seq<Bytes>, name: Bytes, hash: Bytes -> nat) returns (dup: bool)
    requires Table(table[..], Hashes(names, hash)) && |names| + 1 < table.Length
    modifies table
    ensures dup <==> name in names
    ensures dup ==> table[..] == old(table[..])
    ensures !dup ==> Table(table[..], Hashes(names + [name], hash))
  {
    ghost var t, n, h, hashes := table[..], table.Length, hash(name), Hashes(names, hash);
    ghost var home := Home(h, n);
    ghost var free := FreeSlot(t, hashes);
    var i := hash(name) % table.Length;
    ghost var k := 0;
    while true
      invariant table[..] == t && k <= Steps(home, free, n) && i == Slot(home, k, n) && Filled(t, home, k)
      invariant forall d :: 0 <= d < k ==> PassedBy(t, names, name, Slot(home, d, n))
      decreases n - k
    {
      var e := table[i];
      if e == 0 {
        NotThere(t, names, name, hash, k);
        Taken(t, hashes, h, k);
        assert Hashes(names + [name], hash) == hashes + [h];
        table[i] := |names| + 1;
        assert table[..] == t[i := |names| + 1];
        return false;
      }
      assert Reached(t, hashes, i);
      if names[e - 1] == name {
        return true;
      }
      i := After(i, table.Length);
      k := k + 1;
    }
  }

  ghost predicate PassedBy(t: seq<int>, names: seq<Bytes>, name: Bytes, p: int) {
    0 <= p < |t| && 1 <= t[p] <= |names| && names[t[p] - 1] != name
  }

  lemma NotThere(t: seq<int>, names: seq<Bytes>, name: Bytes, hash: Bytes -> nat, k: nat)
    requires Table(t, Hashes(names, hash)) && k < |t| && t[Slot(Home(hash(name), |t|), k, |t|)] == 0
    requires forall d :: 0 <= d < k ==> PassedBy(t, names, name, Slot(Home(hash(name), |t|), d, |t|))
    ensures name !in names
  {
    if name in names {
      var j :| 0 <= j < |names| && names[j] == name;
      var d := MetBeforeFree(t, Hashes(names, hash), j, k);
    }
  }

  // ---- The walk ----

  /** The names of the first i members. */
  function Seen(ms: seq<Member>, i: nat): (r: seq<Bytes>)
    requires i <= |ms|
    ensures |r| == i && forall k :: 0 <= k < i ==> r[k] == ms[k].name
  {
    Names(ms[..i])
  }

  lemma SeenNext(ms: seq<Member>, i: nat)
    requires i < |ms| && Distinct(Seen(ms, i))
    ensures Seen(ms, i + 1) == Seen(ms, i) + [ms[i].name]
    ensures Distinct(Seen(ms, i + 1)) <==> ms[i].name !in Seen(ms, i)
    ensures ms[i].name in Seen(ms, i) ==> !Distinct(Names(ms))
  {
    var names, name := Seen(ms, i), ms[i].name;
    if name in names {
      var j :| 0 <= j < |names| && names[j] == name;
      assert Names(ms)[j] == Names(ms)[i] && Seen(ms, i + 1)[j] == Seen(ms, i + 1)[i];
    }
  }

  lemma SeenAll(ms: seq<Member>)
    ensures Seen(ms, |ms|) == Names(ms)
  {
    assert ms[..|ms|] == ms;
  }

  class Scanner {
    const hash: Bytes -> nat
    /** The shared name stack: each open object owns the tail from its own base. */
    var names: seq<Bytes>

    constructor (hash: Bytes -> nat)
      ensures names == [] && this.hash == hash
    {
      this.hash := hash;
      names := [];
    }

    /** Accepts exactly the acceptable values, and leaves the name stack as it was,
        also when it refuses. */
    method CheckValue(v: Json, open: nat, maxDepth: int) returns (ok: bool)
      modifies this
      ensures names == old(names)
      ensures ok <==> Acceptable(v, open, maxDepth)
      decreases v, 1
    {
      if open > maxDepth {
        return false;
      }
      match v
      case Scalar => ok := true;
      case Arr(items) =>
        for i := 0 to |items|
          invariant names == old(names)
          invariant forall k :: 0 <= k < i ==> Acceptable(items[k], open + 1, maxDepth)
        {
          ok := CheckValue(items[i], open + 1, maxDepth);
          if !ok {
            return;
          }
        }
        ok := true;
      case Obj(ms) =>
        if ms == [] {
          return true;
        }
        var base := |names|;
        ok := CheckMembers(v, open, maxDepth);
        names := names[..base];
    }

    /** The object's own names so far, checked one by one or through the table. */
    ghost predicate Tracks(ms: seq<Member>, i: nat, base: seq<Bytes>, table: array?<int>, hashes: seq<nat>)
      requires i <= |ms|
      reads this, table
    {
      && names == base + Seen(ms, i) && Distinct(Seen(ms, i))
      && (table == null ==> i <= DUP_SPILL_AT)
      && (table != null ==> hashes == Hashes(Seen(ms, i), hash) && Table(table[..], hashes))
    }

    /** Compare a name with the object's earlier ones. */
    method InOwn(base: nat, name: Bytes) returns (dup: bool)
      requires base <= |names|
      ensures dup <==> name in names[base..]
    {
      for i := base to |names|
        invariant name !in names[base..i]
      {
        if names[i] == name {
          assert names[base..][i - base] == name;
          return true;
        }
      }
      assert names[base..|names|] == names[base..];
      dup := false;
    }

    /** One member's name: refused if and only if the object already has it. */
    method AddName(base: nat, name: Bytes, table0: array?<int>, hashes0: seq<nat>, ghost ms: seq<Member>,
            ghost i: nat, ghost was: seq<Bytes>)
        returns (dup: bool, table: array?<int>, hashes: seq<nat>)
      requires i < |ms| && name == ms[i].name && base == |was| && Tracks(ms, i, was, table0, hashes0)
      modifies this, table0
      ensures dup <==> ms[i].name in Seen(ms, i)
      ensures dup ==> names == old(names)
      ensures !dup ==> Tracks(ms, i + 1, was, table, hashes)
      ensures table == table0 || fresh(table)
    {
      table, hashes := table0, hashes0;
      SeenNext(ms, i);
      assert names[base..] == Seen(ms, i);
      if table == null {
        dup := InOwn(base, name);
        if dup {
          return;
        }
        names := names + [name];
        assert names[base..] == Seen(ms, i + 1);
        if |names| - base > DUP_SPILL_AT {
          hashes := Hashes(names[base..], hash);
          table := RehashInto(hashes, 4 * DUP_SPILL_AT);
        }
      } else {
        if (|hashes| + 1) * 4 > table.Length * 3 {
          table := RehashInto(hashes, table.Length * 2);
        }
        dup := ProbeInsert(table, names[base..], name, hash);
        if dup {
          return;
        }
        names := names + [name];
        hashes := hashes + [hash(name)];
        assert hashes == Hashes(Seen(ms, i + 1), hash);
      }
    }

    /** The members of a non-empty object; their names stay on the stack. */
    method CheckMembers(v: Json, open: nat, maxDepth: int) returns (ok: bool)
      requires v.Obj? && v.members != [] && open <= maxDepth
      modifies this
      ensures old(names) <= names
      ensures ok <==> Acceptable(v, open, maxDepth)
      decreases v, 0
    {
      var ms := v.members;
      var base := |names|;
      ghost var was := names;
      var table: array?<int> := null;
      var hashes: seq<nat> := [];
      for i := 0 to |ms|
        invariant Tracks(ms, i, was, table, hashes) && (table != null ==> fresh(table))
        invariant forall k :: 0 <= k < i ==> Acceptable(ms[k].value, open + 1, maxDepth)
      {
        SeenNext(ms, i);
        var dup;
        dup, table, hashes := AddName(base, ms[i].name, table, hashes, ms, i, was);
        if dup {
          return false;
        }
        ok := CheckValue(ms[i].value, open + 1, maxDepth);
        if !ok {
          return;
        }
      }
      SeenAll(ms);
      ok := true;
    }
  }
}
