/** What a query reads (core/runtime/query.go: queryReads and the immutable-query diet):
    a query that reads only properties no update changes treats an updated record as it
    treated the record before. */
module QueryReads {
  import opened Options
  import opened Records
  import opened Schema
  import opened Results
  import opened History
  import opened QueryChanges
  import opened Comparators
  import opened RecordSort
  import opened Planner
  import opened Evaluate

  /** What a type's own condition reads, as its declaration says; None: it does not say. */
  type Local = Name -> Option<set<Name>>

  /** The properties one condition reads: the one it names, or what is declared of it. */
  function PairReads(sem: Semantics, local: Local, n: Name): Option<set<Name>> {
    if sem.Core? then Some({n}) else local(n)
  }

  /** Some condition of the tree reads the property. */
  ghost predicate ReadBy(sem: Semantics, local: Local, f: Filter, p: Name) {
    exists n :: Mentions(f, n) && Reads1(sem, local, n, p)
  }

  predicate Reads1(sem: Semantics, local: Local, n: Name, p: Name) {
    PairReads(sem, local, n).Some? && p in PairReads(sem, local, n).value
  }

  /** Every condition of the tree says what it reads. */
  ghost predicate Known(sem: Semantics, local: Local, f: Filter) {
    forall n :: Mentions(f, n) ==> PairReads(sem, local, n).Some?
  }

  method PairsRead(sem: Semantics, local: Local, pairs: map<Name, Raw>) returns (props: set<Name>, known: bool)
    ensures known <==> Known(sem, local, Cond(pairs))
    ensures forall p :: p in props <==> ReadBy(sem, local, Cond(pairs), p)
  {
    var todo := pairs.Keys;
    props, known := {}, true;
    while todo != {}
      invariant todo <= pairs.Keys
      invariant known <==> forall n :: n in pairs.Keys - todo ==> PairReads(sem, local, n).Some?
      invariant forall p :: p in props <==> exists n :: n in pairs.Keys - todo && Reads1(sem, local, n, p)
    {
      var n :| n in todo;
      ghost var seen := pairs.Keys - todo;
      todo := todo - {n};
      var reads' := PairReads(sem, local, n);
      ghost var before := props;
      if reads'.None? {
        known := false;
      } else {
        props := props + reads'.value;
      }
      assert pairs.Keys - todo == seen + {n};
      forall p ensures p in props <==> exists m :: m in seen + {n} && Reads1(sem, local, m, p) {
        if Reads1(sem, local, n, p) { assert n in seen + {n}; }
        if p in before {
          var m :| m in seen && Reads1(sem, local, m, p);
          assert m in seen + {n};
        }
      }
    }
  }

  /** The walk over the filter tree. */
  method WalkReads(sem: Semantics, local: Local, f: Filter) returns (props: set<Name>, known: bool)
    ensures known <==> Known(sem, local, f)
    ensures forall p :: p in props <==> ReadBy(sem, local, f, p)
    decreases f
  {
    props, known := {}, true;
    if f.All? {
      return;
    }
    if f.Cond? {
      props, known := PairsRead(sem, local, f.pairs);
      return;
    }
    for i := 0 to |f.children|
      invariant known <==> forall k :: 0 <= k < i ==> Known(sem, local, f.children[k])
      invariant forall p :: p in props <==> exists k :: 0 <= k < i && ReadBy(sem, local, f.children[k], p)
    {
      var more, said := WalkReads(sem, local, f.children[i]);
      props, known := props + more, known && said;
    }
    ChildrenRead(sem, local, f);
  }

  lemma ChildrenRead(sem: Semantics, local: Local, f: Filter)
    requires f.And? || f.Or? || f.Not?
    ensures Known(sem, local, f) <==> forall k :: 0 <= k < |f.children| ==> Known(sem, local, f.children[k])
    ensures forall p :: ReadBy(sem, local, f, p) <==>
      exists k :: 0 <= k < |f.children| && ReadBy(sem, local, f.children[k], p)
  {
    forall n ensures Mentions(f, n) <==> exists k :: 0 <= k < |f.children| && Mentions(f.children[k], n) { }
    forall p | ReadBy(sem, local, f, p)
      ensures exists k :: 0 <= k < |f.children| && ReadBy(sem, local, f.children[k], p)
    {
      var n :| Mentions(f, n) && Reads1(sem, local, n, p);
      var k :| 0 <= k < |f.children| && Mentions(f.children[k], n);
      assert ReadBy(sem, local, f.children[k], p);
    }
    forall p, k | 0 <= k < |f.children| && ReadBy(sem, local, f.children[k], p) ensures ReadBy(sem, local, f, p) {
      var n :| Mentions(f.children[k], n) && Reads1(sem, local, n, p);
      assert Mentions(f, n);
    }
    if Known(sem, local, f) {
      forall k | 0 <= k < |f.children| ensures Known(sem, local, f.children[k]) {
        forall n | Mentions(f.children[k], n) ensures PairReads(sem, local, n).Some? { assert Mentions(f, n); }
      }
    }
  }

  /** Core conditions read exactly the properties the filter names. */
  lemma CoreReads(sem: Semantics, local: Local, f: Filter)
    requires sem.Core?
    ensures Known(sem, local, f) && forall p :: ReadBy(sem, local, f, p) <==> Mentions(f, p)
  {
    forall p | Mentions(f, p) ensures ReadBy(sem, local, f, p) { assert Reads1(sem, local, p, p); }
  }

  // ---- A query sees only what it reads ----

  /** The query treats records alike that agree on the properties, up to the form their
      values are written in. */
  ghost predicate ReadsOnly(q: Query, props: set<Name>, norm: Raw -> Raw) {
    forall a, b :: Project(a, props, norm) == Project(b, props, norm) ==> SameStanding(q, a, b)
  }

  function NormAt(o: Object, p: Name, norm: Raw -> Raw): Option<Raw> { if p in o then Some(norm(o[p])) else None }

  lemma SameAt(a: Object, b: Object, props: set<Name>, norm: Raw -> Raw, p: Name)
    requires Project(a, props, norm) == Project(b, props, norm) && p in props
    ensures NormAt(a, p, norm) == NormAt(b, p, norm)
  {
    var x, y := Project(a, props, norm), Project(b, props, norm);
    assert p in a <==> p in x;
    assert p in b <==> p in y;
    if p in a { assert x[p] == norm(a[p]) && y[p] == norm(b[p]); }
  }

  lemma SameProject(a: Object, b: Object, props: set<Name>, norm: Raw -> Raw)
    requires forall p :: p in props ==> NormAt(a, p, norm) == NormAt(b, p, norm)
    ensures Project(a, props, norm) == Project(b, props, norm)
  {
    var x, y := Project(a, props, norm), Project(b, props, norm);
    forall p ensures (p in x <==> p in y) && (p in x ==> x[p] == y[p]) {
      if p in props { assert NormAt(a, p, norm) == NormAt(b, p, norm); }
    }
  }

  lemma ProjectLess(a: Object, b: Object, props: set<Name>, norm: Raw -> Raw, fewer: set<Name>)
    requires fewer <= props && Project(a, props, norm) == Project(b, props, norm)
    ensures Project(a, fewer, norm) == Project(b, fewer, norm)
  {
    forall p | p in fewer ensures NormAt(a, p, norm) == NormAt(b, p, norm) { SameAt(a, b, props, norm, p); }
    SameProject(a, b, fewer, norm);
  }

  /** `norm` forgets only how a value is written: encodings and decodings do not see it. */
  ghost predicate Neutral(ty: Type, cmps: seq<Comparator>, norm: Raw -> Raw) {
    && (forall p, raw :: p in ty.props ==> ty.props[p].encode(norm(raw)) == ty.props[p].encode(raw))
    && (forall c, raw :: c in cmps ==> c.decode(norm(raw)) == c.decode(raw))
  }

  /** The promise of a type's declaration: a condition reads no more than it says. */
  ghost predicate Declared(w: Scope, local: Local, norm: Raw -> Raw) {
    w.sem.Custom? ==> forall n, want, a, b :: LocalReads(w.sem, local, norm, n, want, a, b)
  }

  ghost predicate LocalReads(sem: Semantics, local: Local, norm: Raw -> Raw, n: Name, want: Raw, a: Object, b: Object)
    requires sem.Custom?
  {
    local(n).Some? && Project(a, local(n).value, norm) == Project(b, local(n).value, norm) ==>
      sem.holds(a, n, want) == sem.holds(b, n, want)
  }

  lemma PairReadsOnly(w: Scope, local: Local, norm: Raw -> Raw, n: Name, want: Raw, props: set<Name>, a: Object,
          b: Object)
    requires w.t in w.sc.types && Declared(w, local, norm) && Neutral(w.sc.types[w.t], [], norm)
    requires PairReads(w.sem, local, n).Some? && PairReads(w.sem, local, n).value <= props
    requires Project(a, props, norm) == Project(b, props, norm)
    ensures Holds(w, n, want, a) <==> Holds(w, n, want, b)
  {
    if w.sem.Core? {
      assert n in props;
      SameAt(a, b, props, norm, n);
      if n in w.sc.types[w.t].props && n in a {
        var p := w.sc.types[w.t].props[n];
        assert p.encode(norm(a[n])) == p.encode(a[n]) && p.encode(norm(b[n])) == p.encode(b[n]);
      }
    } else {
      ProjectLess(a, b, props, norm, local(n).value);
      assert LocalReads(w.sem, local, norm, n, want, a, b);
    }
  }

  /** The properties hold everything the filter reads. */
  ghost predicate Enough(w: Scope, local: Local, f: Filter, props: set<Name>) {
    Known(w.sem, local, f) && forall p :: ReadBy(w.sem, local, f, p) ==> p in props
  }

  lemma {:induction false} FilterReadsOnly(w: Scope, local: Local, norm: Raw -> Raw, f: Filter, props: set<Name>,
          a: Object, b: Object)
    requires w.t in w.sc.types && Declared(w, local, norm) && Neutral(w.sc.types[w.t], [], norm)
    requires Enough(w, local, f, props) && Project(a, props, norm) == Project(b, props, norm)
    ensures Meaning(w, f, a) <==> Meaning(w, f, b)
    decreases f
  {
    match f
    case All =>
    case Cond(pairs) =>
      forall n | n in pairs ensures Holds(w, n, pairs[n], a) <==> Holds(w, n, pairs[n], b) {
        CondReads(w, local, pairs, props, n);
        PairReadsOnly(w, local, norm, n, pairs[n], props, a, b);
      }
    case And(cs) => EachReadsOnly(w, local, norm, f, props, a, b);
    case Or(cs) => EachReadsOnly(w, local, norm, f, props, a, b);
    case Not(cs) => EachReadsOnly(w, local, norm, f, props, a, b);
  }

  lemma CondReads(w: Scope, local: Local, pairs: map<Name, Raw>, props: set<Name>, n: Name)
    requires Enough(w, local, Cond(pairs), props) && n in pairs
    ensures PairReads(w.sem, local, n).Some? && PairReads(w.sem, local, n).value <= props
  {
    assert Mentions(Cond(pairs), n);
    forall p | p in PairReads(w.sem, local, n).value ensures p in props {
      assert Reads1(w.sem, local, n, p);
      assert ReadBy(w.sem, local, Cond(pairs), p);
    }
  }

  lemma {:induction false} EachReadsOnly(w: Scope, local: Local, norm: Raw -> Raw, f: Filter, props: set<Name>,
          a: Object, b: Object)
    requires f.And? || f.Or? || f.Not?
    requires w.t in w.sc.types && Declared(w, local, norm) && Neutral(w.sc.types[w.t], [], norm)
    requires Enough(w, local, f, props) && Project(a, props, norm) == Project(b, props, norm)
    ensures forall i :: 0 <= i < |f.children| ==> (Meaning(w, f.children[i], a) <==> Meaning(w, f.children[i], b))
    decreases f, 0
  {
    ChildrenRead(w.sem, local, f);
    forall i | 0 <= i < |f.children| ensures Meaning(w, f.children[i], a) <==> Meaning(w, f.children[i], b) {
      FilterReadsOnly(w, local, norm, f.children[i], props, a, b);
    }
  }

  lemma {:induction false} SortReadsOnly(cmps: seq<Comparator>, props: set<Name>, norm: Raw -> Raw, a: Object,
          b: Object, r: Object)
    requires (forall c :: c in cmps ==> c.name in props) && Project(a, props, norm) == Project(b, props, norm)
    requires forall c, raw :: c in cmps ==> c.decode(norm(raw)) == c.decode(raw)
    ensures CompareRecords(cmps, a, r) == CompareRecords(cmps, b, r)
    ensures CompareRecords(cmps, r, a) == CompareRecords(cmps, r, b)
  {
    if cmps != [] {
      var c := cmps[0];
      assert c in cmps;
      SameAt(a, b, props, norm, c.name);
      if c.name in a {
        assert c.decode(norm(a[c.name])) == c.decode(a[c.name]) && c.decode(norm(b[c.name])) == c.decode(b[c.name]);
      }
      SortReadsOnly(cmps[1..], props, norm, a, b, r);
    }
  }

  /** A query sees of a record only the properties its conditions and comparators read. */
  lemma QueryReadsOnly(w: Scope, local: Local, norm: Raw -> Raw, f: Filter, cmps: seq<Comparator>, props: set<Name>)
    requires w.t in w.sc.types && Declared(w, local, norm) && Neutral(w.sc.types[w.t], cmps, norm)
    requires Enough(w, local, f, props) && forall c :: c in cmps ==> c.name in props
    ensures ReadsOnly(Asked(w, f, cmps), props, norm)
  {
    forall a, b | Project(a, props, norm) == Project(b, props, norm) ensures SameStanding(Asked(w, f, cmps), a, b) {
      FilterReadsOnly(w, local, norm, f, props, a, b);
      forall r
        ensures CompareRecords(cmps, a, r) == CompareRecords(cmps, b, r)
        ensures CompareRecords(cmps, r, a) == CompareRecords(cmps, r, b)
      {
        SortReadsOnly(cmps, props, norm, a, b, r);
      }
    }
  }

  // ---- The immutable diet ----

  /** No update changed an immutable property but for the form its value is written in,
      as Foo/set sees to. */
  ghost predicate KeepsImmutable(ty: Type, h: History, norm: Raw -> Raw)
    requires Legal(h)
  {
    forall n :: 0 <= n < |h.entries| ==> StepKeepsImmutable(ty, h.states[n], h.entries[n], h.states[n + 1], norm)
  }

  ghost predicate StepKeepsImmutable(ty: Type, before: Table, c: Change, after: Table, norm: Raw -> Raw) {
    forall id :: id in c.updated && id in before && id in after ==> SameImmutable(ty, before[id], after[id], norm)
  }

  ghost predicate SameImmutable(ty: Type, a: Object, b: Object, norm: Raw -> Raw) {
    forall p :: p in ty.props && ty.props[p].immutable ==> NormAt(a, p, norm) == NormAt(b, p, norm)
  }

  lemma DietKeepsStanding(ty: Type, h: History, q: Query, props: set<Name>, norm: Raw -> Raw)
    requires Legal(h) && ReadsOnly(q, props, norm) && KeepsImmutable(ty, h, norm)
    requires forall p :: p in props ==> p in ty.props && ty.props[p].immutable
    ensures UpdatesKeepStanding(h, q)
  {
    forall n | 0 <= n < |h.entries| ensures KeepsStanding(q, h.states[n], h.entries[n], h.states[n + 1]) {
      var before, c, after := h.states[n], h.entries[n], h.states[n + 1];
      assert StepKeepsImmutable(ty, before, c, after, norm);
      forall id | id in c.updated && id in before && id in after ensures SameStanding(q, before[id], after[id]) {
        SameProject(before[id], after[id], props, norm);
      }
    }
  }

  /** The query reads nothing but immutable properties, and is known to. */
  ghost predicate ReadsImmutable(w: Scope, local: Local, f: Filter, cmps: seq<Comparator>)
    requires w.t in w.sc.types
  {
    var ty := w.sc.types[w.t];
    && Known(w.sem, local, f)
    && (forall p :: ReadBy(w.sem, local, f, p) ==> p in ty.props && ty.props[p].immutable)
    && (forall c :: c in cmps ==> c.name in ty.props && ty.props[c.name].immutable)
  }

  /** Then no update moves a record in its result. */
  lemma ImmutableStays(w: Scope, local: Local, norm: Raw -> Raw, f: Filter, cmps: seq<Comparator>, h: History)
    requires w.t in w.sc.types && Declared(w, local, norm) && Neutral(w.sc.types[w.t], cmps, norm)
    requires ReadsImmutable(w, local, f, cmps) && Legal(h) && KeepsImmutable(w.sc.types[w.t], h, norm)
    ensures UpdatesKeepStanding(h, Asked(w, f, cmps))
  {
    var ty := w.sc.types[w.t];
    var props := set p | p in ty.props && ty.props[p].immutable;
    QueryReadsOnly(w, local, norm, f, cmps, props);
    DietKeepsStanding(ty, h, Asked(w, f, cmps), props, norm);
  }

  /** Whether a query goes on the diet. */
  method ImmutableQuery(w: Scope, local: Local, f: Filter, cmps: seq<Comparator>, collapse: bool)
      returns (immutable: bool)
    requires w.t in w.sc.types
    ensures immutable <==> !collapse && ReadsImmutable(w, local, f, cmps)
  {
    var ty := w.sc.types[w.t];
    var props, known := WalkReads(w.sem, local, f);
    ghost var fromFilter := props;
    for i := 0 to |cmps|
      invariant forall p :: p in props <==> p in fromFilter || exists k :: 0 <= k < i && cmps[k].name == p
    {
      props := props + {cmps[i].name};
    }
    immutable := known && !collapse && forall p :: p in props ==> p in ty.props && ty.props[p].immutable;
    assert forall c :: c in cmps ==> c.name in props;
  }
}
