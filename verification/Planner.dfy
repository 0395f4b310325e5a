/** The query planner (core/runtime/query.go: matches, produce, produceLeaf,
    evaluateWith): a filter tree read two ways, as the authoritative predicate over a
    loaded record and as an index-backed set that narrows what has to be loaded. */
module Planner {
  import opened Options
  import opened ByteOrder
  import opened Records
  import opened Keys
  import opened Store
  import opened Schema
  import opened Results
  import opened Commits
  import opened ObjectDb

  datatype Filter =
    | All
    | And(children: seq<Filter>)
    | Or(children: seq<Filter>)
    | Not(children: seq<Filter>)
    | Cond(pairs: map<Name, Raw>)

  /** What a producer says about one node: an error, nothing at all, or a set. */
  datatype Produced = Failed | Universe | Ids(ids: set<Id>, exact: bool)

  /** The place of a condition in the filter tree. Every read of an evaluation is made at
      a moment of its own, so each place is given its own answers. */
  type Path = seq<nat>

  /** Core equality on declared properties, or a type's own conditions. */
  datatype Semantics =
    | Core
    | Custom(holds: (Object, Name, Raw) -> Result<bool>, produce: (Path, Name, Raw) -> Produced)

  /** What one evaluation reads of a type: the index range of a value, for the condition
      at a place; the ids of all records; the records it loads. Nothing says that these
      are of one store. */
  datatype Scope = Scope(sc: Schema, t: Name, sem: Semantics, scan: (Path, Name, Bytes) -> set<Id>, all: set<Id>,
                         s: Store)

  /** The records as they are loaded. */
  function Stored(w: Scope): Table {
    map k | k in w.s && k.Obj? && k.typ == w.t && w.s[k].Record? :: k.id := w.s[k].obj
  }

  lemma StoredAt(w: Scope, id: Id)
    ensures id in Stored(w) <==> ObjectAt(w.s, w.t, id).Some?
    ensures id in Stored(w) ==> Stored(w)[id] == ObjectAt(w.s, w.t, id).value
  {
    if ObjectAt(w.s, w.t, id).Some? { assert Obj(w.t, id).id in Stored(w); }
  }

  /** One condition of one record. */
  predicate Holds(w: Scope, n: Name, want: Raw, o: Object)
    requires w.t in w.sc.types
  {
    var ty := w.sc.types[w.t];
    match w.sem
    case Core => n in ty.props && n in o && IndexValue(ty.props[n], Some(want)).Some?
      && IndexValue(ty.props[n], Some(o[n])) == IndexValue(ty.props[n], Some(want))
    case Custom(holds, _) => holds(o, n, want) == Ok(true)
  }

  /** What the filter means. */
  predicate Meaning(w: Scope, f: Filter, o: Object)
    requires w.t in w.sc.types
  {
    match f
    case All => true
    case And(cs) => forall i :: 0 <= i < |cs| ==> Meaning(w, cs[i], o)
    case Or(cs) => exists i :: 0 <= i < |cs| && Meaning(w, cs[i], o)
    case Not(cs) => forall i :: 0 <= i < |cs| ==> !Meaning(w, cs[i], o)
    case Cond(pairs) => forall n :: n in pairs ==> Holds(w, n, pairs[n], o)
  }

  /** The operators of section 5.5 of RFC 8620, each by the others: NOT is that none
      matches, AND that no child fails; without children AND and NOT hold, OR does not. */
  lemma OperatorLaws(w: Scope, cs: seq<Filter>, o: Object)
    requires w.t in w.sc.types
    ensures Meaning(w, Not(cs), o) <==> !Meaning(w, Or(cs), o)
    ensures Meaning(w, And(cs), o) <==> Meaning(w, Not(EachNot(cs)), o)
    ensures Meaning(w, All, o) && Meaning(w, And([]), o) && Meaning(w, Not([]), o) && !Meaning(w, Or([]), o)
  {
    AndByNots(w, cs, o);
  }

  lemma AndByNots(w: Scope, cs: seq<Filter>, o: Object)
    requires w.t in w.sc.types
    ensures Meaning(w, And(cs), o) <==> Meaning(w, Not(EachNot(cs)), o)
  {
    var nots := EachNot(cs);
    forall i | 0 <= i < |cs| ensures Meaning(w, nots[i], o) <==> !Meaning(w, cs[i], o) { NotOne(w, cs[i], o); }
  }

  lemma NotOne(w: Scope, c: Filter, o: Object)
    requires w.t in w.sc.types
    ensures Meaning(w, Not([c]), o) <==> !Meaning(w, c, o)
  {
    assert [c][0] == c;
  }

  function EachNot(cs: seq<Filter>): seq<Filter> { seq(|cs|, i requires 0 <= i < |cs| => Not([cs[i]])) }

  /** Of two children one matches: NOT does not, nor does AND; OR does. */
  lemma OneOfTwo(w: Scope, a: Filter, b: Filter, o: Object)
    requires w.t in w.sc.types && (Meaning(w, a, o) <==> !Meaning(w, b, o))
    ensures !Meaning(w, Not([a, b]), o) && !Meaning(w, And([a, b]), o) && Meaning(w, Or([a, b]), o)
  {
    assert [a, b][0] == a && [a, b][1] == b;
  }

  /** The filter tree names the condition. */
  ghost predicate Mentions(f: Filter, n: Name) {
    match f
    case All => false
    case And(cs) => exists i :: 0 <= i < |cs| && Mentions(cs[i], n)
    case Or(cs) => exists i :: 0 <= i < |cs| && Mentions(cs[i], n)
    case Not(cs) => exists i :: 0 <= i < |cs| && Mentions(cs[i], n)
    case Cond(pairs) => n in pairs
  }

  // ---- The predicate ----

  predicate PairErrs(w: Scope, n: Name, want: Raw, o: Object) { w.sem.Custom? && w.sem.holds(o, n, want).Err? }

  /** Some condition of the tree fails to evaluate on the record. */
  ghost predicate Errs(w: Scope, f: Filter, o: Object) {
    match f
    case All => false
    case Cond(pairs) => exists n :: n in pairs && PairErrs(w, n, pairs[n], o)
    case And(cs) => exists i :: 0 <= i < |cs| && Errs(w, cs[i], o)
    case Or(cs) => exists i :: 0 <= i < |cs| && Errs(w, cs[i], o)
    case Not(cs) => exists i :: 0 <= i < |cs| && Errs(w, cs[i], o)
  }

  /** One condition's own answer. */
  ghost function PairAnswer(w: Scope, n: Name, want: Raw, o: Object): Result<bool>
    requires w.t in w.sc.types
  {
    if w.sem.Custom? then w.sem.holds(o, n, want) else Ok(Holds(w, n, want, o))
  }

  /** What an evaluation of the tree may answer: the pairs of a condition are tried in any
      order and children in theirs, until one decides or fails. */
  ghost predicate Yields(w: Scope, f: Filter, o: Object, r: Result<bool>)
    requires w.t in w.sc.types
    decreases f
  {
    match f
    case All => r == Ok(true)
    case Cond(pairs) =>
      if r == Ok(true) then forall n :: n in pairs ==> PairAnswer(w, n, pairs[n], o) == Ok(true)
      else exists n :: n in pairs && PairAnswer(w, n, pairs[n], o) == r
    case And(cs) =>
      if r == Ok(true) then forall i :: 0 <= i < |cs| ==> Yields(w, cs[i], o, Ok(true))
      else exists i ::
        0 <= i < |cs| && Yields(w, cs[i], o, r) && forall k :: 0 <= k < i ==> Yields(w, cs[k], o, Ok(true))
    case Or(cs) =>
      if r == Ok(false) then forall i :: 0 <= i < |cs| ==> Yields(w, cs[i], o, Ok(false))
      else exists i ::
        0 <= i < |cs| && Yields(w, cs[i], o, r) && forall k :: 0 <= k < i ==> Yields(w, cs[k], o, Ok(false))
    case Not(cs) =>
      if r == Ok(true) then forall i :: 0 <= i < |cs| ==> Yields(w, cs[i], o, Ok(false))
      else exists i ::
        && 0 <= i < |cs| && Yields(w, cs[i], o, if r.Ok? then Ok(true) else Err)
        && forall k :: 0 <= k < i ==> Yields(w, cs[k], o, Ok(false))
  }

  lemma {:induction false} YieldsErrs(w: Scope, f: Filter, o: Object)
    requires w.t in w.sc.types && Yields(w, f, o, Err)
    ensures Errs(w, f, o)
    decreases f
  {
    if f.Cond? {
      var n :| n in f.pairs && PairAnswer(w, n, f.pairs[n], o) == Err;
      assert PairErrs(w, n, f.pairs[n], o);
    } else {
      var i :| 0 <= i < |f.children| && Yields(w, f.children[i], o, Err);
      YieldsErrs(w, f.children[i], o);
    }
  }

  method MatchPairs(w: Scope, pairs: map<Name, Raw>, o: Object) returns (r: Result<bool>)
    requires w.t in w.sc.types
    ensures Yields(w, Cond(pairs), o, r)
    ensures r.Ok? ==> r.value == Meaning(w, Cond(pairs), o)
    ensures r.Err? ==> Errs(w, Cond(pairs), o)
  {
    var todo := pairs.Keys;
    while todo != {}
      invariant todo <= pairs.Keys
      invariant forall n :: n in pairs.Keys - todo ==> Holds(w, n, pairs[n], o)
    {
      var n :| n in todo;
      todo := todo - {n};
      if w.sem.Custom? {
        var ok := w.sem.holds(o, n, pairs[n]);
        if ok.Err? {
          assert PairErrs(w, n, pairs[n], o);
          return Err;
        }
        if !ok.value {
          assert !Holds(w, n, pairs[n], o);
          return Ok(false);
        }
      } else if !Holds(w, n, pairs[n], o) {
        return Ok(false);
      }
    }
    r := Ok(true);
  }

  /** The authoritative predicate, stopping at the first child that decides. */
  method Matches(w: Scope, f: Filter, o: Object) returns (r: Result<bool>)
    requires w.t in w.sc.types
    ensures Yields(w, f, o, r)
    ensures r.Ok? ==> r.value == Meaning(w, f, o)
    ensures r.Err? ==> Errs(w, f, o)
    decreases f
  {
    if f.All? {
      return Ok(true);
    }
    if f.Cond? {
      r := MatchPairs(w, f.pairs, o);
      return;
    }
    for i := 0 to |f.children|
      invariant forall k :: 0 <= k < i ==> (Meaning(w, f.children[k], o) <==> f.And?)
      invariant forall k :: 0 <= k < i ==> Yields(w, f.children[k], o, Ok(f.And?))
    {
      var ok := Matches(w, f.children[i], o);
      if ok.Err? {
        return Err;
      }
      if ok.value != f.And? {
        return Ok(f.Or?);
      }
    }
    r := Ok(!f.Or?);
  }

  // ---- The producers ----

  /** What the producer of one condition answers from its reads. */
  function PairSet(w: Scope, at: Path, n: Name, want: Raw): Produced
    requires w.t in w.sc.types
  {
    var ty := w.sc.types[w.t];
    match w.sem
    case Custom(_, produce) => produce(at, n, want)
    case Core =>
      if n !in ty.props || !ty.props[n].indexed then Universe
      else match IndexValue(ty.props[n], Some(want))
        case None => Failed
        case Some(v) => Ids(w.scan(at, n, v), true)
  }

  /** A producer that is asked fails. Below a NOT none is, and in an OR none behind a branch
      that does not narrow. */
  ghost predicate Fails(w: Scope, f: Filter, at: Path)
    requires w.t in w.sc.types
    decreases f
  {
    match f
    case All => false
    case Not(_) => false
    case Cond(pairs) => exists n :: n in pairs && PairSet(w, at, n, pairs[n]).Failed?
    case And(cs) => exists i :: 0 <= i < |cs| && Fails(w, cs[i], at + [i])
    case Or(cs) => exists i ::
      0 <= i < |cs| && Fails(w, cs[i], at + [i]) && forall k :: 0 <= k < i ==> Narrows(w, cs[k], at + [k])
  }

  /** The reads leave a set: some condition of an AND narrows, every branch of an OR. */
  ghost predicate Narrows(w: Scope, f: Filter, at: Path)
    requires w.t in w.sc.types
    decreases f
  {
    match f
    case All => false
    case Not(_) => false
    case Cond(pairs) => exists n :: n in pairs && PairSet(w, at, n, pairs[n]).Ids?
    case And(cs) => exists i :: 0 <= i < |cs| && Narrows(w, cs[i], at + [i])
    case Or(cs) => forall i :: 0 <= i < |cs| ==> Narrows(w, cs[i], at + [i])
  }

  /** The reads do not rule the id out. */
  ghost predicate Admits(w: Scope, f: Filter, at: Path, x: Id)
    requires w.t in w.sc.types
    decreases f
  {
    match f
    case All => true
    case Not(_) => true
    case Cond(pairs) => forall n :: n in pairs ==> PairAdmits(w, at, n, pairs[n], x)
    case And(cs) => forall i :: 0 <= i < |cs| ==> Admits(w, cs[i], at + [i], x)
    case Or(cs) => exists i :: 0 <= i < |cs| && Admits(w, cs[i], at + [i], x)
  }

  predicate PairAdmits(w: Scope, at: Path, n: Name, want: Raw, x: Id)
    requires w.t in w.sc.types
  {
    PairSet(w, at, n, want).Ids? ==> x in PairSet(w, at, n, want).ids
  }

  /** Every part of the tree has a producer that calls its set exact. */
  ghost predicate Exactly(w: Scope, f: Filter, at: Path)
    requires w.t in w.sc.types
    decreases f
  {
    match f
    case All => false
    case Not(_) => false
    case Cond(pairs) => pairs != map[] && forall n :: n in pairs ==> PairExact(w, at, n, pairs[n])
    case And(cs) => cs != [] && forall i :: 0 <= i < |cs| ==> Exactly(w, cs[i], at + [i])
    case Or(cs) => forall i :: 0 <= i < |cs| ==> Exactly(w, cs[i], at + [i])
  }

  predicate PairExact(w: Scope, at: Path, n: Name, want: Raw)
    requires w.t in w.sc.types
  {
    PairSet(w, at, n, want).Ids? && PairSet(w, at, n, want).exact
  }

  /** What the producers answer for the tree. */
  ghost predicate Produces(w: Scope, f: Filter, at: Path, p: Produced)
    requires w.t in w.sc.types
  {
    match p
    case Failed => Fails(w, f, at)
    case Universe => !Fails(w, f, at) && !Narrows(w, f, at)
    case Ids(ids, exact) => !Fails(w, f, at) && Leaves(w, f, at, ids, exact)
  }

  /** The reads leave this set. */
  ghost predicate Leaves(w: Scope, f: Filter, at: Path, ids: set<Id>, exact: bool)
    requires w.t in w.sc.types
  {
    Narrows(w, f, at) && (exact <==> Exactly(w, f, at)) && forall x :: x in ids <==> Admits(w, f, at, x)
  }

  /** The pairs of a condition are an implicit AND. */
  method ProduceLeaf(w: Scope, pairs: map<Name, Raw>, at: Path) returns (p: Produced)
    requires w.t in w.sc.types
    ensures Produces(w, Cond(pairs), at, p)
  {
    var todo := pairs.Keys;
    p := Universe;
    var exact := true;
    ghost var done: set<Name> := {};
    while todo != {}
      invariant done + todo == pairs.Keys && done !! todo && !p.Failed?
      invariant p.Ids? <==> exists n :: n in done && PairSet(w, at, n, pairs[n]).Ids?
      invariant p.Ids? ==> forall x :: x in p.ids <==> forall n :: n in done ==> PairAdmits(w, at, n, pairs[n], x)
      invariant exact <==> forall n :: n in done ==> PairExact(w, at, n, pairs[n])
      invariant forall n :: n in done ==> !PairSet(w, at, n, pairs[n]).Failed?
    {
      var n :| n in todo;
      todo := todo - {n};
      var one := PairSet(w, at, n, pairs[n]);
      if one.Failed? {
        return Failed;
      }
      if one.Universe? {
        exact := false;
      } else {
        p := Ids(if p.Universe? then one.ids else p.ids * one.ids, true);
        exact := exact && one.exact;
      }
      done := done + {n};
    }
    assert done == pairs.Keys;
    if p.Ids? { p := p.(exact := exact); }
  }

  /** The filter tree composed into an id set. */
  method Produce(w: Scope, f: Filter, at: Path) returns (p: Produced)
    requires w.t in w.sc.types
    ensures Produces(w, f, at, p)
    decreases f, 1
  {
    match f
    case All => return Universe;
    case Not(_) => return Universe;
    case Cond(pairs) => p := ProduceLeaf(w, pairs, at);
    case And(cs) => p := ProduceAnd(w, f, at);
    case Or(cs) => p := ProduceOr(w, f, at);
  }

  method ProduceAnd(w: Scope, f: Filter, at: Path) returns (p: Produced)
    requires w.t in w.sc.types && f.And?
    ensures Produces(w, f, at, p)
    decreases f, 0
  {
    p := Universe;
    var exact := true;
    for i := 0 to |f.children|
      invariant AndSoFar(w, f.children, at, i, p, exact) && NoneFails(w, f.children, at, i)
    {
      var one := Produce(w, f.children[i], at + [i]);
      if one.Failed? {
        AndStops(w, f, at, i);
        return Failed;
      }
      NoneFailsMore(w, f.children, at, i, one);
      AndMore(w, f.children, at, i, p, exact, one);
      if one.Universe? {
        exact := false;
      } else {
        p := Ids(if p.Universe? then one.ids else p.ids * one.ids, true);
        exact := exact && one.exact;
      }
    }
    AndEnds(w, f, at, p, exact);
    if p.Ids? { p := p.(exact := exact); }
  }

  ghost predicate NoneFails(w: Scope, cs: seq<Filter>, at: Path, i: nat)
    requires w.t in w.sc.types && i <= |cs|
  {
    forall k :: 0 <= k < i ==> !Fails(w, cs[k], at + [k])
  }

  /** A child that did not fail, by what it answers. */
  lemma NoneFailsMore(w: Scope, cs: seq<Filter>, at: Path, i: nat, one: Produced)
    requires w.t in w.sc.types && i < |cs| && NoneFails(w, cs, at, i)
    requires Produces(w, cs[i], at + [i], one) && !one.Failed?
    ensures NoneFails(w, cs, at, i + 1)
    ensures one.Universe? ==> !Narrows(w, cs[i], at + [i])
    ensures one.Ids? ==> Leaves(w, cs[i], at + [i], one.ids, one.exact)
  {
  }

  lemma AndStops(w: Scope, f: Filter, at: Path, i: nat)
    requires w.t in w.sc.types && f.And? && i < |f.children| && Produces(w, f.children[i], at + [i], Failed)
    ensures Produces(w, f, at, Failed)
  {
  }

  lemma AndEnds(w: Scope, f: Filter, at: Path, p: Produced, exact: bool)
    requires w.t in w.sc.types && f.And? && NoneFails(w, f.children, at, |f.children|)
    requires AndSoFar(w, f.children, at, |f.children|, p, exact)
    ensures Produces(w, f, at, if p.Ids? then p.(exact := exact) else p)
  {
    if p.Ids? {
      forall x ensures x in p.ids <==> Admits(w, f, at, x) {
        assert x in p.ids <==> EachAdmits(w, f.children, at, |f.children|, x);
      }
    }
  }

  /** The first i branches of an AND, composed. */
  ghost predicate AndSoFar(w: Scope, cs: seq<Filter>, at: Path, i: nat, p: Produced, exact: bool)
    requires w.t in w.sc.types && i <= |cs|
  {
    && !p.Failed?
    && (p.Ids? <==> exists k :: 0 <= k < i && Narrows(w, cs[k], at + [k]))
    && (p.Ids? ==> forall x :: x in p.ids <==> EachAdmits(w, cs, at, i, x))
    && (exact <==> EachExact(w, cs, at, i))
  }

  ghost predicate EachAdmits(w: Scope, cs: seq<Filter>, at: Path, i: nat, x: Id)
    requires w.t in w.sc.types && i <= |cs|
  {
    forall k :: 0 <= k < i ==> Admits(w, cs[k], at + [k], x)
  }

  lemma AndMore(w: Scope, cs: seq<Filter>, at: Path, i: nat, p: Produced, exact: bool, one: Produced)
    requires w.t in w.sc.types && i < |cs| && AndSoFar(w, cs, at, i, p, exact)
    requires !one.Failed? && (one.Universe? ==> !Narrows(w, cs[i], at + [i]))
    requires one.Ids? ==> Leaves(w, cs[i], at + [i], one.ids, one.exact)
    ensures one.Universe? ==> AndSoFar(w, cs, at, i + 1, p, false)
    ensures one.Ids? ==>
      AndSoFar(w, cs, at, i + 1, Ids(if p.Universe? then one.ids else p.ids * one.ids, true), exact && one.exact)
  {
    EachExactMore(w, cs, at, i);
    if one.Ids? { AndNarrower(w, cs, at, i, p, exact, one); } else { AndOpen(w, cs, at, i, p, exact); }
  }

  lemma AndOpen(w: Scope, cs: seq<Filter>, at: Path, i: nat, p: Produced, exact: bool)
    requires w.t in w.sc.types && i < |cs| && AndSoFar(w, cs, at, i, p, exact) && !Narrows(w, cs[i], at + [i])
    ensures AndSoFar(w, cs, at, i + 1, p, false)
  {
    OpenAdmits(w, cs[i], at + [i]);
    forall x ensures EachAdmits(w, cs, at, i + 1, x) <==> EachAdmits(w, cs, at, i, x) { EachMore(w, cs, at, i, x); }
  }

  lemma AndNarrower(w: Scope, cs: seq<Filter>, at: Path, i: nat, p: Produced, exact: bool, one: Produced)
    requires w.t in w.sc.types && i < |cs| && AndSoFar(w, cs, at, i, p, exact)
    requires one.Ids? && Leaves(w, cs[i], at + [i], one.ids, one.exact)
    ensures AndSoFar(w, cs, at, i + 1, Ids(if p.Universe? then one.ids else p.ids * one.ids, true), exact && one.exact)
  {
    if p.Universe? { OpenSoFar(w, cs, at, i); }
    forall x
      ensures EachAdmits(w, cs, at, i + 1, x) <==> EachAdmits(w, cs, at, i, x) && Admits(w, cs[i], at + [i], x)
    {
      EachMore(w, cs, at, i, x);
    }
    EachExactMore(w, cs, at, i);
  }

  lemma EachMore(w: Scope, cs: seq<Filter>, at: Path, i: nat, x: Id)
    requires w.t in w.sc.types && i < |cs|
    ensures EachAdmits(w, cs, at, i + 1, x) <==> EachAdmits(w, cs, at, i, x) && Admits(w, cs[i], at + [i], x)
  {
  }

  lemma OpenSoFar(w: Scope, cs: seq<Filter>, at: Path, i: nat)
    requires w.t in w.sc.types && i <= |cs| && forall k :: 0 <= k < i ==> !Narrows(w, cs[k], at + [k])
    ensures forall x :: EachAdmits(w, cs, at, i, x)
  {
    forall k, x | 0 <= k < i ensures Admits(w, cs[k], at + [k], x) { OpenAdmits(w, cs[k], at + [k]); }
  }

  method ProduceOr(w: Scope, f: Filter, at: Path) returns (p: Produced)
    requires w.t in w.sc.types && f.Or?
    ensures Produces(w, f, at, p)
    decreases f, 0
  {
    var ids, exact := {}, true;
    for i := 0 to |f.children|
      invariant OrSoFar(w, f.children, at, i, ids, exact) && NoneFails(w, f.children, at, i)
    {
      var one := Produce(w, f.children[i], at + [i]);
      if !one.Ids? {
        OrStops(w, f, at, i, ids, exact, one);
        return one;
      }
      NoneFailsMore(w, f.children, at, i, one);
      OrMore(w, f.children, at, i, ids, exact, one);
      ids := ids + one.ids;
      exact := exact && one.exact;
    }
    p := Ids(ids, exact);
    OrEnds(w, f, at, ids, exact);
  }

  lemma OrStops(w: Scope, f: Filter, at: Path, i: nat, ids: set<Id>, exact: bool, one: Produced)
    requires w.t in w.sc.types && f.Or? && i < |f.children| && NoneFails(w, f.children, at, i)
    requires OrSoFar(w, f.children, at, i, ids, exact) && Produces(w, f.children[i], at + [i], one) && !one.Ids?
    ensures Produces(w, f, at, one)
  {
  }

  lemma OrEnds(w: Scope, f: Filter, at: Path, ids: set<Id>, exact: bool)
    requires w.t in w.sc.types && f.Or? && NoneFails(w, f.children, at, |f.children|)
    requires OrSoFar(w, f.children, at, |f.children|, ids, exact)
    ensures Produces(w, f, at, Ids(ids, exact))
  {
    forall x ensures x in ids <==> Admits(w, f, at, x) {
      assert x in ids <==> SomeAdmits(w, f.children, at, |f.children|, x);
    }
  }

  /** The first i branches of an OR, all of them sets, composed. */
  ghost predicate OrSoFar(w: Scope, cs: seq<Filter>, at: Path, i: nat, ids: set<Id>, exact: bool)
    requires w.t in w.sc.types && i <= |cs|
  {
    && EachNarrows(w, cs, at, i)
    && (forall x :: x in ids <==> SomeAdmits(w, cs, at, i, x))
    && (exact <==> EachExact(w, cs, at, i))
  }

  ghost predicate EachNarrows(w: Scope, cs: seq<Filter>, at: Path, i: nat)
    requires w.t in w.sc.types && i <= |cs|
  {
    forall k :: 0 <= k < i ==> Narrows(w, cs[k], at + [k])
  }

  ghost predicate EachExact(w: Scope, cs: seq<Filter>, at: Path, i: nat)
    requires w.t in w.sc.types && i <= |cs|
  {
    forall k :: 0 <= k < i ==> Exactly(w, cs[k], at + [k])
  }

  ghost predicate SomeAdmits(w: Scope, cs: seq<Filter>, at: Path, i: nat, x: Id)
    requires w.t in w.sc.types && i <= |cs|
  {
    exists k :: 0 <= k < i && Admits(w, cs[k], at + [k], x)
  }

  lemma OrMore(w: Scope, cs: seq<Filter>, at: Path, i: nat, ids: set<Id>, exact: bool, one: Produced)
    requires w.t in w.sc.types && i < |cs| && OrSoFar(w, cs, at, i, ids, exact)
    requires one.Ids? && Leaves(w, cs[i], at + [i], one.ids, one.exact)
    ensures OrSoFar(w, cs, at, i + 1, ids + one.ids, exact && one.exact)
  {
    OrIds(w, cs, at, i, ids, one.ids);
    EachExactMore(w, cs, at, i);
    EachNarrowsMore(w, cs, at, i);
  }

  lemma EachNarrowsMore(w: Scope, cs: seq<Filter>, at: Path, i: nat)
    requires w.t in w.sc.types && i < |cs| && EachNarrows(w, cs, at, i) && Narrows(w, cs[i], at + [i])
    ensures EachNarrows(w, cs, at, i + 1)
  {
  }

  lemma OrIds(w: Scope, cs: seq<Filter>, at: Path, i: nat, ids: set<Id>, more: set<Id>)
    requires w.t in w.sc.types && i < |cs| && (forall x :: x in ids <==> SomeAdmits(w, cs, at, i, x))
    requires forall x :: x in more <==> Admits(w, cs[i], at + [i], x)
    ensures forall x :: x in ids + more <==> SomeAdmits(w, cs, at, i + 1, x)
  {
    forall x ensures x in ids + more <==> SomeAdmits(w, cs, at, i + 1, x) { SomeMore(w, cs, at, i, x); }
  }

  lemma SomeMore(w: Scope, cs: seq<Filter>, at: Path, i: nat, x: Id)
    requires w.t in w.sc.types && i < |cs|
    ensures SomeAdmits(w, cs, at, i + 1, x) <==> SomeAdmits(w, cs, at, i, x) || Admits(w, cs[i], at + [i], x)
  {
  }

  lemma EachExactMore(w: Scope, cs: seq<Filter>, at: Path, i: nat)
    requires w.t in w.sc.types && i < |cs|
    ensures EachExact(w, cs, at, i + 1) <==> EachExact(w, cs, at, i) && Exactly(w, cs[i], at + [i])
  {
  }

  /** A tree whose reads leave no set rules nothing out. */
  lemma {:induction false} OpenAdmits(w: Scope, f: Filter, at: Path)
    requires w.t in w.sc.types
    ensures !Narrows(w, f, at) ==> forall x :: Admits(w, f, at, x)
    ensures Exactly(w, f, at) ==> Narrows(w, f, at)
    decreases f
  {
    if f.And? || f.Or? {
      forall i | 0 <= i < |f.children|
        ensures !Narrows(w, f.children[i], at + [i]) ==> forall x :: Admits(w, f.children[i], at + [i], x)
        ensures Exactly(w, f.children[i], at + [i]) ==> Narrows(w, f.children[i], at + [i])
      {
        OpenAdmits(w, f.children[i], at + [i]);
      }
      if f.And? && f.children != [] && Exactly(w, f, at) { assert Exactly(w, f.children[0], at + [0]); }
    } else if f.Cond? && Exactly(w, f, at) {
      var n :| n in f.pairs;
      assert PairExact(w, at, n, f.pairs[n]);
    }
  }

  // ---- What the sets are worth ----

  /** The answer for one condition is right about the id, the record being as `db` has it:
      a superset of the matches always, and exactly the matches where it says so. */
  ghost predicate PairTrue(w: Scope, at: Path, n: Name, want: Raw, db: Table, x: Id)
    requires w.t in w.sc.types
  {
    var p := PairSet(w, at, n, want);
    p.Ids? ==>
      && (x in db && Holds(w, n, want, db[x]) ==> x in p.ids)
      && (p.exact && x in p.ids ==> x in db && Holds(w, n, want, db[x]))
  }

  /** Every answer the filter may ask for is right about the id. */
  ghost predicate TrueScans(w: Scope, f: Filter, db: Table, x: Id)
    requires w.t in w.sc.types
  {
    forall at, n, want :: Mentions(f, n) ==> PairTrue(w, at, n, want, db, x)
  }

  /** Whatever became of other records meanwhile: a match about which the answers are right
      is let through, and where the set is called exact only a match is. */
  lemma {:induction false} AdmitsTrue(w: Scope, f: Filter, at: Path, db: Table, x: Id)
    requires w.t in w.sc.types && TrueScans(w, f, db, x)
    ensures x in db && Meaning(w, f, db[x]) ==> Admits(w, f, at, x)
    ensures Exactly(w, f, at) && Admits(w, f, at, x) ==> x in db && Meaning(w, f, db[x])
    decreases f
  {
    match f
    case All =>
    case Not(_) =>
    case Cond(pairs) =>
      forall n | n in pairs ensures PairTrue(w, at, n, pairs[n], db, x) { assert Mentions(f, n); }
      if pairs != map[] && Exactly(w, f, at) && Admits(w, f, at, x) {
        var n :| n in pairs;
        assert PairExact(w, at, n, pairs[n]) && PairAdmits(w, at, n, pairs[n], x);
      }
    case And(cs) =>
      ChildrenTrue(w, f, at, db, x);
      if cs != [] && Exactly(w, f, at) && Admits(w, f, at, x) {
        assert Exactly(w, cs[0], at + [0]) && Admits(w, cs[0], at + [0], x);
      }
    case Or(cs) => ChildrenTrue(w, f, at, db, x);
  }

  lemma {:induction false} ChildrenTrue(w: Scope, f: Filter, at: Path, db: Table, x: Id)
    requires f.And? || f.Or?
    requires w.t in w.sc.types && TrueScans(w, f, db, x)
    ensures forall i :: 0 <= i < |f.children| ==>
      && (x in db && Meaning(w, f.children[i], db[x]) ==> Admits(w, f.children[i], at + [i], x))
      && (Exactly(w, f.children[i], at + [i]) && Admits(w, f.children[i], at + [i], x) ==>
            x in db && Meaning(w, f.children[i], db[x]))
    decreases f, 0
  {
    forall i | 0 <= i < |f.children|
      ensures x in db && Meaning(w, f.children[i], db[x]) ==> Admits(w, f.children[i], at + [i], x)
      ensures Exactly(w, f.children[i], at + [i]) && Admits(w, f.children[i], at + [i], x)
        ==> x in db && Meaning(w, f.children[i], db[x])
    {
      forall at', n, want | Mentions(f.children[i], n) ensures PairTrue(w, at', n, want, db, x) {
        assert Mentions(f, n);
      }
      AdmitsTrue(w, f.children[i], at + [i], db, x);
    }
  }

  /** The reads are all of one store, whose indexes agree with its records. */
  ghost predicate OneStore(w: Scope) {
    && ValidSchema(w.sc) && w.t in w.sc.types && Agrees(w.sc, w.s) && w.all == Stored(w).Keys
    && (forall at, n, v :: w.scan(at, n, v) == ScanEqual(w.s, w.t, n, v))
    && (w.sem.Custom? ==> forall at, n, want, x :: PairTrue(w, at, n, want, Stored(w), x))
  }

  /** Then every answer is right about every id. */
  lemma OneStoreTrue(w: Scope, at: Path, n: Name, want: Raw, x: Id)
    requires OneStore(w)
    ensures PairTrue(w, at, n, want, Stored(w), x)
  {
    var ty := w.sc.types[w.t];
    if w.sem.Core? && n in ty.props && ty.props[n].indexed && IndexValue(ty.props[n], Some(want)).Some? {
      var v := IndexValue(ty.props[n], Some(want)).value;
      assert w.scan(at, n, v) == ScanEqual(w.s, w.t, n, v);
      ScanAgrees(w.sc, w.s, w.t, n, v, x);
      StoredAt(w, x);
      assert ValidType(ty);
    }
  }

  /** The set holds every match, and nothing else where it is called exact. */
  lemma ProducedCovers(w: Scope, f: Filter, p: Produced, x: Id)
    requires OneStore(w) && Produces(w, f, [], p) && p.Ids?
    ensures x in Stored(w) && Meaning(w, f, Stored(w)[x]) ==> x in p.ids
    ensures p.exact && x in p.ids ==> x in Stored(w) && Meaning(w, f, Stored(w)[x])
  {
    forall at, n, want | Mentions(f, n) ensures PairTrue(w, at, n, want, Stored(w), x) {
      OneStoreTrue(w, at, n, want, x);
    }
    AdmitsTrue(w, f, [], Stored(w), x);
  }
}
