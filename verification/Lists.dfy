/** Result lists: dropping elements, and strictly ordered lists. */
module Lists {
  /** `s` without the elements of `drop`, order kept. */
  function Without<T(==)>(s: seq<T>, drop: set<T>): seq<T> {
    if s == [] then []
    else (if s[0] in drop then [] else [s[0]]) + Without(s[1..], drop)
  }

  lemma {:induction false} WithoutConcat<T(!new)>(s: seq<T>, t: seq<T>, drop: set<T>)
    ensures Without(s + t, drop) == Without(s, drop) + Without(t, drop)
  {
    if s == [] {
      assert s + t == t;
    } else {
      var head := if s[0] in drop then [] else [s[0]];
      assert (s + t)[1..] == s[1..] + t;
      WithoutConcat(s[1..], t, drop);
      assert Without(s + t, drop) == head + Without(s[1..] + t, drop);
      assert head + (Without(s[1..], drop) + Without(t, drop)) == (head + Without(s[1..], drop)) + Without(t, drop);
    }
  }

  lemma {:induction false} WithoutMembers<T(!new)>(s: seq<T>, drop: set<T>)
    ensures forall x :: x in Without(s, drop) <==> x in s && x !in drop
  {
    if s != [] {
      WithoutMembers(s[1..], drop);
      assert forall x :: x in s <==> x == s[0] || x in s[1..];
    }
  }

  /** Two drop sets that agree on the list's own elements drop the same. */
  lemma {:induction false} WithoutSame<T(!new)>(s: seq<T>, a: set<T>, b: set<T>)
    requires forall x :: x in s ==> (x in a <==> x in b)
    ensures Without(s, a) == Without(s, b)
  {
    if s != [] {
      assert forall x :: x in s[1..] ==> x in s;
      WithoutSame(s[1..], a, b);
    }
  }

  lemma {:induction false} WithoutNone<T(!new)>(s: seq<T>, drop: set<T>)
    requires forall x :: x in s ==> x !in drop
    ensures Without(s, drop) == s
  {
    if s != [] {
      assert forall x :: x in s[1..] ==> x in s;
      WithoutNone(s[1..], drop);
    }
  }

  lemma {:induction false} WithoutAll<T(!new)>(s: seq<T>, drop: set<T>)
    requires forall x :: x in s ==> x in drop
    ensures Without(s, drop) == []
  {
    if s != [] {
      assert forall x :: x in s[1..] ==> x in s;
      WithoutAll(s[1..], drop);
    }
  }

  lemma {:induction false} WithoutTwice<T(!new)>(s: seq<T>, a: set<T>, b: set<T>)
    ensures Without(Without(s, a), b) == Without(s, a + b)
  {
    if s != [] {
      WithoutTwice(s[1..], a, b);
      if s[0] !in a {
        assert Without(s, a)[1..] == Without(s[1..], a);
      } else {
        assert Without(s, a) == Without(s[1..], a);
      }
    }
  }

  /** `s` is strictly ascending under `before`. */
  ghost predicate Ascending<T(!new)>(s: seq<T>, before: (T, T) -> bool) {
    forall i, j :: 0 <= i < j < |s| ==> before(s[i], s[j])
  }

  ghost predicate AsymmetricOn<T(!new)>(before: (T, T) -> bool, xs: set<T>) {
    forall a, b :: a in xs && b in xs && before(a, b) ==> !before(b, a)
  }

  function Elems<T(==)>(s: seq<T>): set<T> { set x | x in s }

  lemma {:induction false} AscendingWithout<T(!new)>(s: seq<T>, drop: set<T>, before: (T, T) -> bool)
    requires Ascending(s, before)
    ensures Ascending(Without(s, drop), before)
  {
    if s != [] {
      AscendingWithout(s[1..], drop, before);
      var t := Without(s[1..], drop);
      forall j | 0 <= j < |t| ensures before(s[0], t[j]) {
        WithoutMembers(s[1..], drop);
        assert t[j] in Without(s[1..], drop);
        var i :| 0 <= i < |s[1..]| && s[1..][i] == t[j];
        assert before(s[0], s[i + 1]);
      }
    }
  }

  /** A strictly ascending list is determined by its elements. */
  lemma {:induction false} AscendingUnique<T(!new)>(s: seq<T>, t: seq<T>, before: (T, T) -> bool)
    requires Ascending(s, before) && Ascending(t, before)
    requires Elems(s) == Elems(t) && AsymmetricOn(before, Elems(s))
    ensures s == t
  {
    assert s != [] ==> s[0] in Elems(t);
    assert t != [] ==> t[0] in Elems(s);
    if s != [] {
      HeadFirst(t, s[0], before);
      HeadFirst(s, t[0], before);
      forall x | x in s[1..] ensures x in t[1..] && x != s[0] { TailElem(s, t, x, before); }
      forall x | x in t[1..] ensures x in s[1..] && x != s[0] { TailElem(t, s, x, before); }
      assert Elems(s[1..]) == Elems(t[1..]) <= Elems(s);
      AscendingUnique(s[1..], t[1..], before);
    }
  }

  lemma HeadFirst<T(!new)>(s: seq<T>, x: T, before: (T, T) -> bool)
    requires Ascending(s, before) && x in s
    ensures x == s[0] || before(s[0], x)
  {
  }

  lemma TailElem<T(!new)>(s: seq<T>, t: seq<T>, x: T, before: (T, T) -> bool)
    requires s != [] && t != [] && s[0] == t[0] && x in s[1..]
    requires Ascending(s, before) && Elems(s) == Elems(t) && AsymmetricOn(before, Elems(s))
    ensures x in t[1..] && x != s[0]
  {
    var i :| 0 <= i < |s| - 1 && s[1..][i] == x;
    assert s[i + 1] == x && before(s[0], x);
    assert s[0] in Elems(s) && x in Elems(s);
    assert x in Elems(t);
  }

  lemma {:induction false} SubsetSize<T(!new)>(a: set<T>, b: set<T>)
    requires a <= b
    ensures |a| <= |b|
    decreases |a|
  {
    if a != {} {
      var x :| x in a;
      SubsetSize(a - {x}, b - {x});
    }
  }
}
