/** core/internal/keyenc: the order-preserving key encoding. A key is a tuple of
    segments; each segment escapes 0x00 as 0x00 0xFF and ends in 0x00 0x01. */
module KeyEncoding {
  import opened Options
  import opened ByteOrder

  type Tuple = seq<Bytes>

  // ---- Specification ----

  function EscapeByte(b: byte): Bytes { if b == 0 then [0, 255] else [b] }

  function Escape(s: Bytes): Bytes {
    if s == [] then [] else EscapeByte(s[0]) + Escape(s[1..])
  }

  function EncodeSegment(s: Bytes): Bytes { Escape(s) + [0, 1] }

  function EncodeKey(segs: Tuple): Bytes {
    if segs == [] then [] else EncodeSegment(segs[0]) + EncodeKey(segs[1..])
  }

  /** Lexicographic order on segment tuples: a proper prefix sorts first. */
  predicate TupleLess(a: Tuple, b: Tuple) {
    b != [] && (a == [] || Less(a[0], b[0]) || (a[0] == b[0] && TupleLess(a[1..], b[1..])))
  }

  /** The smallest string above every string with prefix `p`, if there is one. */
  function Successor(p: Bytes): Option<Bytes> {
    if p == [] then None else
    match Successor(p[1..])
    case Some(t) => Some([p[0]] + t)
    case None => if p[0] < 255 then Some([p[0] + 1]) else None
  }

  predicate InRange(k: Bytes, start: Bytes, end: Option<Bytes>) {
    AtMost(start, k) && (end.None? || Less(k, end.value))
  }

  // ---- Order and injectivity ----

  /** Escaping and terminating a segment keeps its order against any other
      segment, whatever follows either of them. */
  lemma {:induction false} SegmentOrder(s: Bytes, t: Bytes, x: Bytes, y: Bytes)
    ensures Less(EncodeSegment(s) + x, EncodeSegment(t) + y) <==> Less(s, t) || (s == t && Less(x, y))
  {
    if s == [] && t == [] {
      CommonPrefix([0, 1], x, y);
    } else if s == [] {
      EmptyFirst(x, t, y);
    } else if t == [] {
      EmptyFirst(y, s, x);
      Asymmetric(EncodeSegment(t) + y, EncodeSegment(s) + x);
    } else {
      SegmentHead(s, x);
      SegmentHead(t, y);
      assert s == [s[0]] + s[1..] && t == [t[0]] + t[1..];
      if s[0] == t[0] {
        CommonPrefix(EscapeByte(s[0]), EncodeSegment(s[1..]) + x, EncodeSegment(t[1..]) + y);
        SegmentOrder(s[1..], t[1..], x, y);
      }
    }
  }

  /** The terminator sorts before everything a longer segment can go on with. */
  lemma EmptyFirst(x: Bytes, t: Bytes, y: Bytes)
    requires t != []
    ensures Less(EncodeSegment([]) + x, EncodeSegment(t) + y)
  {
    SegmentHead(t, y);
    var k := EncodeSegment(t) + y;
    assert EncodeSegment([]) + x == [0] + ([1] + x);
    if t[0] == 0 {
      assert k == [0] + k[1..];
      CommonPrefix([0], [1] + x, k[1..]);
    }
  }

  lemma SegmentHead(s: Bytes, x: Bytes)
    requires s != []
    ensures EncodeSegment(s) + x == EscapeByte(s[0]) + (EncodeSegment(s[1..]) + x)
    ensures (EncodeSegment(s) + x)[0] == s[0]
    ensures s[0] == 0 ==> (EncodeSegment(s) + x)[1] == 255
  {
  }

  /** Byte order on keys is lexicographic order on segment tuples. */
  lemma {:induction false} KeyOrder(a: Tuple, b: Tuple)
    ensures Less(EncodeKey(a), EncodeKey(b)) <==> TupleLess(a, b)
  {
    if a != [] && b != [] {
      SegmentOrder(a[0], b[0], EncodeKey(a[1..]), EncodeKey(b[1..]));
      KeyOrder(a[1..], b[1..]);
    }
  }

  lemma {:induction false} TupleTotal(a: Tuple, b: Tuple)
    ensures TupleLess(a, b) || a == b || TupleLess(b, a)
  {
    if a != [] && b != [] {
      Total(a[0], b[0]);
      TupleTotal(a[1..], b[1..]);
      assert a == [a[0]] + a[1..] && b == [b[0]] + b[1..];
    }
  }

  /** Two different tuples never share a key, however their bytes are chosen. */
  lemma KeyInjective(a: Tuple, b: Tuple)
    requires EncodeKey(a) == EncodeKey(b)
    ensures a == b
  {
    TupleTotal(a, b);
    KeyOrder(a, b);
    KeyOrder(b, a);
    Irreflexive(EncodeKey(a));
  }

  // ---- Prefix ranges ----

  lemma {:induction false} SegmentPrefix(s: Bytes, t: Bytes, x: Bytes, y: Bytes)
    ensures EncodeSegment(s) + x <= EncodeSegment(t) + y <==> s == t && x <= y
  {
    if s == [] && t == [] {
      assert EncodeSegment([]) == [0, 1];
      ConcatPrefix([0, 1], x, y);
    } else if s == [] {
      SegmentHead(t, y);
      assert (EncodeSegment(s) + x)[1] == 1;
    } else if t == [] {
      SegmentHead(s, x);
      assert (EncodeSegment(t) + y)[1] == 1;
    } else {
      SegmentHead(s, x);
      SegmentHead(t, y);
      assert s == [s[0]] + s[1..] && t == [t[0]] + t[1..];
      if s[0] == t[0] {
        ConcatPrefix(EscapeByte(s[0]), EncodeSegment(s[1..]) + x, EncodeSegment(t[1..]) + y);
        SegmentPrefix(s[1..], t[1..], x, y);
      }
    }
  }

  lemma ConcatPrefix(p: Bytes, x: Bytes, y: Bytes)
    ensures p + x <= p + y <==> x <= y
  {
    if p + x <= p + y {
      assert x == (p + x)[|p|..] && y == (p + y)[|p|..];
      forall i | 0 <= i < |x| ensures x[i] == y[i] {
        assert (p + x)[|p| + i] == (p + y)[|p| + i];
      }
    }
  }

  /** The bytes of one key start another exactly when its segments do. */
  lemma {:induction false} KeyPrefix(p: Tuple, k: Tuple)
    ensures EncodeKey(p) <= EncodeKey(k) <==> p <= k
  {
    if p != [] && k != [] {
      SegmentPrefix(p[0], k[0], EncodeKey(p[1..]), EncodeKey(k[1..]));
      KeyPrefix(p[1..], k[1..]);
      assert p == [p[0]] + p[1..] && k == [k[0]] + k[1..];
    }
  }

  /** [p, Successor(p)) holds exactly the strings with prefix `p`. */
  lemma {:induction false} RangeIsPrefix(p: Bytes, k: Bytes)
    ensures InRange(k, p, Successor(p)) <==> p <= k
  {
    if p != [] && k != [] {
      RangeIsPrefix(p[1..], k[1..]);
      assert p == [p[0]] + p[1..] && k == [k[0]] + k[1..];
      ConcatPrefix([p[0]], p[1..], k[1..]);
      var tail := Successor(p[1..]);
      if tail.Some? {
        assert ([p[0]] + tail.value)[1..] == tail.value;
      } else if p[0] < 255 {
        var end := [p[0] + 1];
        assert Successor(p) == Some(end) && end[1..] == [];
        assert Less(k, end) <==> k[0] <= p[0];
      }
    }
  }

  /** A prefix scan over encoded keys visits exactly the tuples with that prefix. */
  lemma PrefixRangeExact(p: Tuple, k: Tuple)
    ensures InRange(EncodeKey(k), EncodeKey(p), Successor(EncodeKey(p))) <==> p <= k
  {
    RangeIsPrefix(EncodeKey(p), EncodeKey(k));
    KeyPrefix(p, k);
  }

  /** Under a common prefix the next segment decides first. */
  lemma {:induction false} TupleCommonPrefix(p: Tuple, a: Tuple, b: Tuple)
    ensures TupleLess(p + a, p + b) <==> TupleLess(a, b)
  {
    if p == [] {
      assert p + a == a && p + b == b;
    } else {
      assert (p + a)[1..] == p[1..] + a && (p + b)[1..] == p[1..] + b;
      Irreflexive(p[0]);
      TupleCommonPrefix(p[1..], a, b);
    }
  }

  /** The range read behind IdsWhereAtMost: below the successor of value v's own
      subrange lie exactly the keys whose value segment is at most v. */
  lemma AtMostRange(pre: Tuple, v: Bytes, k: Tuple)
    requires pre <= k && |pre| < |k|
    ensures InRange(EncodeKey(k), EncodeKey(pre), Successor(EncodeKey(pre + [v]))) <==> AtMost(k[|pre|], v)
  {
    var p := pre + [v];
    assert k == pre + k[|pre|..];
    TupleCommonPrefix(pre, k[|pre|..], [v]);
    TupleCommonPrefix(pre, [v], k[|pre|..]);
    KeyOrder(k, p);
    KeyOrder(p, k);
    PrefixRangeExact(pre, k);
    PrefixRangeExact(p, k);
    Total(k[|pre|], v);
    if Less(k[|pre|], v) {
      BelowStart(EncodeKey(k), EncodeKey(p));
    } else if Less(v, k[|pre|]) {
      Asymmetric(v, k[|pre|]);
      Irreflexive(v);
    } else {
      assert p <= k;
    }
  }

  /** Everything below a prefix is below its successor. */
  lemma BelowStart(k: Bytes, p: Bytes)
    requires Less(k, p)
    ensures Successor(p).None? || Less(k, Successor(p).value)
  {
    RangeIsPrefix(p, p);
    if Successor(p).Some? { Transitive(k, p, Successor(p).value); }
  }

  /** The range read behind IdsWhereAtLeast. */
  lemma AtLeastRange(pre: Tuple, v: Bytes, k: Tuple)
    requires pre <= k && |pre| < |k|
    ensures InRange(EncodeKey(k), EncodeKey(pre + [v]), Successor(EncodeKey(pre))) <==> AtMost(v, k[|pre|])
  {
    var p, rest := pre + [v], k[|pre|..];
    assert k == pre + rest;
    PrefixRangeExact(pre, k);
    if EncodeKey(p) == EncodeKey(k) {
      KeyInjective(p, k);
    } else {
      KeyOrder(p, k);
      TupleCommonPrefix(pre, [v], rest);
      assert [v][1..] == [] && (rest[1..] == [] ==> rest == [rest[0]]);
    }
  }

  // ---- The operations ----

  method Segment(dst: Bytes, seg: Bytes) returns (out: Bytes)
    ensures out == dst + EncodeSegment(seg)
  {
    out := dst;
    for i := 0 to |seg|
      invariant out == dst + Escape(seg[..i])
    {
      EscapeSnoc(seg[..i], seg[i]);
      assert seg[..i + 1] == seg[..i] + [seg[i]];
      if seg[i] == 0 {
        out := out + [0, 255];
      } else {
        out := out + [seg[i]];
      }
    }
    assert seg[..|seg|] == seg;
    out := out + [0, 1];
  }

  lemma {:induction false} EscapeSnoc(s: Bytes, b: byte)
    ensures Escape(s + [b]) == Escape(s) + EscapeByte(b)
  {
    if s == [] {
      assert [b][1..] == [];
    } else {
      EscapeSnoc(s[1..], b);
      assert (s + [b])[1..] == s[1..] + [b];
    }
  }

  function CountZero(s: Bytes): nat {
    if s == [] then 0 else (if s[0] == 0 then 1 else 0) + CountZero(s[1..])
  }

  lemma {:induction false} SegmentSize(s: Bytes)
    ensures |EncodeSegment(s)| == |s| + 2 + CountZero(s)
  {
    if s != [] { SegmentSize(s[1..]); }
  }

  lemma {:induction false} KeySnoc(segs: Tuple, s: Bytes)
    ensures EncodeKey(segs + [s]) == EncodeKey(segs) + EncodeSegment(s)
  {
    if segs == [] {
      assert [s][1..] == [];
    } else {
      KeySnoc(segs[1..], s);
      assert (segs + [s])[1..] == segs[1..] + [s];
    }
  }

  /** `size` is the capacity the buffer is allocated with: it is filled exactly. */
  method Key(segs: Tuple) returns (out: Bytes, size: nat)
    ensures out == EncodeKey(segs)
    ensures |out| == size
  {
    size := 0;
    for i := 0 to |segs|
      invariant size == |EncodeKey(segs[..i])|
    {
      KeySnoc(segs[..i], segs[i]);
      assert segs[..i + 1] == segs[..i] + [segs[i]];
      SegmentSize(segs[i]);
      size := size + |segs[i]| + 2 + CountZero(segs[i]);
    }
    out := [];
    for i := 0 to |segs|
      invariant out == EncodeKey(segs[..i])
    {
      KeySnoc(segs[..i], segs[i]);
      assert segs[..i + 1] == segs[..i] + [segs[i]];
      out := Segment(out, segs[i]);
    }
    assert segs[..|segs|] == segs;
  }

  lemma {:induction false} SuccessorAt(p: Bytes, c: byte, tail: Bytes)
    requires c < 255 && Successor(tail).None?
    ensures Successor(p + [c] + tail) == Some(p + [c + 1])
  {
    if p == [] {
      assert (p + [c] + tail)[1..] == tail && p + [c + 1] == [c + 1];
    } else {
      assert (p + [c] + tail)[1..] == p[1..] + [c] + tail;
      SuccessorAt(p[1..], c, tail);
      assert [p[0]] + (p[1..] + [c + 1]) == p + [c + 1];
    }
  }

  method PrefixSuccessor(prefix: Bytes) returns (r: Option<Bytes>)
    ensures r == Successor(prefix)
  {
    var out := new byte[|prefix|](i requires 0 <= i < |prefix| => prefix[i]);
    assert out[..] == prefix;
    var i := |prefix| - 1;
    while i >= 0
      invariant -1 <= i < |prefix|
      invariant out[..] == prefix
      invariant Successor(prefix[i + 1..]).None?
    {
      assert prefix[i..] == [prefix[i]] + prefix[i + 1..];
      if out[i] < 255 {
        SuccessorAt(prefix[..i], prefix[i], prefix[i + 1..]);
        assert prefix == prefix[..i] + [prefix[i]] + prefix[i + 1..];
        out[i] := out[i] + 1;
        assert out[..i + 1] == prefix[..i] + [prefix[i] + 1];
        return Some(out[..i + 1]);
      }
      i := i - 1;
    }
    assert prefix[0..] == prefix;
    return None;
  }

  method PrefixRange(segs: Tuple) returns (start: Bytes, end: Option<Bytes>)
    ensures forall k: Tuple :: InRange(EncodeKey(k), start, end) <==> segs <= k
  {
    var size;
    start, size := Key(segs);
    end := PrefixSuccessor(start);
    forall k: Tuple ensures InRange(EncodeKey(k), start, end) <==> segs <= k {
      PrefixRangeExact(segs, k);
    }
  }
}
