/** core/objectdb/keys.go and the counter encoding of core/providers/backend: the
    key layout of one account, and the decoders that read ids and sequence
    numbers back out of keys. */
module Keys {
  import opened Options
  import opened ByteOrder
  import opened KeyEncoding

  // ---- Counters: 8 bytes, big endian, offset by 2^63 ----

  const OFFSET: int := 0x8000_0000_0000_0000

  type int64 = n: int | -0x8000_0000_0000_0000 <= n < 0x8000_0000_0000_0000

  function Pow256(n: nat): nat { if n == 0 then 1 else 256 * Pow256(n - 1) }

  function BigEndian(u: nat, n: nat): (r: Bytes)
    ensures |r| == n
  {
    if n == 0 then [] else BigEndian(u / 256, n - 1) + [u % 256]
  }

  function FromBigEndian(b: Bytes): nat {
    if b == [] then 0 else 256 * FromBigEndian(b[..|b| - 1]) + b[|b| - 1]
  }

  /** Flipping the sign bit of a two's complement int64 adds 2^63 to it. */
  function EncodeInt64(v: int64): Bytes { BigEndian(v + OFFSET, 8) }

  function DecodeInt64(b: Bytes): Result<int64> {
    if |b| != 8 then Err else Ok(DecodeEight(b))
  }

  function DecodeEight(b: Bytes): int64
    requires |b| == 8
  {
    FromBigEndianBound(b);
    assert Pow256(8) == 0x1_0000_0000_0000_0000;
    FromBigEndian(b) - OFFSET
  }

  lemma {:induction false} FromBigEndianBound(b: Bytes)
    ensures FromBigEndian(b) < Pow256(|b|)
  {
    if b != [] { FromBigEndianBound(b[..|b| - 1]); }
  }

  lemma {:induction false} BigEndianRoundTrip(u: nat, n: nat)
    requires u < Pow256(n)
    ensures FromBigEndian(BigEndian(u, n)) == u
  {
    if n > 0 {
      BigEndianRoundTrip(u / 256, n - 1);
      assert BigEndian(u, n)[..n - 1] == BigEndian(u / 256, n - 1);
    }
  }

  lemma {:induction false} SnocOrder(x: Bytes, c: byte, y: Bytes, d: byte)
    requires |x| == |y|
    ensures Less(x + [c], y + [d]) <==> Less(x, y) || (x == y && c < d)
  {
    if x != [] {
      assert (x + [c])[1..] == x[1..] + [c] && (y + [d])[1..] == y[1..] + [d];
      assert x == [x[0]] + x[1..] && y == [y[0]] + y[1..];
      SnocOrder(x[1..], c, y[1..], d);
    }
  }

  lemma {:induction false} BigEndianOrder(a: nat, b: nat, n: nat)
    requires a < Pow256(n) && b < Pow256(n)
    ensures Less(BigEndian(a, n), BigEndian(b, n)) <==> a < b
  {
    if n > 0 {
      SnocOrder(BigEndian(a / 256, n - 1), a % 256, BigEndian(b / 256, n - 1), b % 256);
      BigEndianOrder(a / 256, b / 256, n - 1);
      BigEndianRoundTrip(a / 256, n - 1);
      BigEndianRoundTrip(b / 256, n - 1);
    }
  }

  /** Byte order on encoded counters is numeric order, over all of int64. */
  lemma Int64Order(a: int64, b: int64)
    ensures Less(EncodeInt64(a), EncodeInt64(b)) <==> a < b
  {
    assert Pow256(8) == 0x1_0000_0000_0000_0000;
    BigEndianOrder(a + OFFSET, b + OFFSET, 8);
  }

  lemma Int64RoundTrip(v: int64)
    ensures DecodeInt64(EncodeInt64(v)) == Ok(v)
  {
    assert Pow256(8) == 0x1_0000_0000_0000_0000;
    BigEndianRoundTrip(v + OFFSET, 8);
  }

  // ---- Key layout of one account ----

  datatype Key =
    | Obj(typ: Bytes, id: Id)
    | Idx(typ: Bytes, prop: Bytes, value: Bytes, order: seq<Bytes>, id: Id)
    | Log(seqNo: nat)
    | Floor
    | Seq
    | State(typ: Bytes)
    | Upload(blob: Id)
    | Ref(blob: Id, typ: Bytes, id: Id)
    | Pending(blob: Id)

  /** Sequence numbers fit an int64. */
  predicate Encodable(k: Key) { k.Log? ==> k.seqNo < OFFSET }

  function Segments(acct: Id, k: Key): Tuple
    requires Encodable(k)
  {
    match k
    case Obj(t, id) => [acct, [0x6f], t, id]
    case Idx(t, p, v, o, id) => [acct, [0x78], t, p, v] + o + [id]
    case Log(n) => [acct, [0x67], EncodeInt64(n)]
    case Floor => [acct, [0x66]]
    case Seq => [acct, [0x71]]
    case State(t) => [acct, [0x73], t]
    case Upload(b) => [acct, [0x75], b]
    case Ref(b, t, id) => [acct, [0x72], b, t, id]
    case Pending(b) => [acct, [0x70], b]
  }

  function KeyBytes(acct: Id, k: Key): Bytes
    requires Encodable(k)
  { EncodeKey(Segments(acct, k)) }

  /** No two facts, of one account or of two, are filed under the same bytes. */
  lemma KeyBytesInjective(a1: Id, k1: Key, a2: Id, k2: Key)
    requires Encodable(k1) && Encodable(k2) && KeyBytes(a1, k1) == KeyBytes(a2, k2)
    ensures a1 == a2 && k1 == k2
  {
    var s1, s2 := Segments(a1, k1), Segments(a2, k2);
    KeyInjective(s1, s2);
    assert s1[0] == a1 && s2[0] == a2 && s1[1] == s2[1];
    assert s1[1][0] == s2[1][0];
    match k1 {
      case Obj(t, id) => assert s1[2] == s2[2] && s1[3] == s2[3];
      case Idx(t, p, v, o, id) =>
        assert s1[2] == s2[2] && s1[3] == s2[3] && s1[4] == s2[4];
        assert o == s1[5..|s1| - 1] && k2.order == s2[5..|s2| - 1];
        assert s1[|s1| - 1] == id && s2[|s2| - 1] == k2.id;
      case Log(n) =>
        assert s1[2] == s2[2];
        Int64RoundTrip(n);
        Int64RoundTrip(k2.seqNo);
      case Floor =>
      case Seq =>
      case State(t) => assert s1[2] == s2[2];
      case Upload(b) => assert s1[2] == s2[2];
      case Ref(b, t, id) => assert s1[2] == s2[2] && s1[3] == s2[3] && s1[4] == s2[4];
      case Pending(b) => assert s1[2] == s2[2];
    }
  }

  /** Index rows of one value scan back in OrderBy order, then id order. */
  lemma IndexRowOrder(acct: Id, t: Bytes, p: Bytes, v: Bytes, o1: seq<Bytes>, id1: Id, o2: seq<Bytes>, id2: Id)
    ensures Less(KeyBytes(acct, Idx(t, p, v, o1, id1)), KeyBytes(acct, Idx(t, p, v, o2, id2)))
       <==> TupleLess(o1 + [id1], o2 + [id2])
  {
    var pre := [acct, [0x78], t, p, v];
    KeyOrder(Segments(acct, Idx(t, p, v, o1, id1)), Segments(acct, Idx(t, p, v, o2, id2)));
    assert pre + o1 + [id1] == pre + (o1 + [id1]) && pre + o2 + [id2] == pre + (o2 + [id2]);
    TupleCommonPrefix(pre, o1 + [id1], o2 + [id2]);
  }

  /** Log entries scan back in sequence order. */
  lemma LogRowOrder(acct: Id, m: nat, n: nat)
    requires Encodable(Log(m)) && Encodable(Log(n))
    ensures Less(KeyBytes(acct, Log(m)), KeyBytes(acct, Log(n))) <==> m < n
  {
    KeyOrder(Segments(acct, Log(m)), Segments(acct, Log(n)));
    var pre := [acct, [0x67]];
    assert Segments(acct, Log(m)) == pre + [EncodeInt64(m)] && Segments(acct, Log(n)) == pre + [EncodeInt64(n)];
    TupleCommonPrefix(pre, [EncodeInt64(m)], [EncodeInt64(n)]);
    Int64Order(m, n);
  }

  // ---- Reading the last segment back ----

  lemma {:induction false} EscapeNoTerminator(s: Bytes, j: nat)
    requires 0 < j < |Escape(s)| && Escape(s)[j - 1] == 0
    ensures Escape(s)[j] == 255
  {
    var h := |EscapeByte(s[0])|;
    if j > h {
      EscapeNoTerminator(s[1..], j - h);
    }
  }

  /** An id is its own escape exactly when it holds no 0x00 byte. */
  lemma {:induction false} EscapeIdentity(s: Bytes)
    ensures |Escape(s)| >= |s|
    ensures Escape(s) == s <==> 0 !in s
  {
    if s != [] {
      EscapeIdentity(s[1..]);
      assert s == [s[0]] + s[1..];
      if s[0] != 0 { assert Escape(s)[1..] == Escape(s[1..]); }
    }
  }

  /** Position `q` of `k` directly follows a terminator. */
  predicate AfterTerminator(k: Bytes, q: int) {
    2 <= q <= |k| && k[q - 2] == 0 && k[q - 1] == 1
  }

  /** The last terminator before a key's own one is where its last segment starts. */
  lemma LastSegmentStart(segs: Tuple, start: int)
    requires |segs| >= 2
    requires var k := EncodeKey(segs);
      && start <= |k| - 2
      && (start < 2 || AfterTerminator(k, start))
      && forall q :: start < q <= |k| - 2 ==> !AfterTerminator(k, q)
    ensures 0 <= start && EncodeKey(segs)[start..|EncodeKey(segs)| - 2] == Escape(segs[|segs| - 1])
  {
    var front, last := segs[..|segs| - 1], segs[|segs| - 1];
    var k, a := EncodeKey(segs), |EncodeKey(front)|;
    LastSegmentEnds(segs);
    forall q | a < q <= |k| - 2 ensures !AfterTerminator(k, q) {
      NoTerminatorInside(EncodeKey(front), last, q);
    }
    assert start == a;
  }

  lemma LastSegmentEnds(segs: Tuple)
    requires |segs| >= 2
    ensures var front, last := segs[..|segs| - 1], segs[|segs| - 1];
      var k, a := EncodeKey(segs), |EncodeKey(front)|;
      && k == EncodeKey(front) + Escape(last) + [0, 1] && k[a..|k| - 2] == Escape(last)
      && AfterTerminator(EncodeKey(front), a) && AfterTerminator(k, a)
  {
    var n := |segs|;
    var front, last := segs[..n - 1], segs[n - 1];
    assert segs == front + [last] && front == front[..n - 2] + [front[n - 2]];
    KeySnoc(front, last);
    KeySnoc(front[..n - 2], front[n - 2]);
  }

  lemma NoTerminatorInside(head: Bytes, last: Bytes, q: int)
    requires |head| < q <= |head| + |Escape(last)|
    requires head != [] && head[|head| - 1] == 1
    ensures !AfterTerminator(head + Escape(last) + [0, 1], q)
  {
    var k, a := head + Escape(last) + [0, 1], |head|;
    assert k[q - 1] == Escape(last)[q - 1 - a];
    if q - 1 > a {
      assert k[q - 2] == Escape(last)[q - 2 - a];
      if k[q - 2] == 0 { EscapeNoTerminator(last, q - 1 - a); }
    } else {
      assert k[q - 2] == head[a - 1];
    }
  }

  method IdFromObjKey(k: Bytes) returns (id: Bytes)
    requires |k| >= 2
    ensures forall segs: Tuple :: |segs| >= 2 && EncodeKey(segs) == k ==> id == Escape(segs[|segs| - 1])
  {
    var end := |k| - 2;
    var start := end;
    while start >= 2 && !(k[start - 2] == 0 && k[start - 1] == 1)
      invariant 0 <= start <= end
      invariant forall q :: start < q <= end ==> !AfterTerminator(k, q)
    {
      start := start - 1;
    }
    forall segs: Tuple | |segs| >= 2 && EncodeKey(segs) == k
      ensures k[start..end] == Escape(segs[|segs| - 1])
    {
      LastSegmentStart(segs, start);
    }
    id := k[start..end];
  }

  /** Ids come back from object, index and hint keys unchanged, provided they hold
      no 0x00 byte - and only then. */
  lemma IdRecovered(segs: Tuple, read: Bytes)
    requires |segs| >= 2 && read == Escape(segs[|segs| - 1])
    ensures read == segs[|segs| - 1] <==> 0 !in segs[|segs| - 1]
  {
    EscapeIdentity(segs[|segs| - 1]);
  }

  // ---- Ids (core/jmap/types.go, section 1.2 of RFC 8620) ----

  predicate IdByte(c: byte) {
    || ('A' as int <= c <= 'Z' as int) || ('a' as int <= c <= 'z' as int) || ('0' as int <= c <= '9' as int)
    || c == '-' as int || c == '_' as int
  }

  predicate ValidId(id: Bytes) { 1 <= |id| <= 255 && forall i :: 0 <= i < |id| ==> IdByte(id[i]) }

  method CheckId(id: Bytes) returns (ok: bool)
    ensures ok <==> ValidId(id)
    ensures ok <==> 0 < |id| < 256 && forall i :: 0 <= i < |id| ==>
      0x30 <= id[i] < 0x3A || 0x41 <= id[i] < 0x5B || 0x61 <= id[i] < 0x7B || id[i] in {0x2D, 0x5F}
  {
    if |id| < 1 || |id| > 255 { return false; }
    for i := 0 to |id|
      invariant forall j :: 0 <= j < i ==> IdByte(id[j])
    {
      if !IdByte(id[i]) { return false; }
    }
    return true;
  }

  /** Every valid id comes back from a key it ends. */
  method ValidIdRecovered(segs: Tuple, k: Bytes) returns (id: Bytes)
    requires |segs| >= 2 && ValidId(segs[|segs| - 1]) && k == EncodeKey(segs)
    ensures id == segs[|segs| - 1]
  {
    KeySnoc(segs[..|segs| - 1], segs[|segs| - 1]);
    assert segs == segs[..|segs| - 1] + [segs[|segs| - 1]];
    id := IdFromObjKey(k);
    IdRecovered(segs, id);
  }

  function Unescape(b: Bytes): Bytes {
    if b == [] then []
    else if b[0] == 0 && |b| > 1 && b[1] == 255 then [0] + Unescape(b[2..])
    else [b[0]] + Unescape(b[1..])
  }

  lemma {:induction false} UnescapeEscape(s: Bytes)
    ensures Unescape(Escape(s)) == s
  {
    if s != [] {
      UnescapeEscape(s[1..]);
      assert Escape(s)[|EscapeByte(s[0])|..] == Escape(s[1..]);
      assert s == [s[0]] + s[1..];
    }
  }

  lemma UnescapeFrom(seg: Bytes, i: nat)
    requires i < |seg|
    ensures Unescape(seg[i..]) ==
      if seg[i] == 0 && i + 1 < |seg| && seg[i + 1] == 255 then [0] + Unescape(seg[i + 2..])
      else [seg[i]] + Unescape(seg[i + 1..])
  {
    var rest := seg[i..];
    assert rest[0] == seg[i] && rest[1..] == seg[i + 1..];
    if i + 1 < |seg| { assert rest[2..] == seg[i + 2..]; }
  }

  method UnescapeSegment(seg: Bytes) returns (raw: Bytes)
    ensures raw == Unescape(seg)
  {
    raw := [];
    var i := 0;
    while i < |seg|
      invariant 0 <= i <= |seg|
      invariant Unescape(seg) == raw + Unescape(seg[i..])
    {
      UnescapeFrom(seg, i);
      var escaped := seg[i] == 0 && i + 1 < |seg| && seg[i + 1] == 255;
      var next := if escaped then i + 2 else i + 1;
      var c := if escaped then 0 else seg[i];
      assert raw + ([c] + Unescape(seg[next..])) == (raw + [c]) + Unescape(seg[next..]);
      raw := raw + [c];
      i := next;
    }
  }

  method SeqFromLogKey(k: Bytes) returns (n: int64)
    requires |k| >= 2
    ensures forall acct: Id, v: nat :: Encodable(Log(v)) && KeyBytes(acct, Log(v)) == k ==> n == v
  {
    var body := k[..|k| - 2];
    var segStart := 0;
    var i := |body| - 2;
    while i >= 0
      invariant -2 <= i <= |body| - 2
      invariant segStart == 0
      invariant forall q :: i + 2 < q <= |body| ==> !AfterTerminator(k, q)
    {
      if body[i] == 0 && body[i + 1] == 1 {
        segStart := i + 2;
        break;
      }
      i := i - 1;
    }
    var raw := UnescapeSegment(body[segStart..]);
    var d := DecodeInt64(raw);
    n := if d.Ok? then d.value else 0;
    assert body[segStart..] == k[segStart..|k| - 2];
    forall acct: Id, v: nat | Encodable(Log(v)) && KeyBytes(acct, Log(v)) == k ensures n == v {
      LogSegmentDecodes(acct, v, segStart);
    }
  }

  /** What is left of a log key after its last inner terminator decodes to its
      sequence number. */
  lemma LogSegmentDecodes(acct: Id, v: nat, start: int)
    requires Encodable(Log(v))
    requires var k := KeyBytes(acct, Log(v));
      && start <= |k| - 2
      && (start < 2 || AfterTerminator(k, start))
      && forall q :: start < q <= |k| - 2 ==> !AfterTerminator(k, q)
    ensures var k := KeyBytes(acct, Log(v));
      0 <= start && DecodeInt64(Unescape(k[start..|k| - 2])) == Ok(v)
  {
    LastSegmentStart(Segments(acct, Log(v)), start);
    assert Segments(acct, Log(v))[2] == EncodeInt64(v);
    UnescapeEscape(EncodeInt64(v));
    Int64RoundTrip(v);
  }
}
