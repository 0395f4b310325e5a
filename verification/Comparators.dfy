/** The core sort language (core/runtime/query.go: comparator, sortValue,
    compareValues; section 5.5 of RFC 8620): when the comparators order records
    consistently, and what their decoded forms mean. */
module Comparators {
  import opened ByteOrder
  import opened Records
  import opened Keys

  /** One record's decoded value for one comparator. */
  datatype SortValue =
    | Absent
    | Unusable             // present, but does not encode for the property's kind
    | Number(num: int)     // booleans, integers and dates
    | Keyed(key: Bytes)    // every other kind: the index encoding
    | Digits(run: Bytes)   // i;ascii-numeric: the leading digits, zeros stripped

  /** What a comparator decodes values to. */
  datatype Form = Integral | Encoded | AsciiNumeric

  datatype Comparator = Comparator(name: Name, descending: bool, form: Form, decode: Raw -> SortValue)

  /** The decoded values of one property all have the comparator's form. */
  predicate Fits(c: Comparator, v: SortValue) {
    match v
    case Absent => true
    case Unusable => true
    case Number(_) => c.form.Integral?
    case Keyed(_) => c.form.Encoded?
    case Digits(run) => c.form.AsciiNumeric? && Stripped(run)
  }

  function ValueOf(c: Comparator, o: Object): SortValue {
    if c.name in o then c.decode(o[c.name]) else Absent
  }

  function CompareInts(a: int, b: int): int { if a < b then -1 else if a > b then 1 else 0 }

  function CompareBytes(a: Bytes, b: Bytes): int { if a == b then 0 else if Less(a, b) then -1 else 1 }

  function CompareDigitRuns(a: SortValue, b: SortValue): int {
    if !a.Digits? && !b.Digits? then 0
    else if !a.Digits? then 1
    else if !b.Digits? then -1
    else if |a.run| != |b.run| then (if |a.run| < |b.run| then -1 else 1)
    else CompareBytes(a.run, b.run)
  }

  function Turn(c: Comparator, r: int): int { if c.descending then -r else r }

  function CompareValues(c: Comparator, a: SortValue, b: SortValue): int {
    if a.Absent? && b.Absent? then 0
    else if a.Absent? then Turn(c, -1)
    else if b.Absent? then Turn(c, 1)
    else if c.form.AsciiNumeric? then Turn(c, CompareDigitRuns(a, b))
    else if a.Unusable? || b.Unusable? then 0
    else if a.Number? && b.Number? then Turn(c, CompareInts(a.num, b.num))
    else Turn(c, CompareBytes(KeyOf(a), KeyOf(b)))
  }

  function KeyOf(v: SortValue): Bytes { if v.Keyed? then v.key else [] }

  // ---- The order a comparator means ----

  /** In ascending order the first value does not come after the second: no value comes
      before any, numbers by size, keys by their bytes, runs of digits by the number they
      denote and before what has none. A value that does not encode ties with all others. */
  ghost predicate Rises(form: Form, a: SortValue, b: SortValue) {
    if a.Absent? then true
    else if b.Absent? then false
    else match form
      case Integral => a.Number? && b.Number? ==> a.num <= b.num
      case Encoded => a.Keyed? && b.Keyed? ==> a.key == b.key || Less(a.key, b.key)
      case AsciiNumeric =>
        b.Digits? && AllDigits(b.run) ==> a.Digits? && AllDigits(a.run) && Value(a.run) <= Value(b.run)
  }

  /** In the comparator's direction the first value does not come after the second. */
  ghost predicate Follows(c: Comparator, a: SortValue, b: SortValue) {
    if c.descending then Rises(c.form, b, a) else Rises(c.form, a, b)
  }

  /** Comparing values is asking for that order, both ways. */
  lemma ComparesAsMeant(c: Comparator, a: SortValue, b: SortValue)
    requires Fits(c, a) && Fits(c, b)
    ensures CompareValues(c, a, b) <= 0 <==> Follows(c, a, b)
    ensures CompareValues(c, a, b) >= 0 <==> Follows(c, b, a)
  {
    if a.Digits? && b.Digits? { DigitRunsCompareNumbers(a.run, b.run); }
    if a.Keyed? && b.Keyed? { ByteCompare(a.key, b.key, []); }
  }

  // ---- When a comparator is consistent ----

  ghost predicate Mirrored(c: Comparator, a: SortValue, b: SortValue) {
    CompareValues(c, a, b) < 0 <==> CompareValues(c, b, a) > 0
  }

  ghost predicate Chained(c: Comparator, a: SortValue, b: SortValue, d: SortValue) {
    CompareValues(c, a, b) <= 0 && CompareValues(c, b, d) <= 0 ==> CompareValues(c, a, d) <= 0
  }

  /** A total preorder on `vs`. */
  ghost predicate Consistent(c: Comparator, vs: set<SortValue>) {
    && (forall a, b :: a in vs && b in vs ==> Mirrored(c, a, b))
    && (forall a, b, d :: a in vs && b in vs && d in vs ==> Chained(c, a, b, d))
  }

  predicate Usable(v: SortValue) { !v.Absent? && !v.Unusable? }

  /** An unusable value stands next to two usable ones that differ. */
  ghost predicate Muddled(c: Comparator, vs: set<SortValue>) {
    !c.form.AsciiNumeric? && Unusable in vs && exists a, b :: a in vs && b in vs && Usable(a) && Usable(b) && a != b
  }

  lemma ByteCompare(a: Bytes, b: Bytes, d: Bytes)
    ensures CompareBytes(a, b) < 0 <==> CompareBytes(b, a) > 0
    ensures CompareBytes(a, b) <= 0 && CompareBytes(b, d) <= 0 ==> CompareBytes(a, d) <= 0
  {
    Total(a, b);
    if Less(a, b) { Asymmetric(a, b); }
    if Less(b, a) { Asymmetric(b, a); }
    if Less(a, b) && Less(b, d) { Transitive(a, b, d); }
  }

  lemma AlwaysMirrored(c: Comparator, a: SortValue, b: SortValue)
    requires Fits(c, a) && Fits(c, b)
    ensures Mirrored(c, a, b)
  {
    if a.Keyed? && b.Keyed? { ByteCompare(a.key, b.key, []); }
    if a.Digits? && b.Digits? { ByteCompare(a.run, b.run, []); }
  }

  lemma ChainedUnlessMuddled(c: Comparator, a: SortValue, b: SortValue, d: SortValue)
    requires Fits(c, a) && Fits(c, b) && Fits(c, d) && !Muddled(c, {a, b, d})
    ensures Chained(c, a, b, d)
  {
    if c.form.AsciiNumeric? {
      if a.Digits? && b.Digits? && d.Digits? {
        ByteCompare(a.run, b.run, d.run);
        ByteCompare(d.run, b.run, a.run);
        ByteCompare(b.run, d.run, []);
        ByteCompare(a.run, d.run, []);
      }
    } else if b.Unusable? {
      assert b in {a, b, d};
      assert Usable(a) && Usable(d) ==> a == d by {
        assert a in {a, b, d} && d in {a, b, d};
      }
    } else if a.Keyed? && b.Keyed? && d.Keyed? {
      ByteCompare(a.key, b.key, d.key);
      ByteCompare(d.key, b.key, a.key);
      ByteCompare(b.key, d.key, []);
      ByteCompare(a.key, d.key, []);
    }
  }

  /** A comparator orders a set of values consistently if and only if no unusable value
      stands next to two usable ones that differ: that one equals both, they do not
      equal each other. */
  lemma ConsistentIff(c: Comparator, vs: set<SortValue>)
    requires forall v :: v in vs ==> Fits(c, v)
    ensures Consistent(c, vs) <==> !Muddled(c, vs)
  {
    if Muddled(c, vs) {
      var a, b :| a in vs && b in vs && Usable(a) && Usable(b) && a != b;
      Differ(c, a, b);
      assert !Chained(c, a, Unusable, b) || !Chained(c, b, Unusable, a);
    } else {
      forall a, b | a in vs && b in vs ensures Mirrored(c, a, b) { AlwaysMirrored(c, a, b); }
      forall a, b, d | a in vs && b in vs && d in vs ensures Chained(c, a, b, d) {
        assert {a, b, d} <= vs;
        ChainedUnlessMuddled(c, a, b, d);
      }
    }
  }

  lemma Differ(c: Comparator, a: SortValue, b: SortValue)
    requires Fits(c, a) && Fits(c, b) && Usable(a) && Usable(b) && a != b
    ensures CompareValues(c, a, b) != 0 && Mirrored(c, a, b)
  {
    AlwaysMirrored(c, a, b);
  }

  // ---- What the decoded forms mean ----

  predicate AllDigits(s: Bytes) { forall i :: 0 <= i < |s| ==> 0x30 <= s[i] <= 0x39 }

  predicate Stripped(s: Bytes) { AllDigits(s) && (s != [] ==> s[0] != 0x30) }

  /** The number a run of digits denotes. */
  function Value(s: Bytes): nat
    requires AllDigits(s)
  {
    if s == [] then 0 else 10 * Value(s[..|s| - 1]) + (s[|s| - 1] as int - 0x30)
  }

  function Pow10(n: nat): nat { if n == 0 then 1 else 10 * Pow10(n - 1) }

  lemma {:induction false} ValueBelow(s: Bytes)
    requires AllDigits(s)
    ensures Value(s) < Pow10(|s|)
  {
    if s != [] { ValueBelow(s[..|s| - 1]); }
  }

  lemma {:induction false} ValueAbove(s: Bytes)
    requires Stripped(s) && s != []
    ensures Value(s) >= Pow10(|s| - 1)
  {
    if |s| > 1 {
      assert Stripped(s[..|s| - 1]);
      ValueAbove(s[..|s| - 1]);
    } else {
      assert s[..0] == [];
    }
  }

  lemma {:induction false} Pow10Grows(m: nat, n: nat)
    requires m <= n
    ensures Pow10(m) <= Pow10(n)
  {
    if m < n { Pow10Grows(m, n - 1); }
  }

  /** Of equally long runs, byte order is numeric order. */
  lemma {:induction false} EqualLengthOrder(a: Bytes, b: Bytes)
    requires AllDigits(a) && AllDigits(b) && |a| == |b|
    ensures CompareBytes(a, b) == CompareInts(Value(a), Value(b))
  {
    if a != [] {
      var n := |a| - 1;
      EqualLengthOrder(a[..n], b[..n]);
      var x, y := a[n], b[n];
      assert a == a[..n] + [x] && b == b[..n] + [y] && 0x30 <= x <= 0x39 && 0x30 <= y <= 0x39;
      SnocOrder(a[..n], x, b[..n], y);
      Irreflexive(a[..n]);
      assert Value(a) == 10 * Value(a[..n]) + (x - 0x30) && Value(b) == 10 * Value(b[..n]) + (y - 0x30);
      assert a == b <==> a[..n] == b[..n] && x == y;
    }
  }

  /** The i;ascii-numeric collation compares the numbers, of any size: leading zeros
      are stripped, so longer is bigger, then byte order decides. */
  lemma DigitRunsCompareNumbers(a: Bytes, b: Bytes)
    requires Stripped(a) && Stripped(b)
    ensures CompareDigitRuns(Digits(a), Digits(b)) == CompareInts(Value(a), Value(b))
  {
    if |a| == |b| {
      EqualLengthOrder(a, b);
    } else if |a| < |b| {
      LongerIsBigger(a, b);
    } else {
      LongerIsBigger(b, a);
    }
  }

  lemma LongerIsBigger(a: Bytes, b: Bytes)
    requires Stripped(a) && Stripped(b) && |a| < |b|
    ensures Value(a) < Value(b)
  {
    ValueBelow(a);
    ValueAbove(b);
    Pow10Grows(|a|, |b| - 1);
  }

  /** Sorting on the integer gives the order of the index encoding. */
  lemma IntegerOrderIsKeyOrder(a: int64, b: int64)
    ensures CompareInts(a, b) == CompareBytes(EncodeInt64(a), EncodeInt64(b))
  {
    Int64Order(a, b);
    Int64Order(b, a);
    Total(EncodeInt64(a), EncodeInt64(b));
  }
}
