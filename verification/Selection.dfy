/** Ordering only the window a query reads (core/runtime/query.go: selectPrefix,
    medianOfThree): quickselect with a bail-out, then a sort of the prefix. */
module Selection {

  type Compare = (int, int) -> int

  ghost predicate AtMost(less: Compare, x: int, y: int) { less(x, y) <= 0 }

  /** Comparing either way round agrees, and only equal entries compare equal. */
  ghost predicate Antisymmetric(less: Compare, x: int, y: int) {
    (less(x, y) < 0 <==> less(y, x) > 0) && (less(x, y) == 0 <==> x == y)
  }

  ghost predicate Transitive(less: Compare, x: int, y: int, z: int) {
    AtMost(less, x, y) && AtMost(less, y, z) ==> AtMost(less, x, z)
  }

  ghost predicate TotalOrder(less: Compare) {
    && (forall x, y :: Antisymmetric(less, x, y))
    && (forall x, y, z :: Transitive(less, x, y, z))
  }

  ghost predicate Sorted(s: seq<int>, less: Compare) {
    forall i, j :: 0 <= i < j < |s| ==> AtMost(less, s[i], s[j])
  }

  /** The first w entries are the w smallest. */
  ghost predicate PrefixSmallest(s: seq<int>, w: nat, less: Compare) {
    w <= |s| && forall i, j :: 0 <= i < w <= j < |s| ==> AtMost(less, s[i], s[j])
  }

  // ---- The library's stable sort ----

  function Insert(x: int, s: seq<int>, less: Compare): (r: seq<int>)
    ensures multiset(r) == multiset(s) + multiset{x}
  {
    if s == [] || less(x, s[0]) < 0 then [x] + s
    else assert s == [s[0]] + s[1..]; [s[0]] + Insert(x, s[1..], less)
  }

  /** A stable sort of a list. */
  function StableSort(s: seq<int>, less: Compare): (r: seq<int>)
    ensures multiset(r) == multiset(s)
  {
    if s == [] then []
    else assert s == s[..|s| - 1] + [s[|s| - 1]]; Insert(s[|s| - 1], StableSort(s[..|s| - 1], less), less)
  }

  lemma StableSortSize(s: seq<int>, less: Compare)
    ensures |StableSort(s, less)| == |s|
  {
    assert |StableSort(s, less)| == |multiset(StableSort(s, less))| == |multiset(s)|;
  }

  lemma {:induction false} InsertSorted(x: int, s: seq<int>, less: Compare)
    requires TotalOrder(less) && Sorted(s, less)
    ensures Sorted(Insert(x, s, less), less)
  {
    if s != [] {
      if less(x, s[0]) < 0 {
        forall j | 0 <= j < |s| ensures AtMost(less, x, s[j]) {
          assert Transitive(less, x, s[0], s[j]) && Antisymmetric(less, s[0], s[0]);
        }
      } else {
        var rest := Insert(x, s[1..], less);
        InsertSorted(x, s[1..], less);
        forall j | 0 <= j < |rest| ensures AtMost(less, s[0], rest[j]) { InsertAbove(x, s, less, rest[j]); }
      }
    }
  }

  lemma InsertAbove(x: int, s: seq<int>, less: Compare, y: int)
    requires TotalOrder(less) && s != [] && Sorted(s, less) && less(x, s[0]) >= 0 && y in Insert(x, s[1..], less)
    ensures AtMost(less, s[0], y)
  {
    assert Antisymmetric(less, x, s[0]);
    assert y in multiset(Insert(x, s[1..], less));
    if y != x {
      assert y in s[1..];
      var k :| 0 < k < |s| && s[k] == y;
    }
  }

  lemma {:induction false} StableSortSorts(s: seq<int>, less: Compare)
    requires TotalOrder(less)
    ensures Sorted(StableSort(s, less), less)
  {
    if s != [] {
      StableSortSorts(s[..|s| - 1], less);
      InsertSorted(s[|s| - 1], StableSort(s[..|s| - 1], less), less);
    }
  }

  /** A list with its smallest entries first, those in order, begins as the sorted
      list does. */
  lemma {:induction false} PrefixIsSorted(s: seq<int>, full: seq<int>, w: nat, less: Compare)
    requires TotalOrder(less) && multiset(s) == multiset(full) && Sorted(full, less)
    requires PrefixSmallest(s, w, less) && Sorted(s[..w], less)
    ensures |full| == |s| && s[..w] == full[..w]
  {
    assert |s| == |multiset(s)| == |multiset(full)| == |full|;
    if w > 0 {
      FirstSmallest(s, full, w, less);
      WithoutFirst(s, full);
      TailPrefix(s, w, less);
      assert Sorted(full[1..], less);
      PrefixIsSorted(s[1..], full[1..], w - 1, less);
      assert s[..w] == [s[0]] + s[1..][..w - 1] && full[..w] == [full[0]] + full[1..][..w - 1];
    }
  }

  lemma WithoutFirst(s: seq<int>, t: seq<int>)
    requires s != [] && t != [] && s[0] == t[0] && multiset(s) == multiset(t)
    ensures multiset(s[1..]) == multiset(t[1..])
  {
    assert s == [s[0]] + s[1..] && t == [t[0]] + t[1..];
    assert multiset(s[1..]) == multiset(s) - multiset{s[0]};
  }

  lemma TailPrefix(s: seq<int>, w: nat, less: Compare)
    requires 0 < w && PrefixSmallest(s, w, less) && Sorted(s[..w], less)
    ensures PrefixSmallest(s[1..], w - 1, less) && Sorted(s[1..][..w - 1], less)
  {
    assert s[1..][..w - 1] == s[..w][1..];
  }

  lemma FirstSmallest(s: seq<int>, full: seq<int>, w: nat, less: Compare)
    requires TotalOrder(less) && multiset(s) == multiset(full) && Sorted(full, less) && 0 < w <= |s| == |full|
    requires PrefixSmallest(s, w, less) && Sorted(s[..w], less)
    ensures s[0] == full[0]
  {
    assert full[0] in multiset(s) && s[0] in multiset(full);
    var i :| 0 <= i < |s| && s[i] == full[0];
    var j :| 0 <= j < |full| && full[j] == s[0];
    if 0 < i < w { assert AtMost(less, s[..w][0], s[..w][i]); }
    assert Antisymmetric(less, s[0], full[0]);
  }

  // ---- In place ----

  /** Only the entries of [lo, hi) moved, among themselves. */
  ghost predicate Permuted(was: seq<int>, now: seq<int>, lo: nat, hi: nat) {
    && lo <= hi <= |was| == |now|
    && now[..lo] == was[..lo] && now[hi..] == was[hi..]
    && multiset(now[lo..hi]) == multiset(was[lo..hi])
  }

  lemma PermutedChains(a: seq<int>, b: seq<int>, c: seq<int>, lo: nat, hi: nat)
    requires Permuted(a, b, lo, hi) && Permuted(b, c, lo, hi)
    ensures Permuted(a, c, lo, hi)
  {
  }

  /** A permutation of a part is one of any larger part. */
  lemma PermutedWider(was: seq<int>, now: seq<int>, lo: nat, hi: nat, lo': nat, hi': nat)
    requires Permuted(was, now, lo, hi) && lo' <= lo && hi <= hi' <= |was|
    ensures Permuted(was, now, lo', hi')
  {
    assert was[..lo'] == was[..lo][..lo'] && now[..lo'] == now[..lo][..lo'];
    assert was[hi'..] == was[hi..][hi' - hi..] && now[hi'..] == now[hi..][hi' - hi..];
    Cut(was, lo', lo, hi, hi');
    Cut(now, lo', lo, hi, hi');
    assert was[lo'..lo] == was[..lo][lo'..] && now[lo'..lo] == now[..lo][lo'..];
    assert was[hi..hi'] == was[hi..][..hi' - hi] && now[hi..hi'] == now[hi..][..hi' - hi];
  }

  lemma Cut(s: seq<int>, a: nat, b: nat, c: nat, d: nat)
    requires a <= b <= c <= d <= |s|
    ensures s[a..d] == s[a..b] + s[b..c] + s[c..d]
  {
  }

  /** An entry of the moved part was in it before. */
  lemma MovedFrom(was: seq<int>, now: seq<int>, lo: nat, hi: nat, k: nat) returns (k': nat)
    requires Permuted(was, now, lo, hi) && lo <= k < hi
    ensures lo <= k' < hi && was[k'] == now[k]
  {
    assert now[lo..hi][k - lo] in multiset(now[lo..hi]);
    assert now[k] in was[lo..hi];
    var i :| 0 <= i < hi - lo && was[lo..hi][i] == now[k];
    k' := lo + i;
  }

  lemma Stayed(was: seq<int>, now: seq<int>, lo: nat, hi: nat, k: nat)
    requires Permuted(was, now, lo, hi) && k < |was| && (k < lo || hi <= k)
    ensures now[k] == was[k]
  {
    if k < lo {
      assert now[k] == now[..lo][k] == was[..lo][k];
    } else {
      assert now[k] == now[hi..][k - hi] == was[hi..][k - hi];
    }
  }

  /** Where an entry came from: itself outside the moved part, within it otherwise. */
  lemma CameFrom(was: seq<int>, now: seq<int>, lo: nat, hi: nat, k: nat) returns (k': nat)
    requires Permuted(was, now, lo, hi) && k < |was|
    ensures k' < |was| && was[k'] == now[k] && (if lo <= k < hi then lo <= k' < hi else k' == k)
  {
    if lo <= k < hi { k' := MovedFrom(was, now, lo, hi, k); } else { Stayed(was, now, lo, hi, k); k' := k; }
  }

  /** Moving entries on one side of a split leaves the split. */
  lemma SplitKept(was: seq<int>, now: seq<int>, lo: nat, hi: nat, at: nat, less: Compare)
    requires Permuted(was, now, lo, hi) && PrefixSmallest(was, at, less) && (at <= lo || hi <= at)
    ensures PrefixSmallest(now, at, less)
  {
    forall i, j | 0 <= i < at <= j < |now| ensures AtMost(less, now[i], now[j]) {
      var i' := CameFrom(was, now, lo, hi, i);
      var j' := CameFrom(was, now, lo, hi, j);
      assert i' < at <= j';
    }
  }

  method SortRange(order: array<int>, lo: nat, hi: nat, less: Compare)
    requires lo <= hi <= order.Length
    modifies order
    ensures Permuted(old(order[..]), order[..], lo, hi)
    ensures order[lo..hi] == StableSort(old(order[lo..hi]), less)
  {
    ghost var was := order[..];
    var s := StableSort(order[lo..hi], less);
    StableSortSize(order[lo..hi], less);
    Write(order, lo, s);
    Overwritten(was, order[..], lo, hi, s);
  }

  method Write(order: array<int>, lo: nat, s: seq<int>)
    requires lo + |s| <= order.Length
    modifies order
    ensures order[..] == old(order[..lo]) + s + old(order[lo + |s|..])
  {
    for k := 0 to |s|
      invariant forall i :: 0 <= i < order.Length ==> order[i] == if lo <= i < lo + k then s[i - lo] else old(order[i])
    {
      order[lo + k] := s[k];
    }
  }

  lemma Overwritten(was: seq<int>, now: seq<int>, lo: nat, hi: nat, s: seq<int>)
    requires lo <= hi <= |was| && |s| == hi - lo && now == was[..lo] + s + was[hi..]
    requires multiset(s) == multiset(was[lo..hi])
    ensures Permuted(was, now, lo, hi) && now[lo..hi] == s
  {
    assert now[lo..hi] == s;
  }

  method MedianOfThree(order: array<int>, a0: nat, b0: nat, c: nat, less: Compare) returns (m: nat)
    requires a0 < order.Length && b0 < order.Length && c < order.Length
    ensures m == a0 || m == b0 || m == c
  {
    var a, b := a0, b0;
    if less(order[b], order[a]) < 0 {
      a, b := b, a;
    }
    if less(order[c], order[b]) < 0 {
      b := c;
      if less(order[b], order[a]) < 0 {
        b := a;
      }
    }
    m := b;
  }

  method Swap(order: array<int>, i: nat, j: nat, ghost lo: nat, ghost hi: nat)
    requires lo <= i < hi <= order.Length && lo <= j < hi
    modifies order
    ensures order[..] == old(order[..])[i := old(order[j])][j := old(order[i])]
    ensures Permuted(old(order[..]), order[..], lo, hi)
  {
    ghost var was := order[..];
    order[i], order[j] := order[j], order[i];
    SwapPermutes(was, i, j, lo, hi);
  }

  lemma SwapPermutes(s: seq<int>, i: nat, j: nat, lo: nat, hi: nat)
    requires lo <= i < hi <= |s| && lo <= j < hi
    ensures Permuted(s, s[i := s[j]][j := s[i]], lo, hi)
  {
    var t, part := s[i := s[j]][j := s[i]], s[lo..hi];
    assert part[i - lo] == s[i] && part[j - lo] == s[j];
    SwapMultiset(part, i - lo, j - lo);
    assert t[lo..hi] == part[i - lo := part[j - lo]][j - lo := part[i - lo]];
    assert t[..lo] == s[..lo] && t[hi..] == s[hi..];
  }

  lemma SwapMultiset(s: seq<int>, i: nat, j: nat)
    requires i < |s| && j < |s|
    ensures multiset(s[i := s[j]][j := s[i]]) == multiset(s)
  {
  }

  /** The first entry of [i, j] not below the pivot. */
  method SkipBelow(order: array<int>, i0: nat, j: nat, pivot: int, less: Compare) returns (i: nat)
    requires j < order.Length
    ensures i0 <= i && (i <= j + 1 || i == i0)
    ensures forall k :: i0 <= k < i ==> AtMost(less, order[k], pivot)
    ensures i <= j ==> less(order[i], pivot) >= 0
  {
    i := i0;
    while i <= j && less(order[i], pivot) < 0
      invariant i0 <= i && (i <= j + 1 || i == i0)
      invariant forall k :: i0 <= k < i ==> AtMost(less, order[k], pivot)
    {
      i := i + 1;
    }
  }

  /** The last entry of [i, j] not above the pivot. */
  method SkipAbove(order: array<int>, i: nat, j0: nat, pivot: int, less: Compare) returns (j: nat)
    requires 0 < i && j0 < order.Length
    ensures j <= j0 && (i <= j + 1 || j == j0)
    ensures forall k :: j < k <= j0 ==> less(order[k], pivot) >= 0
    ensures i <= j ==> less(order[j], pivot) <= 0
  {
    j := j0;
    while i <= j && less(order[j], pivot) > 0
      invariant j <= j0 && (i <= j + 1 || j == j0)
      invariant forall k :: j < k <= j0 ==> less(order[k], pivot) >= 0
    {
      j := j - 1;
    }
  }

  /** The entries of a partition so far: not above the pivot, not below it. */
  ghost predicate Parted(s: seq<int>, lo: int, i: int, j: int, hi: int, less: Compare) {
    && 0 <= lo < i <= j + 2 && i <= hi <= |s| && lo <= j < hi
    && (forall k :: lo < k < i ==> AtMost(less, s[k], s[lo]))
    && (forall k :: j < k < hi ==> less(s[k], s[lo]) >= 0)
  }

  /** Hoare partitioning of [lo, hi) around its first entry. */
  method Partition(order: array<int>, lo: nat, hi: nat, less: Compare) returns (j: nat)
    requires lo + 1 < hi <= order.Length
    modifies order
    ensures lo <= j < hi && Permuted(old(order[..]), order[..], lo, hi)
    ensures TotalOrder(less) ==> Pivoted(order[..], lo, j, hi, less)
  {
    ghost var was := order[..];
    var i := lo + 1;
    j := hi - 1;
    var done := false;
    while !done
      invariant Permuted(was, order[..], lo, hi) && Parted(order[..], lo, i, j, hi, less) && (done ==> i > j)
      decreases !done, j + 2 - i
    {
      ghost var before := order[..];
      i, j, done := Pass(order, lo, i, j, hi, less);
      PermutedChains(was, before, order[..], lo, hi);
    }
    ghost var before := order[..];
    Swap(order, lo, j, lo, hi);
    PermutedChains(was, before, order[..], lo, hi);
    if TotalOrder(less) { PivotPlaced(before, order[..], lo, i, j, hi, less); }
  }

  /** Both inner loops, and the swap of the two entries they stop at. */
  method Pass(order: array<int>, lo: nat, i0: nat, j0: nat, hi: nat, less: Compare) returns (i: nat, j: nat, done: bool)
    requires hi <= order.Length && Parted(order[..], lo, i0, j0, hi, less)
    modifies order
    ensures Permuted(old(order[..]), order[..], lo, hi) && Parted(order[..], lo, i, j, hi, less)
    ensures if done then i > j else j - i < j0 - i0
  {
    var pivot := order[lo];
    i := SkipBelow(order, i0, j0, pivot, less);
    j := SkipAbove(order, i, j0, pivot, less);
    done := i > j;
    if !done {
      ghost var before := order[..];
      assert Parted(before, lo, i, j, hi, less);
      Swap(order, i, j, lo, hi);
      PartedSwap(before, order[..], lo, i, j, hi, less);
      i := i + 1;
      j := j - 1;
    }
  }

  lemma PartedSwap(before: seq<int>, after: seq<int>, lo: nat, i: nat, j: nat, hi: nat, less: Compare)
    requires Parted(before, lo, i, j, hi, less) && i <= j
    requires less(before[i], before[lo]) >= 0 && AtMost(less, before[j], before[lo])
    requires after == before[i := before[j]][j := before[i]]
    ensures Parted(after, lo, i + 1, j - 1, hi, less)
  {
  }

  /** Entry j separates [lo, hi). */
  ghost predicate Pivoted(s: seq<int>, lo: int, j: int, hi: int, less: Compare) {
    && 0 <= lo <= j < hi <= |s|
    && (forall k :: lo <= k < j ==> AtMost(less, s[k], s[j]))
    && (forall k :: j < k < hi ==> AtMost(less, s[j], s[k]))
  }

  lemma PivotPlaced(before: seq<int>, after: seq<int>, lo: nat, i: nat, j: nat, hi: nat, less: Compare)
    requires TotalOrder(less) && Parted(before, lo, i, j, hi, less) && i > j && hi <= |before|
    requires after == before[lo := before[j]][j := before[lo]]
    ensures Pivoted(after, lo, j, hi, less)
  {
    forall k | j < k < hi ensures AtMost(less, after[j], after[k]) {
      assert after[k] == before[k] && Antisymmetric(less, after[j], after[k]);
      assert Antisymmetric(less, after[k], after[j]);
    }
  }

  /** Where a pivoted range has both its ends split off, so are the pivot's two sides. */
  lemma PivotSplits(s: seq<int>, lo: nat, j: nat, hi: nat, less: Compare)
    requires TotalOrder(less) && Pivoted(s, lo, j, hi, less)
    requires PrefixSmallest(s, lo, less) && PrefixSmallest(s, hi, less)
    ensures PrefixSmallest(s, j, less) && PrefixSmallest(s, j + 1, less)
  {
    forall i, k | 0 <= i < |s| && 0 <= k < |s| && i <= j <= k && i != k ensures AtMost(less, s[i], s[k]) {
      if lo <= i && k < hi { assert Transitive(less, s[i], s[j], s[k]); }
    }
  }

  /** Within a sorted range whose ends are split off, every point is a split. */
  lemma SortedSplits(s: seq<int>, lo: nat, w: nat, hi: nat, less: Compare)
    requires lo <= w <= hi <= |s| && Sorted(s[lo..hi], less)
    requires PrefixSmallest(s, lo, less) && PrefixSmallest(s, hi, less)
    ensures PrefixSmallest(s, w, less)
  {
    forall i, k | 0 <= i < w <= k < |s| ensures AtMost(less, s[i], s[k]) {
      if lo <= i && k < hi { assert AtMost(less, s[lo..hi][i - lo], s[lo..hi][k - lo]); }
    }
  }

  /** The length of a number in bits. */
  function BitLength(n: nat): nat { if n == 0 then 0 else 1 + BitLength(n / 2) }

  /** The splits a selection keeps at both ends of the range it still works on. */
  ghost predicate Narrowed(was: seq<int>, s: seq<int>, lo: nat, hi: nat, less: Compare) {
    && lo <= hi <= |s| && Permuted(was, s, 0, |was|)
    && (TotalOrder(less) ==> PrefixSmallest(s, lo, less) && PrefixSmallest(s, hi, less))
  }

  lemma NarrowedKept(was: seq<int>, s: seq<int>, s': seq<int>, lo: nat, hi: nat, less: Compare)
    requires Narrowed(was, s, lo, hi, less) && Permuted(s, s', lo, hi)
    ensures Narrowed(was, s', lo, hi, less)
  {
    PermutedWider(s, s', lo, hi, 0, |s|);
    PermutedChains(was, s, s', 0, |was|);
    if TotalOrder(less) {
      SplitKept(s, s', lo, hi, lo, less);
      SplitKept(s, s', lo, hi, hi, less);
    }
  }

  method SortRest(order: array<int>, ghost was: seq<int>, lo: nat, w: nat, hi: nat, less: Compare)
    requires Narrowed(was, order[..], lo, hi, less) && lo <= w <= hi
    modifies order
    ensures Permuted(was, order[..], 0, |was|)
    ensures TotalOrder(less) ==> PrefixSmallest(order[..], w, less)
  {
    ghost var before := order[..];
    assert before[lo..hi] == order[lo..hi];
    SortRange(order, lo, hi, less);
    NarrowedKept(was, before, order[..], lo, hi, less);
    if TotalOrder(less) {
      StableSortSorts(before[lo..hi], less);
      assert order[..][lo..hi] == order[lo..hi];
      SortedSplits(order[..], lo, w, hi, less);
    }
  }

  /** One round: pick a pivot and split the range around it. */
  method Split(order: array<int>, ghost was: seq<int>, lo: nat, hi: nat, less: Compare) returns (j: nat)
    requires lo + 1 < hi && Narrowed(was, order[..], lo, hi, less)
    modifies order
    ensures lo <= j < hi && Narrowed(was, order[..], lo, j, less) && Narrowed(was, order[..], j + 1, hi, less)
  {
    ghost var s0 := order[..];
    var mid := MedianOfThree(order, lo, lo + (hi - lo) / 2, hi - 1, less);
    Swap(order, lo, mid, lo, hi);
    ghost var s1 := order[..];
    j := Partition(order, lo, hi, less);
    PermutedChains(s0, s1, order[..], lo, hi);
    NarrowedKept(was, s0, order[..], lo, hi, less);
    if TotalOrder(less) { PivotSplits(order[..], lo, j, hi, less); }
  }

  /** Quickselect: whatever the comparison, entries are only rearranged and it stops;
      under a total order the w smallest come first, also when the pivots go so badly
      that the rest is sorted outright. */
  method SelectPrefix(order: array<int>, w: nat, less: Compare)
    requires 0 < w < order.Length
    modifies order
    ensures Permuted(old(order[..]), order[..], 0, order.Length)
    ensures TotalOrder(less) ==> PrefixSmallest(order[..], w, less)
  {
    ghost var was := order[..];
    var budget := 2 * BitLength(order.Length);
    var lo, hi := 0, order.Length;
    while hi - lo > 12
      invariant lo < w <= hi && Narrowed(was, order[..], lo, hi, less)
    {
      if budget == 0 {
        SortRest(order, was, lo, w, hi, less);
        return;
      }
      budget := budget - 1;
      var j := Split(order, was, lo, hi, less);
      if w <= j {
        hi := j;
      } else if w == j + 1 {
        return;
      } else {
        lo := j + 1;
      }
    }
    SortRest(order, was, lo, w, hi, less);
  }

  /** Ordering the window: every position it holds is what a full stable sort would
      have put there. */
  method SortWindow(order: array<int>, window: nat, less: Compare)
    modifies order
    ensures multiset(order[..]) == multiset(old(order[..]))
    ensures TotalOrder(less) ==> var w := if 0 < window < order.Length then window else order.Length;
      |StableSort(old(order[..]), less)| == order.Length && order[..w] == StableSort(old(order[..]), less)[..w]
  {
    ghost var was := order[..];
    StableSortSize(was, less);
    if 0 < window < order.Length {
      SelectPrefix(order, window, less);
      ghost var selected := order[..];
      assert selected[..window] == order[0..window];
      SortRange(order, 0, window, less);
      WindowSorted(was, selected, order[..], window, less);
    } else {
      assert order[0..order.Length] == order[..];
      SortRange(order, 0, order.Length, less);
      assert order[0..order.Length] == order[..];
    }
  }

  lemma WindowSorted(was: seq<int>, selected: seq<int>, now: seq<int>, w: nat, less: Compare)
    requires Permuted(was, selected, 0, |was|) && Permuted(selected, now, 0, w)
    requires now[0..w] == StableSort(selected[0..w], less)
    requires TotalOrder(less) ==> PrefixSmallest(selected, w, less)
    ensures multiset(now) == multiset(was)
    ensures TotalOrder(less) ==> |StableSort(was, less)| == |now| && now[..w] == StableSort(was, less)[..w]
  {
    PermutedWider(selected, now, 0, w, 0, |was|);
    PermutedChains(was, selected, now, 0, |was|);
    assert now[0..|was|] == now && was[0..|was|] == was;
    if TotalOrder(less) {
      SplitKept(selected, now, 0, w, w, less);
      StableSortSorts(selected[0..w], less);
      assert now[..w] == now[0..w];
      StableSortSorts(was, less);
      PrefixIsSorted(now, StableSort(was, less), w, less);
    }
  }
}
