/** The quicksort driver. Small segments are sorted by a window that may reach past the segment's end;
    the sort is right because every cut "left side at most right side" survives such a window. */
module Quicksort {
  import opened PowersOfTwo
  import opened Rearranging
  import opened SmallSorts
  import opened BlockPartition

  const MAX_RECURSION_DEPTH: nat := 64
  const COMPUTE_LEEWAY_MULTIPLIER: nat := 8
  const TWO64: nat := 0x1_0000_0000_0000_0000

  // ----- cuts -----

  predicate AtMost(s: seq<int>, i: int, j: int)
    requires 0 <= i < |s| && 0 <= j < |s|
  {
    s[i] <= s[j]
  }

  /** Everything before `c` is at most everything from `c` on. */
  ghost predicate Cut(s: seq<int>, c: int)
  {
    0 <= c <= |s| && forall i, j :: 0 <= i < c <= j < |s| ==> AtMost(s, i, j)
  }

  /** From `s` to `t` nothing before `lo` moved, and every cut at `hi` or later is still a cut with the same values
      on either side. */
  ghost predicate CutsKept(s: seq<int>, t: seq<int>, lo: int, hi: int)
  {
    && |s| == |t|
    && Perm(s, t)
    && (forall k :: 0 <= k < lo && k < |s| ==> s[k] == t[k])
    && (forall c :: 0 <= hi <= c <= |s| && Cut(s, c) ==> Cut(t, c) && Perm(s[..c], t[..c]))
  }

  lemma CutsKeptThen(s: seq<int>, t: seq<int>, u: seq<int>, lo: nat, hi: nat, lo': nat, hi': nat)
    requires CutsKept(s, t, lo, hi) && CutsKept(t, u, lo', hi')
    requires lo <= lo' && hi' <= hi
    ensures CutsKept(s, u, lo, hi)
  {}

  /** If both sides of a cut keep their values, it stays a cut. */
  lemma SidesKeepCut(s: seq<int>, t: seq<int>, c: nat)
    requires Cut(s, c) && |s| == |t| && Perm(s[..c], t[..c]) && Perm(s, t)
    ensures Cut(t, c)
  {
    forall i, j | 0 <= i < c <= j < |t| ensures t[i] <= t[j] {
      forall v ensures Count(s[c..], v) == Count(t[c..], v) {
        CountSplit(s, 0, c, v);
        CountSplit(t, 0, c, v);
        assert s[0..c] == s[..c] && t[0..c] == t[..c];
      }
      assert t[i] == t[..c][i] && t[j] == t[c..][j - c];
      CountMember(t[..c], t[i]);
      CountMember(s[..c], t[i]);
      CountMember(t[c..], t[j]);
      CountMember(s[c..], t[j]);
      var i' :| 0 <= i' < c && s[..c][i'] == t[i];
      var j' :| 0 <= j' < |s| - c && s[c..][j'] == t[j];
      assert AtMost(s, i', c + j');
    }
  }

  /** A cut at the start of what was rearranged stays a cut. */
  lemma CutAtStart(s: seq<int>, t: seq<int>, lo: nat, hi: nat)
    requires CutsKept(s, t, lo, hi) && Cut(s, lo)
    ensures Cut(t, lo)
  {
    assert s[..lo] == t[..lo];
    SidesKeepCut(s, t, lo);
  }

  /** Rearranging a stretch keeps every cut at its end or later. */
  lemma RearrangedKeepsCuts(s: seq<int>, t: seq<int>, lo: nat, hi: nat)
    requires lo <= hi <= |s| && Rearranged(s, t, lo, hi)
    ensures CutsKept(s, t, lo, hi)
  {
    forall c | hi <= c <= |s| && Cut(s, c) ensures Cut(t, c) && Perm(s[..c], t[..c]) {
      PrefixPerm(s, t, c);
      SidesKeepCut(s, t, c);
    }
  }

  lemma PrefixPerm(s: seq<int>, t: seq<int>, c: nat)
    requires |s| == |t| && c <= |s| && Perm(s, t) && s[c..] == t[c..]
    ensures Perm(s[..c], t[..c])
  {
    forall v ensures Count(s[..c], v) == Count(t[..c], v) {
      CountSplit(s, 0, c, v);
      CountSplit(t, 0, c, v);
      assert s[0..c] == s[..c] && t[0..c] == t[..c];
    }
  }

  /** Two sorted sequences of which no value of the first exceeds one of the second. */
  lemma SortedAcrossCut(s: seq<int>, x: seq<int>, y: seq<int>, lo: nat, e: nat, c: nat)
    requires lo <= c <= e <= |s| && Cut(s, c) && Perm(x, s[lo..c]) && Perm(y, s[c..e])
    ensures forall i, j :: 0 <= i < |x| && 0 <= j < |y| ==> x[i] <= y[j]
  {
    forall i, j | 0 <= i < |x| && 0 <= j < |y| ensures x[i] <= y[j] {
      CountMember(x, x[i]);
      CountMember(s[lo..c], x[i]);
      CountMember(y, y[j]);
      CountMember(s[c..e], y[j]);
      var i' :| 0 <= i' < c - lo && s[lo..c][i'] == x[i];
      var j' :| 0 <= j' < e - c && s[c..e][j'] == y[j];
      assert s[lo + i'] == x[i] && s[c + j'] == y[j] && AtMost(s, lo + i', c + j');
    }
  }

  lemma StretchPrefix(t: seq<int>, lo: nat, e: nat, c: nat, x: seq<int>, y: seq<int>)
    requires lo <= c <= e <= |t| && t[lo..e] == x + y && |x| == c - lo
    ensures t[lo..c] == x
  {
    assert t[lo..c] == t[lo..e][..c - lo];
    assert (x + y)[..|x|] == x;
  }

  /** Sorting a window across a cut leaves the values on either side of the cut where they were. */
  lemma SortedWindowSides(s: seq<int>, t: seq<int>, lo: nat, e: nat, c: nat)
    requires lo <= c <= e <= |s| && Rearranged(s, t, lo, e) && SortedOn(t, lo, e)
    requires Cut(s, c)
    ensures Perm(s[lo..c], t[lo..c])
  {
    var x, y := TemplateSort(s[lo..c]), TemplateSort(s[c..e]);
    TemplateSortSorts(s[lo..c]);
    TemplateSortSorts(s[c..e]);
    SortedAcrossCut(s, x, y, lo, e, c);
    assert s[lo..e] == s[lo..c] + s[c..e];
    RearrangedStretch(s, t, lo, e);
    forall v ensures Count(x + y, v) == Count(t[lo..e], v) {
      CountAppend(x, y, v);
      CountAppend(s[lo..c], s[c..e], v);
    }
    SortedUnique(x + y, t[lo..e]);
    StretchPrefix(t, lo, e, c, x, y);
  }

  lemma SortedWindowKeepsCuts(s: seq<int>, t: seq<int>, lo: nat, hi: nat, e: nat)
    requires lo <= hi <= e <= |s| && Rearranged(s, t, lo, e) && SortedOn(t, lo, e)
    ensures CutsKept(s, t, lo, hi)
  {
    RearrangedKeepsCuts(s, t, lo, e);
    forall c | hi <= c < e && Cut(s, c) ensures Cut(t, c) && Perm(s[..c], t[..c]) {
      SortedWindowSides(s, t, lo, e, c);
      assert s[..c] == s[..lo] + s[lo..c] && t[..c] == t[..lo] + t[lo..c];
      assert s[..lo] == t[..lo];
      forall v ensures Count(s[..c], v) == Count(t[..c], v) {
        CountAppend(s[..lo], s[lo..c], v);
        CountAppend(t[..lo], t[lo..c], v);
      }
      SidesKeepCut(s, t, c);
    }
  }

  /** A partition inside two cuts cuts on both sides of the pivot. */
  lemma SplitCuts(s: seq<int>, t: seq<int>, first: nat, last: nat, p: nat)
    requires first <= last <= |s| && Rearranged(s, t, first, last) && Split(t, first, last, p)
    requires Cut(s, first) && Cut(s, last)
    ensures CutsKept(s, t, first, last)
    ensures Cut(t, first) && Cut(t, p) && Cut(t, p + 1) && Cut(t, last)
  {
    RearrangedKeepsCuts(s, t, first, last);
    CutAtStart(s, t, first, last);
  }

  /** The left half, the pivot and the right half make one sorted stretch. */
  lemma JoinSorted(s: seq<int>, t: seq<int>, first: nat, last: nat, p: nat)
    requires first <= p < last <= |s|
    requires SortedOn(s, first, p) && Cut(s, p) && Cut(s, p + 1)
    requires CutsKept(s, t, p + 1, last) && SortedOn(t, p + 1, last)
    ensures SortedOn(t, first, last)
  {
    CutAtStart(s, t, p + 1, last);
    forall i, j | first <= i < j < last ensures t[i] <= t[j] {
      assert i <= p < j ==> AtMost(t, i, j);
      assert i < p == j ==> AtMost(s, i, j);
      if j <= p {
        assert t[i] == s[i] && t[j] == s[j];
      } else if i <= p {
        assert t[i] <= t[j];
      }
    }
  }

  // ----- the driver -----

  function Flops(sz: nat, rounds: nat): nat { sz * rounds }

  // ----- the recursion and what it costs -----

  /** What a sort did: a small segment sorted directly, one left to `std::sort`, or a partition and both sides. */
  datatype Tree = Direct(sz: nat) | Fallback(sz: nat) | Parted(sz: nat, left: Tree, right: Tree)

  /** Addition of 64-bit counters. */
  function Add64(x: nat, y: nat): nat { Wrapped(x + y) }

  function Wrapped(x: nat): (r: nat)
    ensures x < TWO64 ==> r == x
  {
    if x < TWO64 then x else Wrapped(x - TWO64)
  }

  lemma {:induction false} WrappedIsMod(x: nat)
    ensures Wrapped(x) == x % TWO64
  {
    if x >= TWO64 {
      WrappedIsMod(x - TWO64);
    }
  }

  /** What is charged for it, in 64 bits. */
  function Charge(t: Tree): nat
  {
    match t
    case Direct(sz) => Flops(sz, sz)
    case Fallback(sz) => Flops(sz, ULog2(Ceil2(sz)))
    case Parted(sz, l, r) => Add64(Add64(sz, Charge(l)), Charge(r))
  }

  /** Every segment was treated as it should be: sorted directly exactly when it is small, left to `std::sort` exactly when it is
      not and the budget is spent or the recursion as deep as it may be, and else partitioned. */
  ghost predicate Follows(t: Tree, flops: nat, maxFlops: nat, depth: nat)
  {
    match t
    case Direct(sz) => sz <= MAX_SORTING_SIZE
    case Fallback(sz) => sz > MAX_SORTING_SIZE && (flops > maxFlops || depth >= MAX_RECURSION_DEPTH)
    case Parted(sz, l, r) =>
      && sz > MAX_SORTING_SIZE && flops <= maxFlops && depth < MAX_RECURSION_DEPTH && l.sz + r.sz + 1 == sz
      && Follows(l, Add64(flops, sz), maxFlops, depth + 1)
      && Follows(r, Add64(flops, Add64(sz, Charge(l))), maxFlops, depth + 1)
  }

  /** What is charged when no counter wraps. */
  function Work(t: Tree): nat
  {
    match t
    case Direct(sz) => Flops(sz, sz)
    case Fallback(sz) => Flops(sz, ULog2(Ceil2(sz)))
    case Parted(sz, l, r) => sz + Work(l) + Work(r)
  }

  predicate FallsBack(t: Tree)
  {
    t.Fallback? || (t.Parted? && (FallsBack(t.left) || FallsBack(t.right)))
  }

  function Height(t: Tree): nat
  {
    if t.Parted? then 1 + Greater(Height(t.left), Height(t.right)) else 0
  }

  function Greater(x: nat, y: nat): nat { if x < y then y else x }

  /** The most that is charged for an element in a segment that is not partitioned any more. */
  function Share(n: nat): nat { Greater(MAX_SORTING_SIZE, ULog2(Ceil2(n))) }

  /** What `sz` elements may charge there. */
  function Leaves(sz: nat, k: nat): nat
  {
    if sz == 0 then 0 else Leaves(sz - 1, k) + k
  }

  lemma {:induction false} LeavesAre(sz: nat, k: nat)
    ensures Leaves(sz, k) == sz * k
  {
    if sz > 0 {
      LeavesAre(sz - 1, k);
    }
  }

  lemma {:induction false} LeavesAddUp(x: nat, y: nat, k: nat)
    ensures Leaves(x + y, k) == Leaves(x, k) + Leaves(y, k)
  {
    if y > 0 {
      LeavesAddUp(x, y - 1, k);
    }
  }

  lemma ShareCovers(sz: nat, n: nat)
    requires sz <= n
    ensures sz <= MAX_SORTING_SIZE ==> sz <= Flops(sz, sz) <= Leaves(sz, Share(n))
    ensures sz > 1 ==> sz <= Flops(sz, ULog2(Ceil2(sz))) <= Leaves(sz, Share(n))
  {
    LogMonotone(sz, n);
    LeavesAre(sz, Share(n));
    if sz <= MAX_SORTING_SIZE {
      Charged(sz, sz, Share(n));
    }
    if sz > 1 {
      LogBelow(2, Ceil2(sz));
      Charged(sz, ULog2(Ceil2(sz)), Share(n));
    }
  }

  lemma Charged(sz: nat, rounds: nat, k: nat)
    requires rounds <= k
    ensures Flops(sz, rounds) <= sz * k && (rounds > 0 ==> sz <= Flops(sz, rounds)) && (sz == 0 ==> Flops(sz, rounds) == 0)
  {}

  lemma LogMonotone(x: nat, y: nat)
    requires x <= y
    ensures ULog2(Ceil2(x)) <= ULog2(Ceil2(y))
  {
    Ceil2Least(x, Ceil2(y));
    LogBelow(Ceil2(x), Ceil2(y));
  }

  lemma LogBelow(x: nat, y: nat)
    requires 0 < x <= y
    ensures ULog2(x) <= ULog2(y)
  {
    var a, b := ULog2(x), ULog2(y);
    if b < a {
      Pow2Monotone(b + 1, a);
    }
  }

  /** Where the count can stand without the leaves to come, once it stood at `before`. */
  function Ceiling(before: nat, maxFlops: nat, n: nat): nat { if before > maxFlops then before else maxFlops + n }

  /** The count where the left side begins; the products are given. */
  lemma LeftFits(before: nat, sz: nat, n: nat, maxFlops: nat, all: nat, outLeft: nat)
    requires maxFlops + n + all < TWO64 && before <= maxFlops && sz <= n
    ensures before + sz <= maxFlops + n + outLeft && Add64(before, sz) == before + sz
  {}

  /** The count where the right side begins. */
  lemma RightFits(before: nat, sz: nat, n: nat, maxFlops: nat, leftWork: nat, all: nat, l: nat, r: nat, outRight: nat)
    requires maxFlops + n + all < TWO64 && before <= maxFlops && sz <= n && all == outRight + r && l + r <= all
    requires before + sz + leftWork <= Ceiling(before + sz, maxFlops, n) + l
    ensures before + sz + leftWork <= maxFlops + n + outRight
    ensures Add64(sz, leftWork) == sz + leftWork && Add64(before, Add64(sz, leftWork)) == before + sz + leftWork
  {}

  lemma SidesSum(before: nat, sz: nat, n: nat, maxFlops: nat, leftWork: nat, rightWork: nat, all: nat, l: nat, r: nat, k: nat)
    requires maxFlops + n + all < TWO64 && before <= maxFlops && sz <= n && l + r + k <= all
    requires before + sz + leftWork <= Ceiling(before + sz, maxFlops, n) + l
    requires before + sz + leftWork + rightWork <= Ceiling(before + sz + leftWork, maxFlops, n) + r
    ensures before + (sz + leftWork + rightWork) <= Ceiling(before, maxFlops, n) + (l + r + k)
    ensures Add64(Add64(sz, leftWork), rightWork) == sz + leftWork + rightWork
  {}

  lemma SharesAddUp(sz: nat, left: nat, right: nat, n: nat, k: nat)
    requires left + right + 1 == sz <= n
    ensures Leaves(sz, k) == Leaves(left, k) + Leaves(right, k) + k <= Leaves(n, k)
    ensures Leaves(n - left, k) + Leaves(left, k) == Leaves(n, k) && Leaves(n - right, k) + Leaves(right, k) == Leaves(n, k)
  {
    LeavesAddUp(left, right, k);
    LeavesAddUp(n - sz, sz, k);
    LeavesAddUp(n - left, left, k);
    LeavesAddUp(n - right, right, k);
  }

  /** Where the count of a run that has not wrapped stands: `maxFlops` may be charged for partitions, and the leaves. */
  ghost predicate Counting(before: nat, sz: nat, maxFlops: nat, n: nat, k: nat)
  {
    sz <= n && maxFlops + n + Leaves(n, k) < TWO64 && before <= maxFlops + n + Leaves(n - sz, k)
  }

  ghost predicate Bounded(t: Tree, before: nat, maxFlops: nat, depth: nat, n: nat, k: nat)
  {
    && Charge(t) == Work(t) >= t.sz && before + Work(t) <= Ceiling(before, maxFlops, n) + Leaves(t.sz, k)
    && (FallsBack(t) ==> before + Work(t) > maxFlops || depth + Height(t) >= MAX_RECURSION_DEPTH)
  }

  lemma LeftCounting(sz: nat, l: Tree, r: Tree, before: nat, atLeft: nat, maxFlops: nat, depth: nat, n: nat, k: nat)
    requires Follows(Parted(sz, l, r), before, maxFlops, depth) && Counting(before, sz, maxFlops, n, k) && atLeft == before + sz
    ensures Counting(atLeft, l.sz, maxFlops, n, k) && Follows(l, atLeft, maxFlops, depth + 1)
  {
    LeftFits(before, sz, n, maxFlops, Leaves(n, k), Leaves(n - l.sz, k));
  }

  lemma RightCounting(sz: nat, l: Tree, r: Tree, before: nat, atLeft: nat, atRight: nat, maxFlops: nat, depth: nat, n: nat, k: nat)
    requires Follows(Parted(sz, l, r), before, maxFlops, depth) && Counting(before, sz, maxFlops, n, k)
    requires atLeft == before + sz && atRight == atLeft + Work(l) && Bounded(l, atLeft, maxFlops, depth + 1, n, k)
    ensures Counting(atRight, r.sz, maxFlops, n, k) && Follows(r, atRight, maxFlops, depth + 1)
  {
    SharesAddUp(sz, l.sz, r.sz, n, k);
    RightFits(before, sz, n, maxFlops, Work(l), Leaves(n, k), Leaves(l.sz, k), Leaves(r.sz, k), Leaves(n - r.sz, k));
  }

  lemma PartedIsBounded(sz: nat, l: Tree, r: Tree, before: nat, maxFlops: nat, depth: nat, n: nat, k: nat)
    requires Follows(Parted(sz, l, r), before, maxFlops, depth) && Counting(before, sz, maxFlops, n, k)
    requires Bounded(l, before + sz, maxFlops, depth + 1, n, k)
    requires Bounded(r, before + sz + Work(l), maxFlops, depth + 1, n, k)
    ensures Bounded(Parted(sz, l, r), before, maxFlops, depth, n, k)
  {
    SharesAddUp(sz, l.sz, r.sz, n, k);
    SidesSum(before, sz, n, maxFlops, Work(l), Work(r), Leaves(n, k), Leaves(l.sz, k), Leaves(r.sz, k), k);
  }

  lemma LeafIsBounded(t: Tree, before: nat, maxFlops: nat, depth: nat, n: nat)
    requires !t.Parted? && Follows(t, before, maxFlops, depth) && t.sz <= n
    ensures Bounded(t, before, maxFlops, depth, n, Share(n))
  {
    ShareCovers(t.sz, n);
  }

  /** The counter does not wrap, and the sort keeps within the budget, one partition that exceeds it, and the leaves, as long as
      it began within that; `std::sort` was used only with the budget spent or at the greatest depth. */
  lemma {:induction false} WorkIsBounded(t: Tree, before: nat, maxFlops: nat, depth: nat, n: nat)
    requires Follows(t, before, maxFlops, depth) && Counting(before, t.sz, maxFlops, n, Share(n))
    ensures Bounded(t, before, maxFlops, depth, n, Share(n))
    decreases t, 1
  {
    if t.Parted? {
      PartsAreBounded(t.sz, t.left, t.right, before, before + t.sz, before + t.sz + Work(t.left), maxFlops, depth, n, Share(n));
      PartedIsBounded(t.sz, t.left, t.right, before, maxFlops, depth, n, Share(n));
    } else {
      LeafIsBounded(t, before, maxFlops, depth, n);
    }
  }

  lemma {:induction false} PartsAreBounded(sz: nat, l: Tree, r: Tree, before: nat, atLeft: nat, atRight: nat, maxFlops: nat, depth: nat,
                                           n: nat, k: nat)
    requires Follows(Parted(sz, l, r), before, maxFlops, depth) && Counting(before, sz, maxFlops, n, k)
    requires atLeft == before + sz && atRight == atLeft + Work(l) && k == Share(n)
    ensures Bounded(l, atLeft, maxFlops, depth + 1, n, k) && Bounded(r, atRight, maxFlops, depth + 1, n, k)
    decreases Parted(sz, l, r), 0
  {
    LeftCounting(sz, l, r, before, atLeft, maxFlops, depth, n, k);
    WorkIsBounded(l, atLeft, maxFlops, depth + 1, n);
    RightCounting(sz, l, r, before, atLeft, atRight, maxFlops, depth, n, k);
    WorkIsBounded(r, atRight, maxFlops, depth + 1, n);
  }

  /** `a` stands for the whole range handed to `Quicksort`; the segment is `[first, last)`. */
  method BaseQuicksort(a: array<int>, first: nat, last: nat, inclLastBoundlessable: int,
                       flops: nat, maxFlops: nat, stackIdx: nat)
    returns (cost: nat, ghost t: Tree)
    requires first <= last <= a.Length
    requires inclLastBoundlessable + SLIDING_WINDOW_SZ <= a.Length
    requires stackIdx <= MAX_RECURSION_DEPTH
    requires Cut(a[..], first) && Cut(a[..], last)
    modifies a
    ensures SortedOn(a[..], first, last)
    ensures CutsKept(old(a[..]), a[..], first, last)
    ensures t.sz == last - first && cost == Charge(t) && Follows(t, flops, maxFlops, stackIdx)
    decreases last - first, 1
  {
    var sz: nat := last - first;
    if sz <= MAX_SORTING_SIZE {
      SortSmall(a, first, last, inclLastBoundlessable);
      return Flops(sz, sz), Direct(sz);
    }
    if flops > maxFlops || stackIdx >= MAX_RECURSION_DEPTH {
      // std::sort, by its specification
      TemplateSortArr(a, first, sz);
      RearrangedKeepsCuts(old(a[..]), a[..], first, last);
      return Flops(sz, ULog2(Ceil2(sz))), Fallback(sz);
    }
    cost, t := SortParts(a, first, last, inclLastBoundlessable, flops, maxFlops, stackIdx);
  }

  /** A partition and both sides. */
  method SortParts(a: array<int>, first: nat, last: nat, inclLastBoundlessable: int,
                   flops: nat, maxFlops: nat, stackIdx: nat)
    returns (cost: nat, ghost t: Tree)
    requires first <= last <= a.Length && last - first > MAX_SORTING_SIZE
    requires inclLastBoundlessable + SLIDING_WINDOW_SZ <= a.Length
    requires flops <= maxFlops && stackIdx < MAX_RECURSION_DEPTH
    requires Cut(a[..], first) && Cut(a[..], last)
    modifies a
    ensures SortedOn(a[..], first, last)
    ensures CutsKept(old(a[..]), a[..], first, last)
    ensures t.sz == last - first && cost == Charge(t) && Follows(t, flops, maxFlops, stackIdx)
    decreases last - first, 0
  {
    var pivotPtr := MedianPartition(a, first, last);
    cost := last - first;
    ghost var split := a[..];
    var left, l := BaseQuicksort(a, first, pivotPtr, inclLastBoundlessable, Add64(flops, cost), maxFlops, stackIdx + 1);
    cost := Add64(cost, left);
    ghost var half := a[..];
    CutsKeptThen(old(a[..]), split, half, first, last, first, pivotPtr);
    var right, r := BaseQuicksort(a, pivotPtr + 1, last, inclLastBoundlessable, Add64(flops, cost), maxFlops, stackIdx + 1);
    cost := Add64(cost, right);
    CutsKeptThen(old(a[..]), half, a[..], first, last, pivotPtr + 1, last);
    JoinSorted(half, a[..], first, last, pivotPtr);
    t := Parted(last - first, l, r);
  }

  method SortSmall(a: array<int>, first: nat, last: nat, inclLastBoundlessable: int)
    requires first <= last <= a.Length && last - first <= MAX_SORTING_SIZE
    requires inclLastBoundlessable + SLIDING_WINDOW_SZ <= a.Length
    modifies a
    ensures SortedOn(a[..], first, last)
    ensures CutsKept(old(a[..]), a[..], first, last)
  {
    var boundlessDistance := inclLastBoundlessable - last;
    if boundlessDistance >= 0 {
      BoundlessInsertionSort(a, first, last);
      SortedWindowKeepsCuts(old(a[..]), a[..], first, last, Max(last, first + SLIDING_WINDOW_SZ));
    } else {
      InsertionSort2(a, first, last);
      RearrangedKeepsCuts(old(a[..]), a[..], first, last);
    }
  }

  const PIVOT_CAND_SZ: nat := 3

  /** Sorts the three middle elements and partitions around the middle one. */
  method MedianPartition(a: array<int>, first: nat, last: nat) returns (p: nat)
    requires first <= last <= a.Length && last - first > MAX_SORTING_SIZE
    requires Cut(a[..], first) && Cut(a[..], last)
    modifies a
    ensures first <= p < last
    ensures CutsKept(old(a[..]), a[..], first, last)
    ensures Cut(a[..], first) && Cut(a[..], p) && Cut(a[..], p + 1) && Cut(a[..], last)
  {
    var midPtr := first + (last - first) / 2;
    var previousMidPtr := midPtr - 1;
    TemplateSortArr(a, previousMidPtr, PIVOT_CAND_SZ);
    p := PivotPartition(a, first, last, midPtr);
    SplitCuts(old(a[..]), a[..], first, last, p);
  }

  /** The compute budget of a sort of `n` elements. */
  function Budget(n: nat): nat { Flops(n, ULog2(Ceil2(n))) * COMPUTE_LEEWAY_MULTIPLIER }

  /** The array gets sorted, and `t` is how: for an array as large as a sliding window, each segment was treated as it should be. */
  method Quicksort(a: array<int>) returns (ghost t: Tree)
    modifies a
    ensures Sorted(a[..])
    ensures multiset(a[..]) == multiset(old(a[..]))
    ensures t.sz == a.Length && (a.Length < SLIDING_WINDOW_SZ ==> t.Direct?)
    ensures Follows(t, 0, Wrapped(Budget(a.Length)), 0)
  {
    var sz := a.Length;
    if sz < SLIDING_WINDOW_SZ {
      InsertionSort1(a, 0, sz);
      t := Direct(sz);
    } else {
      var computeSz := Wrapped(Budget(sz));
      var inclLastBoundlessable := sz - SLIDING_WINDOW_SZ;
      var cost;
      cost, t := BaseQuicksort(a, 0, sz, inclLastBoundlessable, 0, computeSz, 0);
    }
    PermIsMultisetEquality(old(a[..]), a[..]);
  }

  /** So a sort of `n` elements costs at most the budget, which is eight times n log n, one partition more, and n times the share
      of an element in the leaves, as long as that fits the counters; and it does not fall back on `std::sort` before it has
      spent the budget or recursed as deep as it may. */
  lemma SortIsBounded(t: Tree)
    requires Follows(t, 0, Wrapped(Budget(t.sz)), 0) && Budget(t.sz) + t.sz + Leaves(t.sz, Share(t.sz)) < TWO64
    ensures Charge(t) == Work(t) <= Budget(t.sz) + t.sz + Leaves(t.sz, Share(t.sz)) && Work(t) >= t.sz
    ensures FallsBack(t) ==> Work(t) > Budget(t.sz) || Height(t) >= MAX_RECURSION_DEPTH
  {
    WorkIsBounded(t, 0, Budget(t.sz), 0, t.sz);
  }
}
