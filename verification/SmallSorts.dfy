/** The branch-free fixed-size sort and the insertion sorts built from it. */
module SmallSorts {
  import opened Rearranging

  function Min(x: int, y: int): int { if y < x then y else x }

  function Max(x: int, y: int): int { if x < y then y else x }

  // ----- the fixed-size sort -----

  /** `insertion_sort(callback, x, s...)`: carry `x` through `s`, leaving the smaller value at each place. */
  function Insert(x: int, s: seq<int>): (r: seq<int>)
    ensures |r| == |s| + 1
    decreases |s|
  {
    if s == [] then [x] else [Min(x, s[0])] + Insert(Max(x, s[0]), s[1..])
  }

  /** `template_sort(callback, s...)`: sort all but the first value, then insert the first. */
  function TemplateSort(s: seq<int>): (r: seq<int>)
    ensures |r| == |s|
  {
    if |s| <= 1 then s else Insert(s[0], TemplateSort(s[1..]))
  }

  lemma {:induction false} InsertCounts(x: int, s: seq<int>, v: int)
    ensures Count(Insert(x, s), v) == Count(s, v) + (if x == v then 1 else 0)
    decreases |s|
  {
    if s != [] {
      InsertCounts(Max(x, s[0]), s[1..], v);
      var r := Insert(Max(x, s[0]), s[1..]);
      assert Insert(x, s)[1..] == r;
    }
  }

  lemma {:induction false} InsertSorts(x: int, s: seq<int>)
    requires Sorted(s)
    ensures Sorted(Insert(x, s))
    decreases |s|
  {
    if s != [] {
      var lo, hi := Min(x, s[0]), Max(x, s[0]);
      var r := Insert(hi, s[1..]);
      InsertSorts(hi, s[1..]);
      forall k | 0 <= k < |r| ensures lo <= r[k] {
        InsertCounts(hi, s[1..], r[k]);
        CountMember(r, r[k]);
        CountMember(s[1..], r[k]);
      }
    }
  }

  lemma {:induction false} TemplateSortSorts(s: seq<int>)
    ensures Sorted(TemplateSort(s))
    ensures Perm(s, TemplateSort(s))
  {
    if |s| > 1 {
      var r := TemplateSort(s[1..]);
      TemplateSortSorts(s[1..]);
      InsertSorts(s[0], r);
      forall v ensures Count(s, v) == Count(TemplateSort(s), v) {
        InsertCounts(s[0], r, v);
        assert Count(s[1..], v) == Count(r, v);
      }
    }
  }

  /** `template_sort_arr` on the `n` elements from `first`. */
  method TemplateSortArr(a: array<int>, first: nat, n: nat)
    requires first + n <= a.Length
    modifies a
    ensures Rearranged(old(a[..]), a[..], first, first + n)
    ensures SortedOn(a[..], first, first + n)
  {
    var sorted := TemplateSort(a[first..first + n]);
    for i := 0 to n
      invariant forall k :: 0 <= k < a.Length ==>
        a[k] == if first <= k < first + i then sorted[k - first] else old(a[k])
    {
      a[first + i] := sorted[i];
    }
    WrittenBack(old(a[..]), a[..], first, n);
  }

  lemma WrittenBack(s: seq<int>, t: seq<int>, lo: nat, n: nat)
    requires lo + n <= |s| == |t|
    requires forall k :: 0 <= k < |s| ==>
      t[k] == if lo <= k < lo + n then TemplateSort(s[lo..lo + n])[k - lo] else s[k]
    ensures Rearranged(s, t, lo, lo + n)
    ensures SortedOn(t, lo, lo + n)
  {
    TemplateSortSorts(s[lo..lo + n]);
    assert t[..lo] == s[..lo] && t[lo + n..] == s[lo + n..];
    assert t[lo..lo + n] == TemplateSort(s[lo..lo + n]);
    forall v ensures Count(s, v) == Count(t, v) {
      CountSplit(s, lo, lo + n, v);
      CountSplit(t, lo, lo + n, v);
    }
  }

  /** `[lo, hi)` is sorted once the value at `k` is dropped, and that value is at most all after it. */
  ghost predicate SortedButOne(s: seq<int>, lo: int, hi: int, k: int)
  {
    && 0 <= lo <= k < hi <= |s|
    && (forall p, q :: lo <= p < q < hi && p != k && q != k ==> s[p] <= s[q])
    && (forall q :: k < q < hi ==> s[k] <= s[q])
  }

  // ----- insertion_sort_1 -----

  lemma SwapStep(before: seq<int>, s: seq<int>, t: seq<int>, lo: nat, hi: nat, k: nat, l: nat)
    requires Rearranged(before, s, lo, hi) && SortedButOne(s, lo, hi, k) && lo < k && l == k - 1 && s[k] < s[l]
    requires t == Swapped(s, k, l)
    ensures Rearranged(before, t, lo, hi) && SortedButOne(t, lo, hi, l)
  {
    SwapRearranges(s, lo, hi, k, l);
  }

  method InsertionSort1(a: array<int>, first: nat, last: nat)
    requires first <= last <= a.Length
    modifies a
    ensures Rearranged(old(a[..]), a[..], first, last)
    ensures SortedOn(a[..], first, last)
  {
    var sz := last - first;
    for i := 0 to sz
      invariant Rearranged(old(a[..]), a[..], first, last)
      invariant SortedOn(a[..], first, first + i)
    {
      SinkOne(a, first, i);
    }
  }

  /** The inner loop: swaps the value at `first + i` leftwards into place. */
  method SinkOne(a: array<int>, first: nat, i: nat)
    requires first + i < a.Length
    requires SortedOn(a[..], first, first + i)
    modifies a
    ensures Rearranged(old(a[..]), a[..], first, first + i + 1)
    ensures SortedOn(a[..], first, first + i + 1)
  {
    var j := 0;
    ghost var s, hi, k := a[..], first + i + 1, first + i;
    while j < i
      invariant j <= i && k == first + i - j
      invariant Rearranged(s, a[..], first, hi) && SortedButOne(a[..], first, hi, k)
    {
      var rhsIdx := i - j;
      var lhsIdx := rhsIdx - 1;
      if a[first + rhsIdx] >= a[first + lhsIdx] {
        break;
      }
      ghost var l := k - 1;
      ghost var t := Swapped(a[..], k, l);
      SwapStep(s, a[..], t, first, hi, k, l);
      Swap(a, first + rhsIdx, first + lhsIdx);
      assert a[..] == t;
      j, k := j + 1, l;
    }
    SortedAtLast(a[..], first, hi, k);
  }

  /** The one dropped value is in place once it is not below its left neighbour. */
  lemma SortedAtLast(s: seq<int>, lo: nat, hi: nat, k: nat)
    requires SortedButOne(s, lo, hi, k)
    requires k == lo || s[k - 1] <= s[k]
    ensures SortedOn(s, lo, hi)
  {}

  // ----- the sliding 5-windows -----

  const SLIDING_WINDOW_SZ: nat := 5

  /** `t` is `s` with the 5-window at `w` sorted. */
  ghost predicate WindowSorted(s: seq<int>, t: seq<int>, w: int)
  {
    && 0 <= w <= |s| - SLIDING_WINDOW_SZ
    && Rearranged(s, t, w, w + SLIDING_WINDOW_SZ)
    && SortedOn(t, w, w + SLIDING_WINDOW_SZ)
  }

  /** One window step keeps the shape, with the possibly misplaced value at the window's start. */
  lemma WindowStep(s: seq<int>, t: seq<int>, lo: nat, hi: nat, k: nat, w: nat)
    requires SortedButOne(s, lo, hi, k) && WindowSorted(s, t, w)
    requires lo <= w < k < w + SLIDING_WINDOW_SZ <= hi
    requires w == lo || k == w + SLIDING_WINDOW_SZ - 1
    requires s[k] < s[k - 1]
    ensures SortedButOne(t, lo, hi, w)
  {
    var e := w + SLIDING_WINDOW_SZ;
    forall p, q | w <= p < q < hi ensures t[p] <= t[q] {
      if p < e <= q {
        var j := RearrangedMember(s, t, w, e, p);
        assert s[j] <= s[q] || j == k;
      }
    }
    forall p, q | lo <= p < w < q < hi ensures t[p] <= t[q] {
      if q < e {
        WindowFollows(s, t, lo, hi, k, w, p, q);
      }
    }
  }

  /** Values left of the window stay at most those after the window's start. */
  lemma WindowFollows(s: seq<int>, t: seq<int>, lo: nat, hi: nat, k: nat, w: nat, p: nat, q: nat)
    requires SortedButOne(s, lo, hi, k) && WindowSorted(s, t, w)
    requires lo <= p < w < q < w + SLIDING_WINDOW_SZ == k + 1 <= hi
    ensures s[p] <= t[q]
  {
    var x, y := s[w..k + 1], t[w..k + 1];
    RearrangedStretch(s, t, w, k + 1);
    assert y[0] == t[w] && y[q - w] == t[q];
    if t[q] < s[p] {
      // only the value at k can be below s[p], so two places of the window would hold it
      AtMostOneBelow(x, y, s[p], q - w);
    }
  }

  /** If only the last value of `x` is below `bound`, no permutation has two values below it. */
  lemma AtMostOneBelow(x: seq<int>, y: seq<int>, bound: int, q: nat)
    requires |x| == |y| > 0 && Perm(x, y)
    requires forall i :: 0 <= i < |x| - 1 ==> x[i] >= bound
    requires 0 < q < |y|
    ensures y[0] >= bound || y[q] >= bound
  {
    var last := x[|x| - 1];
    CountMember(x, y[0]);
    CountMember(y, y[0]);
    CountMember(x, y[q]);
    CountMember(y, y[q]);
    if y[0] < bound && y[q] < bound {
      assert x == x[..|x| - 1] + [last];
      CountAppend(x[..|x| - 1], [last], last);
      CountMember(x[..|x| - 1], last);
      assert Count([last], last) == 1;
      assert y[1..][q - 1] == last;
      CountMember(y[1..], last);
      assert false;
    }
  }

  /** Moves the value at `first + i` into the sorted stretch before it, a 5-window at a time. */
  method SlideDown(a: array<int>, first: nat, i: nat)
    requires SLIDING_WINDOW_SZ <= i && first + i < a.Length
    requires SortedOn(a[..], first, first + i)
    modifies a
    ensures Rearranged(old(a[..]), a[..], first, first + i + 1)
    ensures SortedOn(a[..], first, first + i + 1)
  {
    var sortingIdx := i;
    ghost var before, hi, k := a[..], first + i + 1, first + i;
    while true
      invariant 0 <= sortingIdx <= i && k == first + sortingIdx
      invariant Rearranged(before, a[..], first, hi) && SortedButOne(a[..], first, hi, k)
      decreases sortingIdx
    {
      if sortingIdx == 0 {
        break;
      }
      if a[first + sortingIdx] >= a[first + sortingIdx - 1] {
        break;
      }
      ghost var s := a[..];
      sortingIdx := Max(0, sortingIdx - (SLIDING_WINDOW_SZ - 1));
      ghost var w := first + sortingIdx;
      TemplateSortArr(a, first + sortingIdx, SLIDING_WINDOW_SZ);
      SlideStep(before, s, a[..], first, hi, k, w);
      k := w;
    }
    SortedAtLast(a[..], first, hi, k);
  }

  lemma SlideStep(before: seq<int>, s: seq<int>, t: seq<int>, lo: nat, hi: nat, k: nat, w: nat)
    requires Rearranged(before, s, lo, hi) && SortedButOne(s, lo, hi, k) && WindowSorted(s, t, w)
    requires lo <= w < k < w + SLIDING_WINDOW_SZ <= hi
    requires w == lo || k == w + SLIDING_WINDOW_SZ - 1
    requires s[k] < s[k - 1]
    ensures Rearranged(before, t, lo, hi) && SortedButOne(t, lo, hi, w)
  {
    WindowStep(s, t, lo, hi, k, w);
  }

  method InsertionSort2(a: array<int>, first: nat, last: nat)
    requires first <= last <= a.Length
    modifies a
    ensures Rearranged(old(a[..]), a[..], first, last)
    ensures SortedOn(a[..], first, last)
  {
    var sz := last - first;
    if sz < SLIDING_WINDOW_SZ {
      InsertionSort1(a, first, last);
      return;
    }
    TemplateSortArr(a, first, SLIDING_WINDOW_SZ);
    for i := SLIDING_WINDOW_SZ to sz
      invariant Rearranged(old(a[..]), a[..], first, last)
      invariant SortedOn(a[..], first, first + i)
    {
      SlideDown(a, first, i);
    }
  }

  // ----- boundless_insertion_sort -----

  const MAX_SORTING_SIZE: nat := 7

  /** Sorts at least five elements from `first`, even when `last` comes earlier. */
  method BoundlessInsertionSort(a: array<int>, first: nat, last: nat)
    requires first <= last <= first + MAX_SORTING_SIZE
    requires last + SLIDING_WINDOW_SZ <= a.Length
    modifies a
    ensures Rearranged(old(a[..]), a[..], first, Max(last, first + SLIDING_WINDOW_SZ))
    ensures SortedOn(a[..], first, Max(last, first + SLIDING_WINDOW_SZ))
  {
    var sz := last - first;
    TemplateSortArr(a, first, SLIDING_WINDOW_SZ);
    if sz > SLIDING_WINDOW_SZ {
      SlideDown(a, first, SLIDING_WINDOW_SZ);
      if sz == MAX_SORTING_SIZE {
        SlideDown(a, first, SLIDING_WINDOW_SZ + 1);
      }
    }
  }
}
