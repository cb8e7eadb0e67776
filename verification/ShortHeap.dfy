/** The array heap of `short_heap.h`: the first `sz` elements of an array, any out-degree, any comparator. */
module ShortHeap {
  import opened Rearranging
  import opened HeapOrder

  // ----- the same values, before and after -----

  lemma SwapKeepsValues<T>(s: seq<T>, i: nat, j: nat)
    requires i < |s| && j < |s|
    ensures multiset(Swapped(s, i, j)) == multiset(s)
  {}

  lemma {:induction false} PushDownKeepsValues<T>(s: seq<T>, idx: nat, n: nat, d: nat, better: (T, T) -> bool)
    requires idx < n <= |s| && d > 0
    ensures multiset(PushDown(s, idx, n, d, better)) == multiset(s)
    ensures PushDown(s, idx, n, d, better)[n..] == s[n..]
    decreases n - idx
  {
    if idx * d + 1 < n {
      var c := BestChild(s, n, d, better, idx, d);
      ParentOfChild(idx, d, c);
      if !better(s[idx], s[c]) {
        SwapKeepsValues(s, idx, c);
        PushDownKeepsValues(Swapped(s, idx, c), c, n, d, better);
      }
    }
  }

  lemma {:induction false} PushDownMember<T>(s: seq<T>, idx: nat, n: nat, d: nat, better: (T, T) -> bool, i: nat) returns (j: nat)
    requires idx < n <= |s| && d > 0 && i < n
    ensures j < n && PushDown(s, idx, n, d, better)[i] == s[j]
    decreases n - idx
  {
    j := i;
    if idx * d + 1 < n {
      var c := BestChild(s, n, d, better, idx, d);
      ParentOfChild(idx, d, c);
      if !better(s[idx], s[c]) {
        j := PushDownMember(Swapped(s, idx, c), c, n, d, better, i);
        j := if j == idx then c else if j == c then idx else j;
      }
    }
  }

  lemma {:induction false} PushUpKeepsValues<T>(s: seq<T>, idx: nat, n: nat, d: nat, better: (T, T) -> bool)
    requires idx < n <= |s| && d > 0
    ensures multiset(PushUp(s, idx, d, better)) == multiset(s)
    ensures PushUp(s, idx, d, better)[n..] == s[n..]
    decreases idx
  {
    if idx > 0 {
      var p := Parent(idx, d);
      if !better(s[p], s[idx]) {
        SwapKeepsValues(s, p, idx);
        PushUpKeepsValues(Swapped(s, p, idx), p, n, d, better);
      }
    }
  }

  // ----- pushing in place -----

  /** The child scan of `_push_down_heap`, which stops at the end of the heap. */
  method ScanChildren<T>(a: array<T>, idx: nat, sz: nat, better: (T, T) -> bool, d: nat) returns (cand: nat)
    requires idx * d + 1 < sz <= a.Length && d > 0
    ensures cand == BestChild(a[..], sz, d, better, idx, d)
  {
    cand := idx * d + 1;
    var i := 1;
    while i < d
      invariant 1 <= i <= d
      invariant cand == BestChild(a[..], sz, d, better, idx, i)
    {
      var childIdx := idx * d + (i + 1);
      if childIdx >= sz {
        NoMoreChildren(a[..], sz, d, better, idx, i, d);
        break;
      }
      if better(a[childIdx], a[cand]) {
        cand := childIdx;
      }
      i := i + 1;
    }
  }

  method PushDownHeap<T>(a: array<T>, idx: nat, sz: nat, better: (T, T) -> bool, d: nat)
    requires idx < sz <= a.Length && d > 0
    modifies a
    ensures a[..] == PushDown(old(a[..]), idx, sz, d, better)
    decreases sz - idx
  {
    var firstChildIdx := idx * d + 1;
    if firstChildIdx >= sz {
      return;
    }
    var cand := ScanChildren(a, idx, sz, better, d);
    ParentOfChild(idx, d, cand);
    if better(a[idx], a[cand]) {
      return;
    }
    Swap(a, idx, cand);
    PushDownHeap(a, cand, sz, better, d);
  }

  /** `_fast_push_down_heap` scans without the end check while all children exist, and leaves the same array. */
  method FastPushDownHeap<T>(a: array<T>, idx: nat, sz: nat, better: (T, T) -> bool, d: nat)
    requires idx < sz <= a.Length && d > 0
    modifies a
    ensures a[..] == PushDown(old(a[..]), idx, sz, d, better)
    decreases sz - idx
  {
    var lastChildIdx := idx * d + d;
    if lastChildIdx >= sz {
      PushDownHeap(a, idx, sz, better, d);
      return;
    }
    var cand := idx * d + 1;
    for i := 1 to d
      invariant cand == BestChild(a[..], sz, d, better, idx, i)
      invariant a[..] == old(a[..])
    {
      var childIdx := idx * d + (i + 1);
      if better(a[childIdx], a[cand]) {
        cand := childIdx;
      }
    }
    ParentOfChild(idx, d, cand);
    if better(a[idx], a[cand]) {
      return;
    }
    Swap(a, idx, cand);
    FastPushDownHeap(a, cand, sz, better, d);
  }

  method PushUpHeap<T>(a: array<T>, idx: nat, sz: nat, better: (T, T) -> bool, d: nat)
    requires idx < sz <= a.Length && d > 0
    modifies a
    ensures a[..] == PushUp(old(a[..]), idx, d, better)
    decreases idx
  {
    if idx == 0 {
      return;
    }
    var parentIdx := Parent(idx, d);
    if better(a[parentIdx], a[idx]) {
      return;
    }
    Swap(a, parentIdx, idx);
    PushUpHeap(a, parentIdx, sz, better, d);
  }

  // ----- make_heap, push_heap, pop_heap -----

  /** The first `k` rounds of `make_heap`, from the last parent towards the root. */
  function Heapified<T>(s: seq<T>, n: nat, d: nat, better: (T, T) -> bool, k: nat): (t: seq<T>)
    requires 2 <= n <= |s| && d > 0 && k <= Parent(n - 1, d) + 1
    ensures |t| == |s|
  {
    if k == 0 then s else PushDown(Heapified(s, n, d, better, k - 1), Parent(n - 1, d) - (k - 1), n, d, better)
  }

  lemma ParentMonotone(i: nat, j: nat, d: nat)
    requires 0 < i <= j && d > 0
    ensures Parent(i, d) <= Parent(j, d)
  {
    var p, q := Parent(i, d), Parent(j, d);
    if q < p {
      MulStep(q, p, d);
    }
  }

  /** Behind the last parent nothing has a parent to be out of order with. */
  lemma {:induction false} LeavesAreHeap<T(!new)>(s: seq<T>, n: nat, d: nat, better: (T, T) -> bool)
    requires 2 <= n <= |s| && d > 0
    ensures HeapFrom(s, n, d, better, Parent(n - 1, d) + 1)
  {
    forall i | 0 < i < n ensures Parent(i, d) <= Parent(n - 1, d) {
      ParentMonotone(i, n - 1, d);
    }
  }

  lemma {:induction false} OneParentMore<T(!new)>(s: seq<T>, n: nat, d: nat, better: (T, T) -> bool, r: nat)
    requires r < n <= |s| && d > 0 && TotalPreorder(better) && HeapFrom(s, n, d, better, r + 1)
    ensures HeapFrom(PushDown(s, r, n, d, better), n, d, better, r)
  {
    PushDownRepairs(s, r, n, d, better, r);
  }

  lemma {:induction false} HeapifiedIsHeap<T(!new)>(s: seq<T>, n: nat, d: nat, better: (T, T) -> bool, k: nat)
    requires 2 <= n <= |s| && d > 0 && k <= Parent(n - 1, d) + 1 && TotalPreorder(better)
    ensures HeapFrom(Heapified(s, n, d, better, k), n, d, better, Parent(n - 1, d) + 1 - k)
  {
    if k == 0 {
      LeavesAreHeap(s, n, d, better);
    } else {
      HeapifiedIsHeap(s, n, d, better, k - 1);
      OneParentMore(Heapified(s, n, d, better, k - 1), n, d, better, Parent(n - 1, d) - (k - 1));
    }
  }

  lemma {:induction false} HeapifiedKeepsValues<T>(s: seq<T>, n: nat, d: nat, better: (T, T) -> bool, k: nat)
    requires 2 <= n <= |s| && d > 0 && k <= Parent(n - 1, d) + 1
    ensures multiset(Heapified(s, n, d, better, k)) == multiset(s)
    ensures Heapified(s, n, d, better, k)[n..] == s[n..]
  {
    if k > 0 {
      var t, r := Heapified(s, n, d, better, k - 1), Parent(n - 1, d) - (k - 1);
      HeapifiedKeepsValues(s, n, d, better, k - 1);
      PushDownKeepsValues(t, r, n, d, better);
      assert Heapified(s, n, d, better, k) == PushDown(t, r, n, d, better);
    }
  }

  method MakeHeap<T(!new)>(a: array<T>, sz: nat, better: (T, T) -> bool, d: nat)
    requires sz <= a.Length && d > 0 && TotalPreorder(better)
    modifies a
    ensures HeapOrdered(a[..], sz, d, better)
    ensures multiset(a[..]) == multiset(old(a[..])) && a[sz..] == old(a[sz..])
  {
    if sz <= 1 {
      return;
    }
    var backIdx := sz - 1;
    var referenceIdx := Parent(backIdx, d);
    var rootSz := referenceIdx + 1;
    ghost var s := a[..];
    for i := 0 to rootSz
      invariant a[..] == Heapified(s, sz, d, better, i)
    {
      var rootIdx := referenceIdx - i;
      PushDownHeap(a, rootIdx, sz, better, d);
    }
    HeapifiedIsHeap(s, sz, d, better, rootSz);
    HeapifiedKeepsValues(s, sz, d, better, rootSz);
    assert a[sz..] == a[..][sz..] && s[sz..] == old(a[sz..]);
  }

  /** The array after `pop_heap`: the root swapped to the end of the heap and the new root pushed down. */
  function Popped<T>(s: seq<T>, n: nat, d: nat, better: (T, T) -> bool): (t: seq<T>)
    requires 0 < n <= |s| && d > 0
    ensures |t| == |s|
  {
    var t := Swapped(s, 0, n - 1);
    if n - 1 > 0 then PushDown(t, 0, n - 1, d, better) else t
  }

  lemma RootSwappedOut<T(!new)>(s: seq<T>, n: nat, d: nat, better: (T, T) -> bool)
    requires 1 < n <= |s| && d > 0 && HeapOrdered(s, n, d, better)
    ensures HeapButDown(Swapped(s, 0, n - 1), n - 1, d, better, 0, 0)
  {
    var t := Swapped(s, 0, n - 1);
    forall i | 0 < i < n - 1 && Parent(i, d) != 0 ensures better(t[Parent(i, d)], t[i]) {
      assert t[i] == s[i] && t[Parent(i, d)] == s[Parent(i, d)];
    }
  }

  lemma PoppedKeepsValues<T>(s: seq<T>, n: nat, d: nat, better: (T, T) -> bool)
    requires 0 < n <= |s| && d > 0
    ensures Popped(s, n, d, better)[n - 1] == s[0]
    ensures multiset(Popped(s, n, d, better)) == multiset(s) && Popped(s, n, d, better)[n..] == s[n..]
  {
    var t := Swapped(s, 0, n - 1);
    SwapKeepsValues(s, 0, n - 1);
    if n > 1 {
      PushDownKeepsValues(t, 0, n - 1, d, better);
      var u := PushDown(t, 0, n - 1, d, better);
      assert u[n - 1] == u[n - 1..][0] && t[n - 1] == t[n - 1..][0];
      assert u[n..] == u[n - 1..][1..] && t[n..] == t[n - 1..][1..];
    }
  }

  lemma PoppedIsHeap<T(!new)>(s: seq<T>, n: nat, d: nat, better: (T, T) -> bool)
    requires 0 < n <= |s| && d > 0 && TotalPreorder(better) && HeapOrdered(s, n, d, better)
    ensures HeapOrdered(Popped(s, n, d, better), n - 1, d, better)
  {
    if n > 1 {
      RootSwappedOut(s, n, d, better);
      PushDownRepairs(Swapped(s, 0, n - 1), 0, n - 1, d, better, 0);
    }
  }

  lemma PoppedMember<T>(s: seq<T>, n: nat, d: nat, better: (T, T) -> bool, i: nat) returns (j: nat)
    requires 0 < n <= |s| && d > 0 && i < n
    ensures j < n && Popped(s, n, d, better)[i] == s[j]
  {
    var t := Swapped(s, 0, n - 1);
    if n > 1 {
      if i < n - 1 {
        j := PushDownMember(t, 0, n - 1, d, better, i);
      } else {
        PushDownKeepsValues(t, 0, n - 1, d, better);
        var u := PushDown(t, 0, n - 1, d, better);
        assert u[n - 1] == u[n - 1..][0] && t[n - 1] == t[n - 1..][0];
        j := i;
      }
      j := if j == 0 then n - 1 else if j == n - 1 then 0 else j;
    } else {
      j := 0;
    }
  }

  method PopHeap<T(!new)>(a: array<T>, sz: nat, better: (T, T) -> bool, d: nat)
    requires 0 < sz <= a.Length && d > 0
    modifies a
    ensures a[..] == Popped(old(a[..]), sz, d, better)
  {
    Swap(a, 0, sz - 1);
    var newSz := sz - 1;
    if newSz > 0 {
      PushDownHeap(a, 0, newSz, better, d);
    }
  }

  method PushHeap<T(!new)>(a: array<T>, sz: nat, better: (T, T) -> bool, d: nat)
    requires 0 < sz <= a.Length && d > 0 && TotalPreorder(better)
    requires HeapOrdered(a[..], sz - 1, d, better)
    modifies a
    ensures HeapOrdered(a[..], sz, d, better)
    ensures multiset(a[..]) == multiset(old(a[..])) && a[..][sz..] == old(a[..])[sz..]
  {
    PushUpRepairs(a[..], sz - 1, sz, d, better);
    PushUpKeepsValues(a[..], sz - 1, sz, d, better);
    PushUpHeap(a, sz - 1, sz, better, d);
  }

  // ----- top_k and sort_heap -----

  /** The array after `k` pops. */
  function TopTaken<T>(s: seq<T>, n: nat, d: nat, better: (T, T) -> bool, k: nat): (t: seq<T>)
    requires k <= n <= |s| && d > 0
    ensures |t| == |s|
  {
    if k == 0 then s else Popped(TopTaken(s, n, d, better, k - 1), n - (k - 1), d, better)
  }

  /** The prefix is a heap, the `k` elements after it run from worst to best, and each is at least as good as the prefix. */
  ghost predicate TopKSplit<T>(s: seq<T>, n: nat, d: nat, better: (T, T) -> bool, k: nat)
    requires k <= n <= |s| && d > 0
  {
    && HeapOrdered(s, n - k, d, better)
    && forall i, j :: 0 <= i < j < n && n - k <= j ==> better(s[j], s[i])
  }

  lemma {:induction false} TopTakenSplits<T(!new)>(s: seq<T>, n: nat, d: nat, better: (T, T) -> bool, k: nat)
    requires k <= n <= |s| && d > 0 && TotalPreorder(better) && HeapOrdered(s, n, d, better)
    ensures TopKSplit(TopTaken(s, n, d, better, k), n, d, better, k)
  {
    if k > 0 {
      var t := TopTaken(s, n, d, better, k - 1);
      TopTakenSplits(s, n, d, better, k - 1);
      PopExtendsSplit(t, Popped(t, n - (k - 1), d, better), n, d, better, k);
    }
  }

  lemma {:induction false} TopTakenKeepsValues<T>(s: seq<T>, n: nat, d: nat, better: (T, T) -> bool, k: nat)
    requires k <= n <= |s| && d > 0
    ensures multiset(TopTaken(s, n, d, better, k)) == multiset(s)
    ensures TopTaken(s, n, d, better, k)[n..] == s[n..]
  {
    if k > 0 {
      var t, m := TopTaken(s, n, d, better, k - 1), n - (k - 1);
      var u := Popped(t, m, d, better);
      TopTakenKeepsValues(s, n, d, better, k - 1);
      PoppedKeepsValues(t, m, d, better);
      assert u[n..] == u[m..][n - m..] && t[n..] == t[m..][n - m..];
    }
  }

  lemma PopExtendsSplit<T(!new)>(t: seq<T>, u: seq<T>, n: nat, d: nat, better: (T, T) -> bool, k: nat)
    requires 0 < k <= n <= |t| && d > 0 && TotalPreorder(better) && TopKSplit(t, n, d, better, k - 1)
    requires u == Popped(t, n - (k - 1), d, better)
    ensures TopKSplit(u, n, d, better, k)
  {
    var m := n - (k - 1);
    PoppedIsHeap(t, m, d, better);
    PoppedKeepsValues(t, m, d, better);
    forall i, j | 0 <= i < j < n && m - 1 <= j ensures better(u[j], u[i]) {
      if j >= m {
        assert u[j] == u[m..][j - m] && t[j] == t[m..][j - m];
        if i < m {
          var i' := PoppedMember(t, m, d, better, i);
        } else {
          assert u[i] == u[m..][i - m] && t[i] == t[m..][i - m];
        }
      } else {
        var i' := PoppedMember(t, m, d, better, i);
        RootIsBest(t, m, d, better, i');
      }
    }
  }

  method TopK<T(!new)>(a: array<T>, sz: nat, topK: nat, better: (T, T) -> bool, d: nat) returns (remSz: nat)
    requires sz <= a.Length && d > 0 && TotalPreorder(better) && HeapOrdered(a[..], sz, d, better)
    modifies a
    ensures remSz == sz - (if topK < sz then topK else sz)
    ensures TopKSplit(a[..], sz, d, better, sz - remSz)
    ensures multiset(a[..]) == multiset(old(a[..])) && a[..][sz..] == old(a[..])[sz..]
  {
    var iterationSz := if topK < sz then topK else sz;
    remSz := sz - iterationSz;
    TopTakenSplits(a[..], sz, d, better, iterationSz);
    TopTakenKeepsValues(a[..], sz, d, better, iterationSz);
    TakeTop(a, sz, iterationSz, better, d);
  }

  /** The loop of `top_k`. */
  method TakeTop<T(!new)>(a: array<T>, sz: nat, iterationSz: nat, better: (T, T) -> bool, d: nat)
    requires iterationSz <= sz <= a.Length && d > 0
    modifies a
    ensures a[..] == TopTaken(old(a[..]), sz, d, better, iterationSz)
  {
    for i := 0 to iterationSz
      invariant a[..] == TopTaken(old(a[..]), sz, d, better, i)
    {
      PopHeap(a, sz - i, better, d);
    }
  }

  /** Sorts a heap from worst to best. */
  method SortHeap<T(!new)>(a: array<T>, sz: nat, better: (T, T) -> bool, d: nat)
    requires sz <= a.Length && d > 0 && TotalPreorder(better) && HeapOrdered(a[..], sz, d, better)
    modifies a
    ensures forall i, j :: 0 <= i < j < sz ==> better(a[j], a[i])
    ensures multiset(a[..]) == multiset(old(a[..])) && a[..][sz..] == old(a[..])[sz..]
  {
    var _ := TopK(a, sz, sz, better, d);
  }

  // ----- is_heap -----

  /** `i` lies strictly below `idx` in the tree. */
  ghost predicate Below(i: nat, idx: nat, d: nat)
    requires d > 0
  {
    i > 0 && (Parent(i, d) == idx || Below(Parent(i, d), idx, d))
  }

  lemma {:induction false} BelowChild(i: nat, idx: nat, d: nat) returns (c: nat)
    requires d > 0 && Below(i, idx, d)
    ensures c > 0 && Parent(c, d) == idx && c <= i && (c == i || Below(i, c, d))
  {
    if Parent(i, d) == idx {
      c := i;
    } else {
      c := BelowChild(Parent(i, d), idx, d);
    }
  }

  lemma {:induction false} BelowThrough(i: nat, c: nat, idx: nat, d: nat)
    requires d > 0 && c > 0 && Parent(c, d) == idx && Below(i, c, d)
    ensures Below(i, idx, d)
  {
    if Parent(i, d) != c {
      BelowThrough(Parent(i, d), c, idx, d);
    }
  }

  lemma {:induction false} AllBelowRoot(i: nat, d: nat)
    requires d > 0 && i > 0
    ensures Below(i, 0, d)
  {
    if Parent(i, d) > 0 {
      AllBelowRoot(Parent(i, d), d);
    }
  }

  ghost predicate OrderedAt<T>(s: seq<T>, d: nat, better: (T, T) -> bool, i: nat)
    requires 0 < i < |s| && d > 0
  {
    better(s[Parent(i, d)], s[i])
  }

  ghost predicate InOrderBelow<T>(s: seq<T>, n: nat, d: nat, better: (T, T) -> bool, idx: nat)
    requires n <= |s| && d > 0
  {
    forall i: nat {:trigger OrderedAt(s, d, better, i)} :: 0 < i < n && Below(i, idx, d) ==> OrderedAt(s, d, better, i)
  }

  /** The tree below `idx` is in order if its children are, and so are the trees below them. */
  lemma OrderFromChildren<T>(s: seq<T>, n: nat, d: nat, better: (T, T) -> bool, idx: nat)
    requires n <= |s| && d > 0
    requires forall c: nat :: 0 < c < n && Parent(c, d) == idx ==> OrderedAt(s, d, better, c)
    requires forall c: nat :: 0 < c < n && Parent(c, d) == idx ==> InOrderBelow(s, n, d, better, c)
    ensures InOrderBelow(s, n, d, better, idx)
  {
    forall i: nat | 0 < i < n && Below(i, idx, d) ensures OrderedAt(s, d, better, i) {
      var c := BelowChild(i, idx, d);
      assert OrderedAt(s, d, better, c) && InOrderBelow(s, n, d, better, c);
    }
  }

  lemma OrderOfChild<T>(s: seq<T>, n: nat, d: nat, better: (T, T) -> bool, idx: nat, c: nat)
    requires n <= |s| && d > 0 && InOrderBelow(s, n, d, better, idx)
    requires 0 < c < n && Parent(c, d) == idx
    ensures better(s[idx], s[c]) && InOrderBelow(s, n, d, better, c)
  {
    assert Below(c, idx, d);
    assert OrderedAt(s, d, better, c);
    forall i: nat | 0 < i < n && Below(i, c, d) ensures OrderedAt(s, d, better, i) {
      BelowThrough(i, c, idx, d);
    }
  }

  /** `_is_heap`: first the children of `idx`, then the trees below them. */
  method IsHeapAt<T>(a: array<T>, idx: nat, sz: nat, better: (T, T) -> bool, d: nat) returns (b: bool)
    requires idx < sz <= a.Length && d > 0
    ensures b <==> InOrderBelow(a[..], sz, d, better, idx)
    decreases sz - idx, 1
  {
    b := ChildrenInOrder(a, idx, sz, better, d);
    if b {
      b := TreesInOrder(a, idx, sz, better, d);
    }
  }

  /** The children of `idx` up to the index `upTo` are no better than it. */
  ghost predicate ChildrenOrdered<T>(s: seq<T>, n: nat, d: nat, better: (T, T) -> bool, idx: nat, upTo: nat)
    requires n <= |s| && d > 0 && idx < n
  {
    forall c: nat {:trigger OrderedAt(s, d, better, c)} :: 0 < c < n && Parent(c, d) == idx && c <= upTo ==> OrderedAt(s, d, better, c)
  }

  /** The trees below the children of `idx` up to the index `upTo` are in order. */
  ghost predicate SubtreesOrdered<T>(s: seq<T>, n: nat, d: nat, better: (T, T) -> bool, idx: nat, upTo: nat)
    requires n <= |s| && d > 0
  {
    forall c: nat {:trigger InOrderBelow(s, n, d, better, c)} :: 0 < c < n && Parent(c, d) == idx && c <= upTo ==> InOrderBelow(s, n, d, better, c)
  }

  lemma NoChildrenYet<T>(s: seq<T>, n: nat, d: nat, better: (T, T) -> bool, idx: nat)
    requires n <= |s| && d > 0 && idx < n
    ensures ChildrenOrdered(s, n, d, better, idx, idx * d) && SubtreesOrdered(s, n, d, better, idx, idx * d)
  {
    forall c: nat | 0 < c < n && Parent(c, d) == idx ensures c > idx * d { ParentBounds(c, d); }
  }

  lemma OneMoreChild<T>(s: seq<T>, n: nat, d: nat, better: (T, T) -> bool, idx: nat, c: nat)
    requires n <= |s| && d > 0 && idx < n && 0 < c < n && Parent(c, d) == idx
    ensures ChildrenOrdered(s, n, d, better, idx, c - 1) && better(s[idx], s[c]) ==> ChildrenOrdered(s, n, d, better, idx, c)
    ensures SubtreesOrdered(s, n, d, better, idx, c - 1) && InOrderBelow(s, n, d, better, c) ==> SubtreesOrdered(s, n, d, better, idx, c)
  {}

  /** Past the last child, or past the end, there are no others. */
  lemma AllChildren<T>(s: seq<T>, n: nat, d: nat, better: (T, T) -> bool, idx: nat, upTo: nat)
    requires n <= |s| && d > 0 && idx < n && (upTo >= idx * d + d || upTo + 1 >= n)
    ensures ChildrenOrdered(s, n, d, better, idx, upTo) ==> forall c: nat :: 0 < c < n && Parent(c, d) == idx ==> OrderedAt(s, d, better, c)
    ensures SubtreesOrdered(s, n, d, better, idx, upTo) ==> forall c: nat :: 0 < c < n && Parent(c, d) == idx ==> InOrderBelow(s, n, d, better, c)
  {
    forall c: nat | 0 < c < n && Parent(c, d) == idx ensures c <= upTo { ParentBounds(c, d); }
  }

  /** The first loop of `_is_heap`. */
  method ChildrenInOrder<T>(a: array<T>, idx: nat, sz: nat, better: (T, T) -> bool, d: nat) returns (b: bool)
    requires idx < sz <= a.Length && d > 0
    ensures b ==> forall c: nat :: 0 < c < sz && Parent(c, d) == idx ==> OrderedAt(a[..], d, better, c)
    ensures !b ==> !InOrderBelow(a[..], sz, d, better, idx)
  {
    ghost var s := a[..];
    NoChildrenYet(s, sz, d, better, idx);
    var i := 0;
    while i < d && idx * d + (i + 1) < sz
      invariant i <= d && ChildrenOrdered(s, sz, d, better, idx, idx * d + i)
      decreases d - i
    {
      var childIdx := idx * d + (i + 1);
      ParentOfChild(idx, d, childIdx);
      if !better(a[idx], a[childIdx]) {
        if InOrderBelow(s, sz, d, better, idx) {
          OrderOfChild(s, sz, d, better, idx, childIdx);
        }
        return false;
      }
      OneMoreChild(s, sz, d, better, idx, childIdx);
      i := i + 1;
    }
    AllChildren(s, sz, d, better, idx, idx * d + i);
    return true;
  }

  /** The second loop of `_is_heap`. */
  method TreesInOrder<T>(a: array<T>, idx: nat, sz: nat, better: (T, T) -> bool, d: nat) returns (b: bool)
    requires idx < sz <= a.Length && d > 0
    requires forall c: nat :: 0 < c < sz && Parent(c, d) == idx ==> OrderedAt(a[..], d, better, c)
    ensures b <==> InOrderBelow(a[..], sz, d, better, idx)
    decreases sz - idx, 0
  {
    ghost var s := a[..];
    NoChildrenYet(s, sz, d, better, idx);
    var i := 0;
    while i < d && idx * d + (i + 1) < sz
      invariant i <= d && SubtreesOrdered(s, sz, d, better, idx, idx * d + i)
      decreases d - i
    {
      var childIdx := idx * d + (i + 1);
      ParentOfChild(idx, d, childIdx);
      var ok := IsHeapAt(a, childIdx, sz, better, d);
      if !ok {
        if InOrderBelow(s, sz, d, better, idx) {
          OrderOfChild(s, sz, d, better, idx, childIdx);
        }
        return false;
      }
      OneMoreChild(s, sz, d, better, idx, childIdx);
      i := i + 1;
    }
    AllChildren(s, sz, d, better, idx, idx * d + i);
    OrderFromChildren(s, sz, d, better, idx);
    return true;
  }

  method IsHeap<T>(a: array<T>, sz: nat, better: (T, T) -> bool, d: nat) returns (b: bool)
    requires sz <= a.Length && d > 0
    ensures b <==> HeapOrdered(a[..], sz, d, better)
  {
    if sz == 0 {
      return true;
    }
    b := IsHeapAt(a, 0, sz, better, d);
    RootOrderIsHeapOrder(a[..], sz, d, better);
  }

  lemma RootOrderIsHeapOrder<T>(s: seq<T>, n: nat, d: nat, better: (T, T) -> bool)
    requires n <= |s| && d > 0
    ensures InOrderBelow(s, n, d, better, 0) <==> HeapOrdered(s, n, d, better)
  {
    forall i: nat | i > 0 ensures Below(i, 0, d) { AllBelowRoot(i, d); }
    if InOrderBelow(s, n, d, better, 0) {
      forall i: nat | 0 < i < n ensures better(s[Parent(i, d)], s[i]) {
        assert OrderedAt(s, d, better, i);
      }
    }
  }
}
