/** Heap order with any out-degree over any total preorder, and what pushing an element down or up does to it. */
module HeapOrder {
  import opened Rearranging

  /** `better(x, y)`: `x` may stand above `y`. */
  ghost predicate TotalPreorder<T(!new)>(better: (T, T) -> bool)
  {
    && (forall x, y :: better(x, y) || better(y, x))
    && (forall x, y, z :: better(x, y) && better(y, z) ==> better(x, z))
  }

  function Parent(i: nat, d: nat): (p: nat)
    requires i > 0 && d > 0
    ensures p < i
  {
    QuotientAtMost(i - 1, d);
    (i - 1) / d
  }

  lemma QuotientAtMost(x: nat, d: nat)
    requires d > 0
    ensures x / d <= x
  {
    MulAtLeast(x / d, d);
  }

  /** The children of `p` are the indices `p * d + 1` to `p * d + d`. */
  lemma ParentBounds(i: nat, d: nat)
    requires i > 0 && d > 0
    ensures Parent(i, d) * d < i <= Parent(i, d) * d + d
  {}

  /** Among the first `n` elements, every child of an index at or after `root` is in order with its parent. */
  ghost predicate HeapFrom<T>(s: seq<T>, n: nat, d: nat, better: (T, T) -> bool, root: nat)
    requires n <= |s| && d > 0
  {
    forall i {:trigger s[i]} :: 0 < i < n && Parent(i, d) >= root ==> better(s[Parent(i, d)], s[i])
  }

  ghost predicate HeapOrdered<T>(s: seq<T>, n: nat, d: nat, better: (T, T) -> bool)
    requires n <= |s| && d > 0
  {
    HeapFrom(s, n, d, better, 0)
  }

  /** In order but for the children of `idx`, which are still in order with `idx`'s own parent. */
  ghost predicate HeapButDown<T>(s: seq<T>, n: nat, d: nat, better: (T, T) -> bool, root: nat, idx: nat)
    requires n <= |s| && d > 0
  {
    && (forall i {:trigger s[i]} :: 0 < i < n && Parent(i, d) >= root && Parent(i, d) != idx ==> better(s[Parent(i, d)], s[i]))
    && (forall i {:trigger s[i]} :: 0 < i < n && Parent(i, d) == idx && 0 < idx && Parent(idx, d) >= root ==>
          better(s[Parent(idx, d)], s[i]))
  }

  /** In order but for `idx` under its parent; `idx`'s children are in order with that parent. */
  ghost predicate HeapButUp<T>(s: seq<T>, n: nat, d: nat, better: (T, T) -> bool, idx: nat)
    requires n <= |s| && d > 0
  {
    && (forall i {:trigger s[i]} :: 0 < i < n && i != idx ==> better(s[Parent(i, d)], s[i]))
    && (forall i {:trigger s[i]} :: 0 < i < n && Parent(i, d) == idx && 0 < idx ==> better(s[Parent(idx, d)], s[i]))
  }

  // ----- pushing down -----

  /** The child of `idx` the scan over the first `k` children ends at. */
  function BestChild<T>(s: seq<T>, n: nat, d: nat, better: (T, T) -> bool, idx: nat, k: nat): (c: nat)
    requires n <= |s| && 0 < k <= d && idx * d + 1 < n
    ensures idx * d < c < n && c <= idx * d + k
    decreases k
  {
    if k == 1 then idx * d + 1 else
      var c := BestChild(s, n, d, better, idx, k - 1);
      if idx * d + k < n && better(s[idx * d + k], s[c]) then idx * d + k else c
  }

  lemma {:induction false} BestChildIsBest<T(!new)>(s: seq<T>, n: nat, d: nat, better: (T, T) -> bool, idx: nat, k: nat, c: nat)
    requires n <= |s| && 0 < k <= d && idx * d + 1 < n && TotalPreorder(better)
    requires idx * d < c < n && c <= idx * d + k
    ensures better(s[BestChild(s, n, d, better, idx, k)], s[c])
    decreases k
  {
    if k > 1 {
      var b := BestChild(s, n, d, better, idx, k - 1);
      assert better(s[b], s[b]);
      if c < idx * d + k {
        BestChildIsBest(s, n, d, better, idx, k - 1, c);
      }
    }
  }

  /** Past the end of the heap the scan stays where it is. */
  lemma {:induction false} NoMoreChildren<T>(s: seq<T>, n: nat, d: nat, better: (T, T) -> bool, idx: nat, i: nat, k: nat)
    requires n <= |s| && 0 < i <= k <= d && idx * d + 1 < n && idx * d + (i + 1) >= n
    ensures BestChild(s, n, d, better, idx, k) == BestChild(s, n, d, better, idx, i)
    decreases k
  {
    if i < k {
      NoMoreChildren(s, n, d, better, idx, i, k - 1);
    }
  }

  lemma ParentOfChild(idx: nat, d: nat, c: nat)
    requires d > 0 && idx * d < c <= idx * d + d
    ensures c > idx && Parent(c, d) == idx
  {
    assert c > idx by { MulAtLeast(idx, d); }
    var p := Parent(c, d);
    ParentBounds(c, d);
    if p < idx {
      MulStep(p, idx, d);
    } else if p > idx {
      MulStep(idx, p, d);
    }
  }

  lemma MulAtLeast(x: nat, d: nat)
    requires d > 0
    ensures x * d >= x
  {
    assert x * d == x + x * (d - 1);
  }

  lemma MulStep(x: nat, y: nat, d: nat)
    requires x < y
    ensures x * d + d <= y * d
  {
    assert y * d == x * d + (y - x) * d;
    assert (y - x) * d == d + (y - x - 1) * d;
  }

  /** `_push_down_heap`. */
  function PushDown<T>(s: seq<T>, idx: nat, n: nat, d: nat, better: (T, T) -> bool): (t: seq<T>)
    requires idx < n <= |s| && d > 0
    ensures |t| == |s|
    decreases n - idx
  {
    if idx * d + 1 >= n then s else
      var c := BestChild(s, n, d, better, idx, d);
      ParentOfChild(idx, d, c);
      if better(s[idx], s[c]) then s else PushDown(Swapped(s, idx, c), c, n, d, better)
  }

  /** `c` is a child of `idx` that is at least as good as every child of `idx`. */
  ghost predicate IsBestChild<T>(s: seq<T>, n: nat, d: nat, better: (T, T) -> bool, idx: nat, c: nat)
    requires n <= |s| && d > 0
  {
    && 0 < c < n && Parent(c, d) == idx
    && forall k {:trigger s[k]} :: 0 < k < n && Parent(k, d) == idx ==> better(s[c], s[k])
  }

  lemma ScanFindsBestChild<T(!new)>(s: seq<T>, n: nat, d: nat, better: (T, T) -> bool, idx: nat)
    requires n <= |s| && d > 0 && idx * d + 1 < n && TotalPreorder(better)
    ensures IsBestChild(s, n, d, better, idx, BestChild(s, n, d, better, idx, d))
  {
    ParentOfChild(idx, d, BestChild(s, n, d, better, idx, d));
    forall k | 0 < k < n && Parent(k, d) == idx ensures better(s[BestChild(s, n, d, better, idx, d)], s[k]) {
      ParentBounds(k, d);
      BestChildIsBest(s, n, d, better, idx, d, k);
    }
  }

  lemma PushDownLeaf<T>(s: seq<T>, idx: nat, n: nat, d: nat, better: (T, T) -> bool, root: nat)
    requires idx < n <= |s| && d > 0
    requires HeapButDown(s, n, d, better, root, idx) && idx * d + 1 >= n
    ensures HeapFrom(s, n, d, better, root)
  {
    forall i | 0 < i < n && Parent(i, d) >= root ensures better(s[Parent(i, d)], s[i]) {
      if Parent(i, d) == idx { ParentBounds(i, d); }
    }
  }

  lemma PushDownStop<T(!new)>(s: seq<T>, idx: nat, n: nat, d: nat, better: (T, T) -> bool, root: nat, c: nat)
    requires idx < n <= |s| && d > 0 && TotalPreorder(better)
    requires HeapButDown(s, n, d, better, root, idx)
    requires IsBestChild(s, n, d, better, idx, c) && better(s[idx], s[c])
    ensures HeapFrom(s, n, d, better, root)
  {
    forall i | 0 < i < n && Parent(i, d) >= root ensures better(s[Parent(i, d)], s[i]) {
      assert Parent(i, d) == idx ==> better(s[c], s[i]);
    }
  }

  lemma PushDownStep<T(!new)>(s: seq<T>, idx: nat, n: nat, d: nat, better: (T, T) -> bool, root: nat, c: nat)
    requires root <= idx < n <= |s| && d > 0 && TotalPreorder(better)
    requires HeapButDown(s, n, d, better, root, idx)
    requires IsBestChild(s, n, d, better, idx, c) && !better(s[idx], s[c])
    ensures HeapButDown(Swapped(s, idx, c), n, d, better, root, c)
  {
    var t := Swapped(s, idx, c);
    assert better(s[c], s[idx]);
    forall i | 0 < i < n && Parent(i, d) >= root && Parent(i, d) != c ensures better(t[Parent(i, d)], t[i]) {
      assert s[i] == s[i] && s[c] == s[c];
    }
    forall i | 0 < i < n && Parent(i, d) == c ensures better(t[Parent(c, d)], t[i]) {
      assert s[i] == t[i];
    }
  }

  /** Pushing down repairs the one place. */
  lemma {:induction false} PushDownRepairs<T(!new)>(s: seq<T>, idx: nat, n: nat, d: nat, better: (T, T) -> bool, root: nat)
    requires root <= idx < n <= |s| && d > 0 && TotalPreorder(better)
    requires HeapButDown(s, n, d, better, root, idx)
    ensures HeapFrom(PushDown(s, idx, n, d, better), n, d, better, root)
    decreases n - idx
  {
    if idx * d + 1 < n {
      var c := BestChild(s, n, d, better, idx, d);
      ParentOfChild(idx, d, c);
      ScanFindsBestChild(s, n, d, better, idx);
      if better(s[idx], s[c]) {
        PushDownStop(s, idx, n, d, better, root, c);
      } else {
        PushDownStep(s, idx, n, d, better, root, c);
        PushDownRepairs(Swapped(s, idx, c), c, n, d, better, root);
      }
    } else {
      PushDownLeaf(s, idx, n, d, better, root);
    }
  }

  // ----- pushing up -----

  /** `_push_up_heap`. */
  function PushUp<T>(s: seq<T>, idx: nat, d: nat, better: (T, T) -> bool): (t: seq<T>)
    requires idx < |s| && d > 0
    ensures |t| == |s|
    decreases idx
  {
    if idx == 0 then s else
      var p := Parent(idx, d);
      if better(s[p], s[idx]) then s else PushUp(Swapped(s, p, idx), p, d, better)
  }

  /** Pushing up repairs the one place. */
  lemma {:induction false} PushUpRepairs<T(!new)>(s: seq<T>, idx: nat, n: nat, d: nat, better: (T, T) -> bool)
    requires idx < n <= |s| && d > 0 && TotalPreorder(better)
    requires HeapButUp(s, n, d, better, idx)
    ensures HeapOrdered(PushUp(s, idx, d, better), n, d, better)
    decreases idx
  {
    if idx > 0 {
      var p := Parent(idx, d);
      ButUpIsButAt(s, n, d, better, idx);
      if better(s[p], s[idx]) {
        AtToDown(s, n, d, better, idx);
      } else {
        AtToUp(s, n, d, better, idx);
        PushUpRepairs(Swapped(s, p, idx), p, n, d, better);
      }
    }
  }

  /** The root is better than everything else. */
  lemma {:induction false} RootIsBest<T(!new)>(s: seq<T>, n: nat, d: nat, better: (T, T) -> bool, i: nat)
    requires i < n <= |s| && d > 0 && TotalPreorder(better) && HeapOrdered(s, n, d, better)
    ensures better(s[0], s[i])
    decreases i
  {
    if i == 0 {
      assert better(s[0], s[0]);
    } else {
      RootIsBest(s, n, d, better, Parent(i, d));
      assert better(s[Parent(i, d)], s[i]);
    }
  }

  // ----- changing one element -----

  /** In order but for the pairs `idx` takes part in; `idx`'s parent is in order with `idx`'s children. */
  ghost predicate HeapButAt<T>(s: seq<T>, n: nat, d: nat, better: (T, T) -> bool, idx: nat)
    requires n <= |s| && d > 0
  {
    && (forall i {:trigger s[i]} :: 0 < i < n && i != idx && Parent(i, d) != idx ==> better(s[Parent(i, d)], s[i]))
    && (forall i {:trigger s[i]} :: 0 < i < n && Parent(i, d) == idx && 0 < idx ==> better(s[Parent(idx, d)], s[i]))
  }

  lemma ReplacedOne<T(!new)>(s: seq<T>, m: nat, t: seq<T>, n: nat, d: nat, better: (T, T) -> bool, idx: nat)
    requires n <= m <= |s| && n <= |t| && d > 0 && TotalPreorder(better) && HeapOrdered(s, m, d, better)
    requires forall i :: 0 <= i < n && i != idx ==> t[i] == s[i]
    ensures HeapButAt(t, n, d, better, idx)
  {
    forall i | 0 < i < n && i != idx && Parent(i, d) != idx ensures better(t[Parent(i, d)], t[i]) {
      assert better(s[Parent(i, d)], s[i]);
    }
    forall i | 0 < i < n && Parent(i, d) == idx && 0 < idx ensures better(t[Parent(idx, d)], t[i]) {
      assert better(s[Parent(i, d)], s[i]) && better(s[Parent(idx, d)], s[idx]);
    }
  }

  lemma AppendedOne<T>(s: seq<T>, t: seq<T>, n: nat, d: nat, better: (T, T) -> bool)
    requires n <= |s| && n + 1 <= |t| && d > 0 && HeapOrdered(s, n, d, better)
    requires forall i :: 0 <= i < n ==> t[i] == s[i]
    ensures HeapButUp(t, n + 1, d, better, n)
  {
    forall i | 0 < i < n + 1 && i != n ensures better(t[Parent(i, d)], t[i]) {
      assert better(s[Parent(i, d)], s[i]);
    }
  }

  lemma ButUpIsButAt<T>(s: seq<T>, n: nat, d: nat, better: (T, T) -> bool, idx: nat)
    requires n <= |s| && d > 0 && HeapButUp(s, n, d, better, idx)
    ensures HeapButAt(s, n, d, better, idx)
  {}

  /** An element in order with its parent can at most be worse than its children. */
  lemma AtToDown<T>(s: seq<T>, n: nat, d: nat, better: (T, T) -> bool, idx: nat)
    requires idx < n <= |s| && d > 0 && HeapButAt(s, n, d, better, idx)
    requires idx > 0 ==> better(s[Parent(idx, d)], s[idx])
    ensures HeapButDown(s, n, d, better, 0, idx)
    ensures HeapButUp(s, n, d, better, idx) ==> HeapOrdered(s, n, d, better)
  {
    if HeapButUp(s, n, d, better, idx) {
      forall i | 0 < i < n ensures better(s[Parent(i, d)], s[i]) {
        assert i != idx ==> better(s[Parent(i, d)], s[i]);
      }
    }
  }

  /** An element better than its parent swaps with it, which leaves only the parent's place in doubt. */
  lemma AtToUp<T(!new)>(s: seq<T>, n: nat, d: nat, better: (T, T) -> bool, idx: nat)
    requires 0 < idx < n <= |s| && d > 0 && TotalPreorder(better) && HeapButAt(s, n, d, better, idx)
    requires !better(s[Parent(idx, d)], s[idx])
    ensures HeapButUp(Swapped(s, Parent(idx, d), idx), n, d, better, Parent(idx, d))
  {
    var p := Parent(idx, d);
    var t := Swapped(s, p, idx);
    assert better(s[idx], s[p]);
    assert p > 0 ==> better(s[Parent(p, d)], s[p]) by { if p > 0 { assert s[p] == s[p]; } }
    forall i | 0 < i < n && i != p ensures better(t[Parent(i, d)], t[i]) {
      assert s[i] == s[i];
    }
    forall i | 0 < i < n && Parent(i, d) == p && 0 < p ensures better(t[Parent(p, d)], t[i]) {
      assert i != idx ==> better(s[p], s[i]);
    }
  }

  lemma OrderedIsButDown<T(!new)>(s: seq<T>, n: nat, d: nat, better: (T, T) -> bool, idx: nat)
    requires n <= |s| && d > 0 && TotalPreorder(better) && HeapOrdered(s, n, d, better)
    ensures HeapButDown(s, n, d, better, 0, idx)
  {
    forall i | 0 < i < n && Parent(i, d) == idx && 0 < idx ensures better(s[Parent(idx, d)], s[i]) {
      assert better(s[Parent(i, d)], s[i]) && better(s[Parent(idx, d)], s[idx]);
    }
  }
}
