/** Sorted stretches, swaps and permutations of sequences of numbers. */
module Rearranging {

  /** The stretch `[lo, hi)` of `s` is in nondecreasing order. */
  ghost predicate SortedOn(s: seq<int>, lo: int, hi: int)
  {
    0 <= lo && hi <= |s| && forall i, j :: lo <= i < j < hi ==> s[i] <= s[j]
  }

  ghost predicate Sorted(s: seq<int>)
  {
    SortedOn(s, 0, |s|)
  }

  /** How often `v` occurs in `s`. */
  ghost function Count(s: seq<int>, v: int): nat
  {
    if s == [] then 0 else (if s[0] == v then 1 else 0) + Count(s[1..], v)
  }

  ghost predicate Perm(s: seq<int>, t: seq<int>)
  {
    forall v :: Count(s, v) == Count(t, v)
  }

  /** `t` is `s` with the stretch `[lo, hi)` permuted and everything else in place. */
  ghost predicate Rearranged(s: seq<int>, t: seq<int>, lo: int, hi: int)
  {
    && |s| == |t|
    && Perm(s, t)
    && forall k :: 0 <= k < |s| && !(lo <= k < hi) ==> s[k] == t[k]
  }

  function Swapped<T>(s: seq<T>, i: nat, j: nat): (t: seq<T>)
    requires i < |s| && j < |s|
    ensures |t| == |s|
  {
    s[i := s[j]][j := s[i]]
  }

  /** `std::swap` of two elements. */
  method Swap<T>(a: array<T>, i: nat, j: nat)
    requires i < a.Length && j < a.Length
    modifies a
    ensures a[..] == Swapped(old(a[..]), i, j)
  {
    a[i], a[j] := a[j], a[i];
  }

  // ----- counting -----

  lemma {:induction false} CountAppend(s: seq<int>, t: seq<int>, v: int)
    ensures Count(s + t, v) == Count(s, v) + Count(t, v)
  {
    if s == [] {
      assert s + t == t;
    } else {
      assert (s + t)[1..] == s[1..] + t;
      CountAppend(s[1..], t, v);
    }
  }

  lemma CountSplit(s: seq<int>, i: nat, j: nat, v: int)
    requires i <= j <= |s|
    ensures Count(s, v) == Count(s[..i], v) + Count(s[i..j], v) + Count(s[j..], v)
  {
    assert s == s[..i] + s[i..j] + s[j..];
    CountAppend(s[..i], s[i..j], v);
    CountAppend(s[..i] + s[i..j], s[j..], v);
  }

  lemma {:induction false} CountUpdate(s: seq<int>, i: nat, x: int, v: int)
    requires i < |s|
    ensures Count(s[i := x], v) == Count(s, v) - (if s[i] == v then 1 else 0) + (if x == v then 1 else 0)
  {
    var t := s[i := x];
    if i > 0 {
      assert t[1..] == s[1..][i - 1 := x];
      CountUpdate(s[1..], i - 1, x, v);
    } else {
      assert t[1..] == s[1..];
    }
  }

  lemma {:induction false} CountMember(s: seq<int>, v: int)
    ensures Count(s, v) > 0 <==> v in s
  {
    if s != [] {
      CountMember(s[1..], v);
      assert s == [s[0]] + s[1..];
    }
  }

  lemma {:induction false} CountIsMultiplicity(s: seq<int>, v: int)
    ensures Count(s, v) == multiset(s)[v]
  {
    if s != [] {
      CountIsMultiplicity(s[1..], v);
      assert s == [s[0]] + s[1..];
    }
  }

  /** `Perm` is equality of multisets. */
  lemma PermIsMultisetEquality(s: seq<int>, t: seq<int>)
    ensures Perm(s, t) <==> multiset(s) == multiset(t)
  {
    forall v ensures Count(s, v) == multiset(s)[v] && Count(t, v) == multiset(t)[v] {
      CountIsMultiplicity(s, v);
      CountIsMultiplicity(t, v);
    }
    if Perm(s, t) {
      assert forall v :: multiset(s)[v] == multiset(t)[v];
    }
  }

  lemma PermSameLength(s: seq<int>, t: seq<int>)
    requires Perm(s, t)
    ensures |s| == |t|
  {
    PermIsMultisetEquality(s, t);
    assert |multiset(s)| == |s| && |multiset(t)| == |t|;
  }

  // ----- rearrangements -----

  /** Swapping two places inside a stretch rearranges it. */
  lemma SwapRearranges(s: seq<int>, lo: nat, hi: nat, i: nat, j: nat)
    requires lo <= i < hi <= |s| && lo <= j < hi
    ensures Rearranged(s, Swapped(s, i, j), lo, hi)
  {
    forall v ensures Count(s, v) == Count(Swapped(s, i, j), v) {
      CountUpdate(s, i, s[j], v);
      CountUpdate(s[i := s[j]], j, s[i], v);
    }
  }

  /** The values of the stretch itself, before and after, are a permutation of each other. */
  lemma RearrangedStretch(s: seq<int>, t: seq<int>, lo: nat, hi: nat)
    requires lo <= hi <= |s| && Rearranged(s, t, lo, hi)
    ensures Perm(s[lo..hi], t[lo..hi])
  {
    assert s[..lo] == t[..lo] && s[hi..] == t[hi..];
    forall v ensures Count(s[lo..hi], v) == Count(t[lo..hi], v) {
      CountSplit(s, lo, hi, v);
      CountSplit(t, lo, hi, v);
    }
  }

  /** Every value of the stretch afterwards was in the stretch before. */
  lemma RearrangedMember(s: seq<int>, t: seq<int>, lo: nat, hi: nat, k: nat) returns (j: nat)
    requires hi <= |s| && Rearranged(s, t, lo, hi) && lo <= k < hi
    ensures lo <= j < hi && s[j] == t[k]
  {
    RearrangedStretch(s, t, lo, hi);
    assert t[k] == t[lo..hi][k - lo];
    CountMember(s[lo..hi], t[k]);
    CountMember(t[lo..hi], t[k]);
    var i :| 0 <= i < hi - lo && s[lo..hi][i] == t[k];
    j := lo + i;
  }

  /** A sorted sequence is determined by its values. */
  lemma {:induction false} SortedUnique(s: seq<int>, t: seq<int>)
    requires Sorted(s) && Sorted(t) && Perm(s, t)
    ensures s == t
  {
    PermSameLength(s, t);
    if s != [] {
      CountMember(s, t[0]);
      CountMember(t, s[0]);
      CountMember(s, s[0]);
      CountMember(t, t[0]);
      assert s[0] == t[0];
      forall v ensures Count(s[1..], v) == Count(t[1..], v) {
        assert Count(s, v) == Count(t, v);
      }
      SortedUnique(s[1..], t[1..]);
      assert s == [s[0]] + s[1..] && t == [t[0]] + t[1..];
    }
  }
}
