/** The block partition: misplaced elements on either side are remembered as bits of two 64-bit masks,
    swapped pairwise, and whatever one mask still holds at the end is moved to the middle. */
module BlockPartition {
  import opened PowersOfTwo
  import opened Bitset64
  import opened Rearranging

  const BLOCK_PIVOT_MAX_WALL_SZ: nat := 64

  // ----- what the masks mean -----

  /** On `[first, top)`, bit `b` of `lhs` is set iff the element `b + 1` places before `ffirst` is at least `pivot`. */
  ghost predicate LeftMask(s: seq<int>, first: int, top: int, ffirst: int, lhs: nat, pivot: int)
  {
    && 0 <= first <= top <= ffirst <= |s|
    && (forall i :: first <= i < top ==> (s[i] >= pivot <==> Bit(lhs, ffirst - 1 - i)))
    && (forall b: nat :: Bit(lhs, b) ==> b < WIDTH && first <= ffirst - 1 - b < top)
  }

  /** On `[bottom, end)`, bit `b` of `rhs` is set iff the element `b` places after `llast` is below `pivot`. */
  ghost predicate RightMask(s: seq<int>, bottom: int, end: int, llast: int, rhs: nat, pivot: int)
  {
    && 0 <= llast <= bottom <= end <= |s|
    && (forall i :: bottom <= i < end ==> (s[i] < pivot <==> Bit(rhs, i - llast)))
    && (forall b: nat :: Bit(rhs, b) ==> b < WIDTH && bottom <= llast + b < end)
  }

  // ----- extraction -----

  /** `uint64_t(c) << i`. */
  function BitIf(c: bool, i: nat): nat
  {
    if c then Pow2(i) else 0
  }

  /** `m |= uint64_t(c) << i`. */
  function WithBit(m: Mask, c: bool, i: nat): (r: Mask)
    requires i < WIDTH
  {
    Pow64();
    Pow2Monotone(i, WIDTH);
    OrBelow(m, BitIf(c, i), WIDTH);
    Or(m, BitIf(c, i))
  }

  lemma WithBitSets(m: Mask, c: bool, i: nat, k: nat)
    requires i < WIDTH
    ensures Bit(WithBit(m, c, i), k) <==> Bit(m, k) || (c && k == i)
  {
    if c {
      SetBit(m, i, k);
    } else {
      OrZero(m);
    }
  }

  method ExtractGreaterEqFromLeft(a: array<int>, first: nat, pivot: int, sz: nat) returns (mask: Mask)
    requires sz <= WIDTH && first + sz <= a.Length
    ensures forall b: nat :: Bit(mask, b) <==> b < sz && a[first + sz - 1 - b] >= pivot
  {
    mask := 0;
    forall b: nat ensures !Bit(0, b) { ZeroHasNoBits(b); }
    for i := 0 to sz
      invariant forall b: nat :: Bit(mask, b) <==> sz - i <= b < sz && a[first + sz - 1 - b] >= pivot
    {
      var reverseIdx := (sz - 1) - i;
      ghost var before := mask;
      mask := WithBit(mask, a[first + i] >= pivot, reverseIdx);
      forall b: nat ensures Bit(mask, b) <==> Bit(before, b) || (a[first + i] >= pivot && b == reverseIdx) {
        WithBitSets(before, a[first + i] >= pivot, reverseIdx, b);
      }
    }
  }

  method ExtractLesserFromRight(a: array<int>, last: nat, pivot: int, sz: nat) returns (mask: Mask)
    requires sz <= WIDTH && sz <= last <= a.Length
    ensures forall b: nat :: Bit(mask, b) <==> b < sz && a[last - sz + b] < pivot
  {
    mask := 0;
    forall b: nat ensures !Bit(0, b) { ZeroHasNoBits(b); }
    for i := 0 to sz
      invariant forall b: nat :: Bit(mask, b) <==> sz - i <= b < sz && a[last - sz + b] < pivot
    {
      var reverseIdx := sz - (i + 1);
      ghost var before := mask;
      mask := WithBit(mask, a[last - (i + 1)] < pivot, reverseIdx);
      forall b: nat ensures Bit(mask, b) <==> Bit(before, b) || (a[last - (i + 1)] < pivot && b == reverseIdx) {
        WithBitSets(before, a[last - (i + 1)] < pivot, reverseIdx, b);
      }
    }
  }

  const MAX_MASK: Mask := 0xFFFF_FFFF_FFFF_FFFF

  /** The full-block version collects the elements below the pivot and flips the mask. */
  method ExtractGreaterEqBlock(a: array<int>, first: nat, pivot: int) returns (mask: Mask)
    requires first + BLOCK_PIVOT_MAX_WALL_SZ <= a.Length
    ensures forall b: nat :: Bit(mask, b) <==> b < WIDTH && a[first + WIDTH - 1 - b] >= pivot
  {
    var lesser: Mask := 0;
    forall b: nat ensures !Bit(0, b) { ZeroHasNoBits(b); }
    for i := 0 to BLOCK_PIVOT_MAX_WALL_SZ
      invariant forall b: nat :: Bit(lesser, b) <==> WIDTH - i <= b < WIDTH && a[first + WIDTH - 1 - b] < pivot
    {
      var reverseIdx := (BLOCK_PIVOT_MAX_WALL_SZ - 1) - i;
      ghost var before := lesser;
      lesser := WithBit(lesser, a[first + i] < pivot, reverseIdx);
      forall b: nat ensures Bit(lesser, b) <==> Bit(before, b) || (a[first + i] < pivot && b == reverseIdx) {
        WithBitSets(before, a[first + i] < pivot, reverseIdx, b);
      }
    }
    mask := And(MAX_MASK - lesser, MAX_MASK);
    forall b: nat ensures Bit(mask, b) <==> b < WIDTH && !Bit(lesser, b) {
      FlippedBit(lesser, b);
    }
  }

  lemma FlippedBit(x: Mask, b: nat)
    ensures Bit(And(MAX_MASK - x, MAX_MASK), b) <==> b < WIDTH && !Bit(x, b)
  {
    Pow64();
    BitAnd(MAX_MASK - x, MAX_MASK, b);
    if b < WIDTH {
      ZeroHasNoBits(b);
      Complement(x, WIDTH, b);
      Complement(0, WIDTH, b);
    } else if Bit(MAX_MASK, b) {
      BitBelow(MAX_MASK, WIDTH, b);
    }
  }

  method ExtractLesserBlock(a: array<int>, last: nat, pivot: int) returns (mask: Mask)
    requires BLOCK_PIVOT_MAX_WALL_SZ <= last <= a.Length
    ensures forall b: nat :: Bit(mask, b) <==> b < WIDTH && a[last - WIDTH + b] < pivot
  {
    var first := last - BLOCK_PIVOT_MAX_WALL_SZ;
    mask := 0;
    forall b: nat ensures !Bit(0, b) { ZeroHasNoBits(b); }
    for i := 0 to BLOCK_PIVOT_MAX_WALL_SZ
      invariant forall b: nat :: Bit(mask, b) <==> b < i && a[first + b] < pivot
    {
      ghost var before := mask;
      mask := WithBit(mask, a[first + i] < pivot, i);
      forall b: nat ensures Bit(mask, b) <==> Bit(before, b) || (a[first + i] < pivot && b == i) {
        WithBitSets(before, a[first + i] < pivot, i, b);
      }
    }
  }

  // ----- swapping out misplaced pairs -----

  /** The state of a partition of `[first, last)` around the pivot value parked at `last - 1`. */
  ghost predicate Partitioning(s: seq<int>, first: int, last: int, ffirst: int, llast: int, lhs: nat, rhs: nat)
  {
    && 0 <= first <= ffirst <= llast < last <= |s|
    && LeftMask(s, first, ffirst, ffirst, lhs, s[last - 1])
    && RightMask(s, llast, last - 1, llast, rhs, s[last - 1])
  }

  /** Dropping the lowest bit of both masks and swapping the two elements it stood for keeps the state. */
  lemma SwapPair(s: seq<int>, first: nat, last: nat, ffirst: nat, llast: nat, lhs: nat, rhs: nat)
    requires Partitioning(s, first, last, ffirst, llast, lhs, rhs)
    requires lhs != 0 && rhs != 0
    ensures first <= ffirst - (CountrZero(lhs) + 1) && llast + CountrZero(rhs) < last - 1
    ensures Partitioning(Swapped(s, ffirst - (CountrZero(lhs) + 1), llast + CountrZero(rhs)),
                         first, last, ffirst, llast, And(lhs, lhs - 1), And(rhs, rhs - 1))
  {
    var i, j := ffirst - (CountrZero(lhs) + 1), llast + CountrZero(rhs);
    assert Bit(lhs, CountrZero(lhs)) && Bit(rhs, CountrZero(rhs));
    forall b: nat { ClearLowest(lhs, b); }
    forall b: nat { ClearLowest(rhs, b); }
  }

  lemma PairInside(s: seq<int>, first: nat, last: nat, ffirst: nat, llast: nat, lhs: nat, rhs: nat)
    requires Partitioning(s, first, last, ffirst, llast, lhs, rhs) && lhs != 0 && rhs != 0
    ensures first <= ffirst - (CountrZero(lhs) + 1) && llast + CountrZero(rhs) < last - 1
  {
    assert Bit(lhs, CountrZero(lhs)) && Bit(rhs, CountrZero(rhs));
  }

  lemma PairSwapped(before: seq<int>, s: seq<int>, t: seq<int>, first: nat, last: nat, ffirst: nat, llast: nat, lhs: nat, rhs: nat,
                    i: nat, j: nat)
    requires Partitioning(s, first, last, ffirst, llast, lhs, rhs) && lhs != 0 && rhs != 0 && Rearranged(before, s, first, last)
    requires i == ffirst - (CountrZero(lhs) + 1) && j == llast + CountrZero(rhs) && i < |s| && j < |s| && t == Swapped(s, i, j)
    ensures Partitioning(t, first, last, ffirst, llast, And(lhs, lhs - 1), And(rhs, rhs - 1))
    ensures Rearranged(before, t, first, last) && t[last - 1] == s[last - 1]
  {
    SwapPair(s, first, last, ffirst, llast, lhs, rhs);
    SwapRearranges(s, first, last, i, j);
  }

  lemma ClearShrinks(x: nat)
    requires x != 0
    ensures And(x, x - 1) < x
  {
    if And(x, x - 1) == x {
      ClearLowest(x, CountrZero(x));
    }
  }

  method DrainPairs(a: array<int>, ghost first: nat, ghost last: nat, ffirst: nat, llast: nat, lhs: Mask, rhs: Mask)
    returns (lhs': Mask, rhs': Mask)
    requires Partitioning(a[..], first, last, ffirst, llast, lhs, rhs)
    modifies a
    ensures Partitioning(a[..], first, last, ffirst, llast, lhs', rhs')
    ensures Rearranged(old(a[..]), a[..], first, last)
    ensures a[last - 1] == old(a[last - 1])
    ensures lhs' == 0 || rhs' == 0
  {
    lhs', rhs' := lhs, rhs;
    ghost var s := a[..];
    while lhs' != 0 && rhs' != 0
      invariant Partitioning(a[..], first, last, ffirst, llast, lhs', rhs')
      invariant Rearranged(s, a[..], first, last) && a[..][last - 1] == s[last - 1]
      decreases lhs'
    {
      var lhsBackIdx := CountrZero(lhs') + 1;
      var rhsForwardIdx := CountrZero(rhs');
      PairInside(a[..], first, last, ffirst, llast, lhs', rhs');
      var i, j := ffirst - lhsBackIdx, llast + rhsForwardIdx;
      ghost var t := Swapped(a[..], i, j);
      PairSwapped(s, a[..], t, first, last, ffirst, llast, lhs', rhs', i, j);
      ClearShrinks(lhs');
      lhs' := And(lhs', lhs' - 1);
      rhs' := And(rhs', rhs' - 1);
      Swap(a, i, j);
      assert a[..] == t;
    }
  }

  // ----- refilling an empty mask -----

  lemma RefilledLeft(s: seq<int>, first: nat, last: nat, ffirst: nat, llast: nat, sz: nat, lhs: nat, rhs: nat)
    requires Partitioning(s, first, last, ffirst, llast, 0, rhs)
    requires sz <= WIDTH && ffirst + sz <= llast
    requires forall b: nat :: Bit(lhs, b) <==> b < sz && s[ffirst + sz - 1 - b] >= s[last - 1]
    ensures Partitioning(s, first, last, ffirst + sz, llast, lhs, rhs)
  {
    forall b: nat ensures !Bit(0, b) { ZeroHasNoBits(b); }
  }

  lemma RefilledRight(s: seq<int>, first: nat, last: nat, ffirst: nat, llast: nat, sz: nat, lhs: nat, rhs: nat)
    requires Partitioning(s, first, last, ffirst, llast, lhs, 0)
    requires sz <= WIDTH && ffirst + sz <= llast
    requires forall b: nat :: Bit(rhs, b) <==> b < sz && s[llast - sz + b] < s[last - 1]
    ensures Partitioning(s, first, last, ffirst, llast - sz, lhs, rhs)
  {
    forall b: nat ensures !Bit(0, b) { ZeroHasNoBits(b); }
  }

  /** Reads the next `sz` elements from the left into the empty left mask. */
  method RefillLeft(a: array<int>, ghost first: nat, last: nat, ffirst: nat, ghost llast: nat, sz: nat, ghost rhs: Mask)
    returns (lhs: Mask)
    requires Partitioning(a[..], first, last, ffirst, llast, 0, rhs)
    requires sz <= WIDTH && ffirst + sz <= llast
    ensures Partitioning(a[..], first, last, ffirst + sz, llast, lhs, rhs)
  {
    if sz == BLOCK_PIVOT_MAX_WALL_SZ {
      lhs := ExtractGreaterEqBlock(a, ffirst, a[last - 1]);
    } else {
      lhs := ExtractGreaterEqFromLeft(a, ffirst, a[last - 1], sz);
    }
    RefilledLeft(a[..], first, last, ffirst, llast, sz, lhs, rhs);
  }

  /** Reads the previous `sz` elements from the right into the empty right mask. */
  method RefillRight(a: array<int>, ghost first: nat, last: nat, ghost ffirst: nat, llast: nat, sz: nat, ghost lhs: Mask)
    returns (rhs: Mask)
    requires Partitioning(a[..], first, last, ffirst, llast, lhs, 0)
    requires sz <= WIDTH && ffirst + sz <= llast
    ensures Partitioning(a[..], first, last, ffirst, llast - sz, lhs, rhs)
  {
    if sz == BLOCK_PIVOT_MAX_WALL_SZ {
      rhs := ExtractLesserBlock(a, llast, a[last - 1]);
    } else {
      rhs := ExtractLesserFromRight(a, llast, a[last - 1], sz);
    }
    RefilledRight(a[..], first, last, ffirst, llast, sz, lhs, rhs);
  }

  lemma NothingRead(s: seq<int>, first: nat, last: nat)
    requires first < last <= |s|
    ensures Partitioning(s, first, last, first, last - 1, 0, 0)
  {
    forall b: nat ensures !Bit(0, b) { ZeroHasNoBits(b); }
  }

  /** The main loop: drain pairs, then refill whichever mask is empty, while a whole block is left. */
  method FillBlocks(a: array<int>, first: nat, last: nat)
    returns (ffirst: nat, llast: nat, lhs: Mask, rhs: Mask)
    requires first < last <= a.Length
    modifies a
    ensures Partitioning(a[..], first, last, ffirst, llast, lhs, rhs)
    ensures Rearranged(old(a[..]), a[..], first, last)
    ensures a[last - 1] == old(a[last - 1])
    ensures lhs == 0 || rhs == 0
    ensures llast - ffirst < BLOCK_PIVOT_MAX_WALL_SZ
  {
    ffirst, llast, lhs, rhs := first, last - 1, 0, 0;
    NothingRead(a[..], first, last);
    while true
      invariant Partitioning(a[..], first, last, ffirst, llast, lhs, rhs)
      invariant Rearranged(old(a[..]), a[..], first, last)
      invariant a[last - 1] == old(a[last - 1])
      decreases llast - ffirst
    {
      lhs, rhs := DrainPairs(a, first, last, ffirst, llast, lhs, rhs);
      if llast - ffirst < BLOCK_PIVOT_MAX_WALL_SZ {
        break;
      }
      if lhs == 0 {
        lhs := RefillLeft(a, first, last, ffirst, llast, BLOCK_PIVOT_MAX_WALL_SZ, rhs);
        ffirst := ffirst + BLOCK_PIVOT_MAX_WALL_SZ;
      } else {
        rhs := RefillRight(a, first, last, ffirst, llast, BLOCK_PIVOT_MAX_WALL_SZ, lhs);
        llast := llast - BLOCK_PIVOT_MAX_WALL_SZ;
      }
    }
  }

  /** The last, partial block: both masks now meet at one place. */
  method FillRemainder(a: array<int>, first: nat, last: nat, ffirst: nat, llast: nat, lhs: Mask, rhs: Mask)
    returns (middle: nat, lhs': Mask, rhs': Mask)
    requires Partitioning(a[..], first, last, ffirst, llast, lhs, rhs)
    requires lhs == 0 || rhs == 0
    requires llast - ffirst < BLOCK_PIVOT_MAX_WALL_SZ
    modifies a
    ensures Partitioning(a[..], first, last, middle, middle, lhs', rhs')
    ensures Rearranged(old(a[..]), a[..], first, last)
    ensures a[last - 1] == old(a[last - 1])
    ensures lhs' == 0 || rhs' == 0
  {
    var afterSz := llast - ffirst;
    if lhs == 0 {
      lhs' := RefillLeft(a, first, last, ffirst, llast, afterSz, rhs);
      middle, rhs' := ffirst + afterSz, rhs;
    } else {
      rhs' := RefillRight(a, first, last, ffirst, llast, afterSz, lhs);
      middle, lhs' := llast - afterSz, lhs;
    }
    lhs', rhs' := DrainPairs(a, first, last, middle, middle, lhs', rhs');
  }

  // ----- what one mask still holds at the end -----

  /** Everything in `[top, last)` is at least the pivot; below `top` the mask says which elements are. */
  ghost predicate LeftLeftovers(s: seq<int>, first: int, last: int, top: int, ffirst: int, lhs: nat)
  {
    && 0 <= first <= top <= ffirst < last <= |s|
    && LeftMask(s, first, top, ffirst, lhs, s[last - 1])
    && (forall i :: top <= i < last ==> s[i] >= s[last - 1])
  }

  lemma MoveLeftover(before: seq<int>, s: seq<int>, t: seq<int>, first: nat, last: nat, back: nat, at: nat, ffirst: nat, lhs: nat)
    requires LeftLeftovers(s, first, last, back + 1, ffirst, lhs) && lhs != 0
    requires Rearranged(before, s, first, last) && at == ffirst - (CountrZero(lhs) + 1) && at < |s| && t == Swapped(s, back, at)
    ensures LeftLeftovers(t, first, last, back, ffirst, And(lhs, lhs - 1))
    ensures Rearranged(before, t, first, last) && t[last - 1] == s[last - 1]
  {
    LeftoverMoved(s, first, last, back + 1, ffirst, lhs);
    SwapRearranges(s, first, last, back, at);
  }

  lemma LeftoverAt(s: seq<int>, first: nat, last: nat, top: nat, ffirst: nat, lhs: nat)
    requires LeftLeftovers(s, first, last, top, ffirst, lhs) && lhs != 0
    ensures first <= ffirst - (CountrZero(lhs) + 1) < top
  {
    assert Bit(lhs, CountrZero(lhs));
  }

  lemma LeftoverMoved(s: seq<int>, first: nat, last: nat, top: nat, ffirst: nat, lhs: nat)
    requires LeftLeftovers(s, first, last, top, ffirst, lhs) && lhs != 0
    ensures first <= ffirst - (CountrZero(lhs) + 1) < top
    ensures LeftLeftovers(Swapped(s, top - 1, ffirst - (CountrZero(lhs) + 1)), first, last, top - 1, ffirst, And(lhs, lhs - 1))
  {
    var c := CountrZero(lhs);
    var p := ffirst - (c + 1);
    var t, lhs' := Swapped(s, top - 1, p), And(lhs, lhs - 1);
    assert Bit(lhs, c);
    forall b: nat ensures Bit(lhs', b) <==> Bit(lhs, b) && b != c { ClearLowest(lhs, b); }
    if p < top - 1 {
      assert !Bit(lhs, ffirst - 1 - (top - 1));
      assert s[top - 1] < s[last - 1];
    }
    forall i | first <= i < top - 1 ensures t[i] >= t[last - 1] <==> Bit(lhs', ffirst - 1 - i) {
      assert i != p ==> t[i] == s[i];
    }
    assert LeftMask(t, first, top - 1, ffirst, lhs', t[last - 1]);
  }

  /** Swaps what the left mask still holds to the end of the left side, which then ends at `bound`. */
  method MoveLeftovers(a: array<int>, ghost first: nat, ghost last: nat, ffirst: nat, leftovers: Mask) returns (bound: nat)
    requires LeftLeftovers(a[..], first, last, ffirst, ffirst, leftovers)
    modifies a
    ensures LeftLeftovers(a[..], first, last, bound, ffirst, 0)
    ensures Rearranged(old(a[..]), a[..], first, last)
    ensures a[last - 1] == old(a[last - 1])
  {
    var lhs := leftovers;
    var backPtr := ffirst - 1;
    ghost var s := a[..];
    while lhs != 0
      invariant -1 <= backPtr
      invariant LeftLeftovers(a[..], first, last, backPtr + 1, ffirst, lhs)
      invariant Rearranged(s, a[..], first, last) && a[..][last - 1] == s[last - 1]
      decreases lhs
    {
      var backIdx := CountrZero(lhs);
      var at := ffirst - (backIdx + 1);
      LeftoverAt(a[..], first, last, backPtr + 1, ffirst, lhs);
      ghost var t := Swapped(a[..], backPtr, at);
      MoveLeftover(s, a[..], t, first, last, backPtr, at, ffirst, lhs);
      ClearShrinks(lhs);
      lhs := And(lhs, lhs - 1);
      Swap(a, backPtr, at);
      assert a[..] == t;
      backPtr := backPtr - 1;
    }
    bound := backPtr + 1;
  }

  /** Everything in `[first, bottom)` is below the pivot; from `bottom` the mask says which elements are. */
  ghost predicate RightLeftovers(s: seq<int>, first: int, last: int, bottom: int, llast: int, rhs: nat)
  {
    && 0 <= first <= llast <= bottom < last <= |s|
    && RightMask(s, bottom, last - 1, llast, rhs, s[last - 1])
    && (forall i :: first <= i < bottom ==> s[i] < s[last - 1])
  }

  lemma MoveRightLeftover(s: seq<int>, first: nat, last: nat, bottom: nat, llast: nat, rhs: nat)
    requires RightLeftovers(s, first, last, bottom, llast, rhs) && rhs != 0
    ensures bottom <= llast + CountrZero(rhs) < last - 1
    ensures RightLeftovers(Swapped(s, bottom, llast + CountrZero(rhs)), first, last, bottom + 1, llast, And(rhs, rhs - 1))
  {
    var c := CountrZero(rhs);
    var p := llast + c;
    var t, rhs' := Swapped(s, bottom, p), And(rhs, rhs - 1);
    assert Bit(rhs, c);
    forall b: nat ensures Bit(rhs', b) <==> Bit(rhs, b) && b != c { ClearLowest(rhs, b); }
    if bottom < p {
      assert !Bit(rhs, bottom - llast);
      assert s[bottom] >= s[last - 1];
    }
    forall i | bottom < i < last - 1 ensures t[i] < t[last - 1] <==> Bit(rhs', i - llast) {
      assert i != p ==> t[i] == s[i];
    }
    assert RightMask(t, bottom + 1, last - 1, llast, rhs', t[last - 1]);
  }

  /** Swaps what the right mask still holds to the start of the right side, which then starts at `bound`. */
  method MoveRightLeftovers(a: array<int>, ghost first: nat, ghost last: nat, llast: nat, leftovers: Mask) returns (bound: nat)
    requires RightLeftovers(a[..], first, last, llast, llast, leftovers)
    modifies a
    ensures RightLeftovers(a[..], first, last, bound, llast, 0)
    ensures Rearranged(old(a[..]), a[..], first, last)
    ensures a[last - 1] == old(a[last - 1])
  {
    var rhs := leftovers;
    bound := llast;
    while rhs != 0
      invariant RightLeftovers(a[..], first, last, bound, llast, rhs)
      invariant Rearranged(old(a[..]), a[..], first, last)
      invariant a[last - 1] == old(a[last - 1])
      decreases rhs
    {
      var frontIdx := CountrZero(rhs);
      MoveRightLeftover(a[..], first, last, bound, llast, rhs);
      SwapRearranges(a[..], first, last, bound, llast + frontIdx);
      ClearShrinks(rhs);
      rhs := And(rhs, rhs - 1);
      Swap(a, bound, llast + frontIdx);
      bound := bound + 1;
    }
  }

  // ----- the partition -----

  /** `p` splits `[first, last)`: smaller values before it, values at least as large after it. */
  ghost predicate Split(s: seq<int>, first: int, last: int, p: int)
  {
    && 0 <= first <= p < last <= |s|
    && (forall i :: first <= i < p ==> s[i] < s[p])
    && (forall i :: p < i < last ==> s[i] >= s[p])
  }

  method PivotPartition(a: array<int>, first: nat, last: nat, pivot: nat) returns (p: nat)
    requires first <= pivot < last <= a.Length
    modifies a
    ensures Split(a[..], first, last, p)
    ensures a[p] == old(a[pivot])
    ensures Rearranged(old(a[..]), a[..], first, last)
  {
    SwapRearranges(a[..], first, last, last - 1, pivot);
    Swap(a, last - 1, pivot);
    var ffirst, llast, lhs, rhs := FillBlocks(a, first, last);
    var middle;
    middle, lhs, rhs := FillRemainder(a, first, last, ffirst, llast, lhs, rhs);
    p := PlacePivot(a, first, last, middle, lhs, rhs);
  }

  /** With the pivot value parked at the end, the lesser elements stand before `p` and the others from `p` on. */
  ghost predicate Parted(s: seq<int>, first: int, last: int, p: int)
  {
    && 0 <= first <= p < last <= |s|
    && (forall i :: first <= i < p ==> s[i] < s[last - 1])
    && (forall i :: p <= i < last - 1 ==> s[i] >= s[last - 1])
  }

  lemma {:induction false} PartedSplits(s: seq<int>, first: nat, last: nat, p: nat)
    requires Parted(s, first, last, p)
    ensures Split(Swapped(s, p, last - 1), first, last, p) && Swapped(s, p, last - 1)[p] == s[last - 1]
  {}

  /** Whichever mask is left over, its elements move to the middle. */
  method MoveEither(a: array<int>, ghost first: nat, ghost last: nat, middle: nat, lhs: Mask, rhs: Mask) returns (p: nat)
    requires Partitioning(a[..], first, last, middle, middle, lhs, rhs)
    requires lhs == 0 || rhs == 0
    modifies a
    ensures Parted(a[..], first, last, p) && a[last - 1] == old(a[last - 1])
    ensures Rearranged(old(a[..]), a[..], first, last)
  {
    forall b: nat ensures !Bit(0, b) { ZeroHasNoBits(b); }
    if lhs != 0 {
      p := MoveLeftovers(a, first, last, middle, lhs);
    } else if rhs != 0 {
      p := MoveRightLeftovers(a, first, last, middle, rhs);
    } else {
      p := middle;
    }
  }

  /** Moves what is left in one mask to the middle and swaps the parked pivot value between the sides. */
  method PlacePivot(a: array<int>, first: nat, last: nat, middle: nat, lhs: Mask, rhs: Mask) returns (p: nat)
    requires Partitioning(a[..], first, last, middle, middle, lhs, rhs)
    requires lhs == 0 || rhs == 0
    modifies a
    ensures Split(a[..], first, last, p)
    ensures a[p] == old(a[last - 1])
    ensures Rearranged(old(a[..]), a[..], first, last)
  {
    p := MoveEither(a, first, last, middle, lhs, rhs);
    PartedSplits(a[..], first, last, p);
    SwapRearranges(a[..], first, last, p, last - 1);
    Swap(a, p, last - 1);
  }
}
