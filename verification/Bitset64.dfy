/** Unsigned 64-bit masks with the bitwise operations the block partition uses, each defined digit by
    digit, and read as sets of bit positions. */
module Bitset64 {
  import opened PowersOfTwo

  const WIDTH: nat := 64

  /** A value of `uint64_t`. */
  type Mask = x: nat | x < 0x1_0000_0000_0000_0000

  /** True iff bit `k` of `x` is set. */
  predicate Bit(x: nat, k: nat)
    decreases k
  {
    if k == 0 then x % 2 == 1 else Bit(x / 2, k - 1)
  }

  /** `x & y`. */
  function And(x: nat, y: nat): (r: nat)
    ensures r <= x
  {
    if x == 0 then 0 else 2 * And(x / 2, y / 2) + (x % 2) * (y % 2)
  }

  /** `x | y`. */
  function Or(x: nat, y: nat): nat
  {
    if x == 0 then y else 2 * Or(x / 2, y / 2) + (if x % 2 == 1 || y % 2 == 1 then 1 else 0)
  }

  /** The number of trailing zero bits, `std::countr_zero`. */
  function CountrZero(x: nat): (r: nat)
    requires x != 0
    ensures Bit(x, r)
    ensures forall k: nat :: k < r ==> !Bit(x, k)
  {
    if x % 2 == 1 then 0 else 1 + CountrZero(x / 2)
  }

  // ----- the mask operations as operations on the set of positions -----

  lemma {:induction false} BitAnd(x: nat, y: nat, k: nat)
    ensures Bit(And(x, y), k) <==> Bit(x, k) && Bit(y, k)
    decreases k
  {
    if x == 0 {
      ZeroHasNoBits(k);
    } else if k > 0 {
      BitAnd(x / 2, y / 2, k - 1);
    }
  }

  /** `x & (x - 1)` clears exactly the lowest set bit. */
  lemma {:induction false} ClearLowest(x: nat, k: nat)
    requires x != 0
    ensures Bit(And(x, x - 1), k) <==> Bit(x, k) && k != CountrZero(x)
    decreases k
  {
    BitAnd(x, x - 1, k);
    if k > 0 {
      if x % 2 == 1 {
        assert (x - 1) / 2 == x / 2;
      } else {
        assert (x - 1) / 2 == x / 2 - 1;
        BitAnd(x / 2, x / 2 - 1, k - 1);
        ClearLowest(x / 2, k - 1);
      }
    }
  }

  /** `x | (1 << i)` sets exactly bit `i`. */
  lemma {:induction false} SetBit(x: nat, i: nat, k: nat)
    ensures Bit(Or(x, Pow2(i)), k) <==> Bit(x, k) || k == i
    decreases k
  {
    OrHalf(x, Pow2(i));
    Pow2Half(i);
    if k > 0 {
      if i == 0 {
        OrZero(x / 2);
      } else {
        SetBit(x / 2, i - 1, k - 1);
      }
    }
  }

  lemma {:induction false} OrHalf(x: nat, y: nat)
    ensures Or(x, y) / 2 == Or(x / 2, y / 2)
    ensures Or(x, y) % 2 == 1 <==> x % 2 == 1 || y % 2 == 1
  {}

  lemma {:induction false} Pow2Half(i: nat)
    ensures i == 0 ==> Pow2(i) % 2 == 1 && Pow2(i) / 2 == 0
    ensures i > 0 ==> Pow2(i) % 2 == 0 && Pow2(i) / 2 == Pow2(i - 1)
  {
    if i > 0 {
      var p := Pow2(i - 1);
      assert Pow2(i) == 2 * p;
    }
  }

  lemma OrZero(x: nat)
    ensures Or(x, 0) == x
  {}

  lemma {:induction false} ZeroHasNoBits(k: nat)
    ensures !Bit(0, k)
  {
    if k > 0 {
      ZeroHasNoBits(k - 1);
    }
  }

  /** `~x` on an `n`-bit word flips every bit below `n`. */
  lemma {:induction false} Complement(x: nat, n: nat, k: nat)
    requires x < Pow2(n) && k < n
    ensures Bit(Pow2(n) - 1 - x, k) <==> !Bit(x, k)
    decreases k
  {
    HalfComplement(Pow2(n - 1), x);
    if k > 0 {
      Complement(x / 2, n - 1, k - 1);
    }
  }

  lemma HalfComplement(p: nat, x: nat)
    requires x < 2 * p
    ensures (2 * p - 1 - x) / 2 == p - 1 - x / 2
    ensures (2 * p - 1 - x) % 2 == 1 - x % 2
  {}

  /** A number below `2^n` has no bit at `n` or above. */
  lemma {:induction false} BitBelow(x: nat, n: nat, k: nat)
    requires x < Pow2(n) && Bit(x, k)
    ensures k < n
    decreases k
  {
    if n == 0 {
      ZeroHasNoBits(k);
    } else if k > 0 {
      BitBelow(x / 2, n - 1, k - 1);
    }
  }

  lemma {:induction false} OrBelow(x: nat, y: nat, n: nat)
    requires x < Pow2(n) && y < Pow2(n)
    ensures Or(x, y) < Pow2(n)
    decreases n
  {
    if x != 0 && n > 0 {
      OrBelow(x / 2, y / 2, n - 1);
    }
  }
}
