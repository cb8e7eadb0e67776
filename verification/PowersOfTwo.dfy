/** Powers of two, the rounding functions built on them, and alignment of addresses. */
module PowersOfTwo {

  function Pow2(n: nat): (p: nat)
    ensures p > n
  {
    if n == 0 then 1 else 2 * Pow2(n - 1)
  }

  ghost predicate IsPow2(x: nat)
  {
    exists n: nat :: x == Pow2(n)
  }

  /** `ulog2`: the position of the highest set bit. */
  function ULog2(x: nat): (r: nat)
    requires x > 0
    ensures Pow2(r) <= x < Pow2(r + 1)
  {
    if x == 1 then 0 else 1 + ULog2(x / 2)
  }

  /** `ceil2`: the least power of two that is at least `x`. */
  function Ceil2(x: nat): (r: nat)
    ensures IsPow2(r) && r >= x && r >= 1
    ensures x >= 2 ==> r < 2 * x
  {
    if x < 2 then
      assert Pow2(0) == 1;
      1
    else
      Pow2(ULog2(x - 1) + 1)
  }

  lemma {:induction false} Pow2Monotone(m: nat, n: nat)
    requires m <= n
    ensures Pow2(m) <= Pow2(n)
    ensures m < n ==> 2 * Pow2(m) <= Pow2(n)
  {
    if m < n {
      Pow2Monotone(m, n - 1);
    }
  }

  /** No power of two that is at least `x` is smaller than `Ceil2(x)`. */
  lemma {:induction false} Ceil2Least(x: nat, p: nat)
    requires IsPow2(p) && p >= x
    ensures Ceil2(x) <= p
  {
    var n: nat :| p == Pow2(n);
    if x >= 2 {
      var l := ULog2(x - 1);
      if n <= l {
        Pow2Monotone(n, l);
      } else {
        Pow2Monotone(l + 1, n);
      }
    }
  }

  lemma Ceil2OfPow2(p: nat)
    requires IsPow2(p)
    ensures Ceil2(p) == p
  {
    Ceil2Least(p, p);
  }

  lemma {:induction false} Pow2Doubles(p: nat)
    requires IsPow2(p)
    ensures IsPow2(2 * p)
  {
    var n: nat :| p == Pow2(n);
    assert 2 * p == Pow2(n + 1);
  }

  lemma Pow2Byte(n: nat)
    ensures Pow2(n + 8) == 256 * Pow2(n)
  {
    assert Pow2(n + 4) == 16 * Pow2(n) by {
      assert Pow2(n + 2) == 4 * Pow2(n) by { assert Pow2(n + 1) == 2 * Pow2(n); }
      assert Pow2(n + 3) == 2 * Pow2(n + 2);
    }
    assert Pow2(n + 6) == 4 * Pow2(n + 4) by { assert Pow2(n + 5) == 2 * Pow2(n + 4); }
    assert Pow2(n + 7) == 2 * Pow2(n + 6);
  }

  lemma Pow32()
    ensures Pow2(32) == 0x1_0000_0000
  {
    Pow2Byte(0);
    assert Pow2(8) == 0x100;
    Pow2Byte(8);
    assert Pow2(16) == 0x1_0000;
    Pow2Byte(16);
    assert Pow2(24) == 0x100_0000;
    Pow2Byte(24);
  }

  lemma Pow64()
    ensures Pow2(64) == 0x1_0000_0000_0000_0000
  {
    Pow32();
    Pow2Byte(32);
    assert Pow2(40) == 0x100_0000_0000;
    Pow2Byte(40);
    assert Pow2(48) == 0x1_0000_0000_0000;
    Pow2Byte(48);
    assert Pow2(56) == 0x100_0000_0000_0000;
    Pow2Byte(56);
  }

  // ----- alignment -----

  /** `(buf + (a - 1)) & ~(a - 1)` for a power of two `a`. */
  function AlignUp(buf: nat, a: nat): (r: nat)
    requires a > 0
    ensures r % a == 0 && buf <= r < buf + a
  {
    var q := (buf + a - 1) / a;
    assert q * a % a == 0 by { MultipleOf(q, a); }
    q * a
  }

  lemma MultipleOf(q: nat, a: nat)
    requires a > 0
    ensures q * a % a == 0 && q * a / a == q
  {
    var d, r := q * a / a, q * a % a;
    var k := q - d;
    assert q * a == d * a + r;
    assert k * a == r;
    Multiple(k, a);
  }

  lemma Multiple(k: int, a: int)
    requires a >= 0
    ensures k >= 1 ==> k * a >= a
    ensures k <= -1 ==> k * a <= -a
  {
    if k >= 1 {
      assert (k - 1) * a >= 0;
    } else if k <= -1 {
      assert (-1 - k) * a >= 0;
    }
  }
}
