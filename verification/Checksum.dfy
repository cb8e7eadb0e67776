/** Bytes, little-endian words and the integrity hash of the compact serializer. */
module Checksum {

  type byte = x: nat | x < 256

  // ----- little-endian words -----

  /** `dump`: the `size` bytes of an unsigned word, lowest first. */
  function LittleEndian(n: nat, size: nat): (bs: seq<byte>)
    ensures |bs| == size
  {
    if size == 0 then [] else [n % 256] + LittleEndian(n / 256, size - 1)
  }

  /** `load`. */
  function Load(bs: seq<byte>): nat
  {
    if bs == [] then 0 else bs[0] + 256 * Load(bs[1..])
  }

  /** `bs` stands at `pos` in `buf`. */
  ghost predicate At(buf: seq<byte>, pos: nat, bs: seq<byte>)
  {
    pos + |bs| <= |buf| && buf[pos..pos + |bs|] == bs
  }

  function Pow256(n: nat): (p: nat)
    ensures p > 0
  {
    if n == 0 then 1 else 256 * Pow256(n - 1)
  }

  lemma {:induction false} LoadDump(n: nat, size: nat)
    requires n < Pow256(size)
    ensures Load(LittleEndian(n, size)) == n
  {
    if size > 0 {
      LoadDump(n / 256, size - 1);
      assert LittleEndian(n, size)[1..] == LittleEndian(n / 256, size - 1);
    }
  }

  lemma {:induction false} LoadInjective(bs: seq<byte>, cs: seq<byte>)
    requires |bs| == |cs| && Load(bs) == Load(cs)
    ensures bs == cs
  {
    if bs != [] {
      LoadInjective(bs[1..], cs[1..]);
      assert bs == [bs[0]] + bs[1..] && cs == [cs[0]] + cs[1..];
    }
  }

  /** Changing byte `i` of a word changes its value by the difference times `256^i`. */
  lemma {:induction false} LoadChange(bs: seq<byte>, i: nat, b: byte)
    requires i < |bs|
    ensures Load(bs[i := b]) == Load(bs) + (b - bs[i]) * Pow256(i)
  {
    if i == 0 {
      assert bs[0 := b][1..] == bs[1..];
    } else {
      assert bs[i := b][1..] == bs[1..][i - 1 := b];
      LoadChange(bs[1..], i - 1, b);
      var d, p := b - bs[i], Pow256(i - 1);
      assert 256 * (d * p) == d * (256 * p);
    }
  }

  // ----- the hash -----

  const WORD: nat := 8
  const TWO64: nat := 0x1_0000_0000_0000_0000

  /** `numeric_limits<uint64_t>::max() >> 1`. */
  const MOD: nat := 0x7FFF_FFFF_FFFF_FFFF

  function Word(bs: seq<byte>, k: nat): nat
    requires (k + 1) * WORD <= |bs|
  {
    Load(bs[k * WORD..(k + 1) * WORD])
  }

  /** The running total after `k` words. */
  function HashWords(bs: seq<byte>, k: nat): (t: nat)
    requires k * WORD <= |bs|
    ensures t < MOD
  {
    if k == 0 then 0 else (HashWords(bs, k - 1) + Word(bs, k - 1) % MOD) % MOD
  }

  /** `checksum`: the sum of the bytes. */
  function ByteSum(bs: seq<byte>): nat
  {
    if bs == [] then 0 else ByteSum(bs[..|bs| - 1]) + bs[|bs| - 1]
  }

  function Hash(bs: seq<byte>): nat
  {
    var cycles := |bs| / WORD;
    HashWords(bs, cycles) + ByteSum(bs[cycles * WORD..]) % MOD
  }

  lemma Pow256Values()
    ensures Pow256(1) == 0x100 && Pow256(2) == 0x1_0000 && Pow256(3) == 0x100_0000 && Pow256(4) == 0x1_0000_0000
    ensures Pow256(5) == 0x100_0000_0000 && Pow256(6) == 0x1_0000_0000_0000 && Pow256(7) == 0x100_0000_0000_0000
    ensures Pow256(8) == TWO64
  {
    assert Pow256(1) == 256 * Pow256(0) && Pow256(2) == 256 * Pow256(1) && Pow256(3) == 256 * Pow256(2);
    assert Pow256(4) == 256 * Pow256(3) && Pow256(5) == 256 * Pow256(4) && Pow256(6) == 256 * Pow256(5);
    assert Pow256(7) == 256 * Pow256(6) && Pow256(8) == 256 * Pow256(7);
  }

  lemma {:induction false} ByteSumBound(bs: seq<byte>)
    ensures ByteSum(bs) <= 255 * |bs|
  {
    if bs != [] {
      ByteSumBound(bs[..|bs| - 1]);
    }
  }

  /** The hash fits the 64-bit word it is stored in. */
  lemma HashFits(bs: seq<byte>)
    ensures Hash(bs) < TWO64
  {}

  lemma SliceOfSlice(s: seq<byte>, lo: nat, hi: nat, i: nat, j: nat)
    requires lo <= hi <= |s| && i <= j <= hi - lo
    ensures s[lo..hi][i..j] == s[lo + i..lo + j]
  {
    var a, b := s[lo..hi][i..j], s[lo + i..lo + j];
    assert |a| == |b|;
    forall k | 0 <= k < |a| ensures a[k] == b[k] {
      assert a[k] == s[lo..hi][i + k] == s[lo + i + k];
    }
  }

  lemma WordOfStretch(s: seq<byte>, first: nat, sz: nat, i: nat)
    requires first + sz <= |s| && (i + 1) * WORD <= sz
    ensures Load(s[first + i * WORD..first + i * WORD + WORD]) == Word(s[first..first + sz], i)
  {
    SliceOfSlice(s, first, first + sz, i * WORD, (i + 1) * WORD);
  }

  /** Adding a word to the total does not wrap. */
  lemma HashWordsOneMore(bs: seq<byte>, i: nat)
    requires (i + 1) * WORD <= |bs|
    ensures (HashWords(bs, i) + Word(bs, i) % MOD) % TWO64 % MOD == HashWords(bs, i + 1)
  {
    NoWrap(HashWords(bs, i) + Word(bs, i) % MOD);
  }

  /** The word loop of `hash`, in 64-bit arithmetic that never wraps. */
  method SumWords(buf: array<byte>, ibuf0: nat, sz: nat, cycles: nat) returns (total: nat)
    requires ibuf0 + sz <= buf.Length && cycles * WORD <= sz
    ensures total == HashWords(buf[ibuf0..ibuf0 + sz], cycles)
  {
    var ibuf := ibuf0;
    total := 0;
    ghost var bs := buf[ibuf0..ibuf0 + sz];
    for i := 0 to cycles
      invariant ibuf == ibuf0 + i * WORD
      invariant total == HashWords(bs, i)
    {
      WordOfStretch(buf[..], ibuf0, sz, i);
      HashWordsOneMore(bs, i);
      var cur := Load(buf[ibuf..ibuf + WORD]);
      cur := cur % MOD;
      total := (total + cur) % TWO64;
      total := total % MOD;
      ibuf := ibuf + WORD;
    }
  }

  lemma ByteSumOneMore(bs: seq<byte>, i: nat)
    requires i < |bs|
    ensures (ByteSum(bs[..i]) % TWO64 + bs[i]) % TWO64 == ByteSum(bs[..i + 1]) % TWO64
  {
    assert bs[..i + 1][..i] == bs[..i];
  }

  /** `checksum`, in 64-bit arithmetic. */
  method SumBytes(buf: array<byte>, first: nat, sz: nat) returns (sum: nat)
    requires first + sz <= buf.Length
    ensures sum == ByteSum(buf[first..first + sz]) % TWO64
  {
    sum := 0;
    ghost var bs := buf[first..first + sz];
    for i := 0 to sz
      invariant sum == ByteSum(bs[..i]) % TWO64
    {
      ByteSumOneMore(bs, i);
      sum := (sum + buf[first + i]) % TWO64;
    }
    assert bs[..sz] == bs;
  }

  /** Word total and byte checksum make up the hash, without wrapping. */
  lemma HashOf(bs: seq<byte>, cycles: nat, tail: seq<byte>)
    requires cycles == |bs| / WORD && tail == bs[cycles * WORD..]
    ensures (HashWords(bs, cycles) + ByteSum(tail) % TWO64 % MOD) % TWO64 == Hash(bs)
  {
    ByteSumBound(tail);
    NoWrap(ByteSum(tail));
    HashFits(bs);
    NoWrap(Hash(bs));
  }

  lemma NoWrap(x: nat)
    requires x < TWO64
    ensures x % TWO64 == x
  {}

  /** `hash` as the source computes it. */
  method ComputeHash(buf: array<byte>, ibuf0: nat, sz: nat) returns (h: nat)
    requires ibuf0 + sz <= buf.Length
    ensures h == Hash(buf[ibuf0..ibuf0 + sz])
  {
    var cycles := sz / WORD;
    var total := SumWords(buf, ibuf0, sz, cycles);
    var rem := SumBytes(buf, ibuf0 + cycles * WORD, sz - cycles * WORD);
    ghost var bs, tail := buf[ibuf0..ibuf0 + sz], buf[ibuf0 + cycles * WORD..ibuf0 + sz];
    assert bs[cycles * WORD..] == tail;
    HashOf(bs, cycles, tail);
    rem := rem % MOD;
    h := (total + rem) % TWO64;
  }

  // ----- what the hash detects -----

  function WordSum(bs: seq<byte>, k: nat): nat
    requires k * WORD <= |bs|
  {
    if k == 0 then 0 else WordSum(bs, k - 1) + Word(bs, k - 1)
  }

  lemma {:induction false} HashWordsIsSum(bs: seq<byte>, k: nat)
    requires k * WORD <= |bs|
    ensures HashWords(bs, k) == WordSum(bs, k) % MOD
  {
    if k > 0 {
      HashWordsIsSum(bs, k - 1);
      SumResidues(WordSum(bs, k - 1), Word(bs, k - 1));
    }
  }

  /** So the hash is the sum of the words modulo 2^63 - 1, and beside it the sum of the last bytes. */
  lemma HashIsSum(bs: seq<byte>)
    ensures Hash(bs) == WordSum(bs, |bs| / WORD) % MOD + ByteSum(bs[|bs| / WORD * WORD..]) % MOD
  {
    HashWordsIsSum(bs, |bs| / WORD);
  }

  lemma SumResidues(x: nat, y: nat)
    ensures (x % MOD + y % MOD) % MOD == (x + y) % MOD
  {}

  lemma WordChange(bs: seq<byte>, i: nat, b: byte, j: nat)
    requires i < |bs| && (j + 1) * WORD <= |bs|
    ensures i / WORD == j ==> Word(bs[i := b], j) == Word(bs, j) + (b - bs[i]) * Pow256(i % WORD)
    ensures i / WORD != j ==> Word(bs[i := b], j) == Word(bs, j)
  {
    var lo := j * WORD;
    var w := bs[lo..lo + WORD];
    if i / WORD == j {
      assert i % WORD == i - lo;
      assert bs[i := b][lo..lo + WORD] == w[i - lo := b];
      LoadChange(w, i - lo, b);
    } else {
      assert bs[i := b][lo..lo + WORD] == w;
    }
  }

  /** Changing one byte of the words changes their sum by the difference times `256^(i % 8)`. */
  lemma {:induction false} WordSumChange(bs: seq<byte>, i: nat, b: byte, k: nat)
    requires i < |bs| && k * WORD <= |bs|
    ensures i / WORD < k ==> WordSum(bs[i := b], k) == WordSum(bs, k) + (b - bs[i]) * Pow256(i % WORD)
    ensures i / WORD >= k ==> WordSum(bs[i := b], k) == WordSum(bs, k)
  {
    if k > 0 {
      WordSumChange(bs, i, b, k - 1);
      WordChange(bs, i, b, k - 1);
    }
  }

  lemma {:induction false} ByteSumChange(bs: seq<byte>, i: nat, b: byte)
    requires i < |bs|
    ensures ByteSum(bs[i := b]) == ByteSum(bs) + b - bs[i]
  {
    var n := |bs| - 1;
    if i < n {
      assert bs[i := b][..n] == bs[..n][i := b];
      ByteSumChange(bs[..n], i, b);
    } else {
      assert bs[i := b][..n] == bs[..n];
    }
  }

  /** A nonzero byte difference times a power of 256 inside a word is no multiple of the modulus. */
  lemma NoMultiple(d: int, j: nat)
    requires -256 < d < 256 && d != 0 && j < WORD
    ensures (d * Pow256(j)) % MOD != 0
  {
    Pow256Values();
    if j == 0 {
      assert Pow256(0) == 1;
    } else if j == 1 {
    } else if j == 2 {
    } else if j == 3 {
    } else if j == 4 {
    } else if j == 5 {
    } else if j == 6 {
    } else {
    }
  }

  lemma SameResidue(x: nat, y: nat, d: int)
    requires y == x + d && x % MOD == y % MOD
    ensures d % MOD == 0
  {}

  lemma WordChangeShows(bs: seq<byte>, i: nat, b: byte, k: nat)
    requires i < k * WORD <= |bs| && b != bs[i]
    ensures HashWords(bs[i := b], k) != HashWords(bs, k)
  {
    HashWordsIsSum(bs, k);
    HashWordsIsSum(bs[i := b], k);
    WordSumChange(bs, i, b, k);
    var d := b - bs[i];
    NoMultiple(d, i % WORD);
    if WordSum(bs, k) % MOD == WordSum(bs[i := b], k) % MOD {
      SameResidue(WordSum(bs, k), WordSum(bs[i := b], k), d * Pow256(i % WORD));
    }
  }

  lemma TailChangeShows(bs: seq<byte>, i: nat, b: byte)
    requires i < |bs| < WORD && b != bs[i]
    ensures ByteSum(bs[i := b]) % MOD != ByteSum(bs) % MOD
  {
    ByteSumBound(bs);
    ByteSumBound(bs[i := b]);
    ByteSumChange(bs, i, b);
  }

  /** Words before the change are summed as before. */
  lemma {:induction false} EarlierWords(bs: seq<byte>, cs: seq<byte>, k: nat)
    requires k * WORD <= |bs| && |bs| == |cs| && bs[..k * WORD] == cs[..k * WORD]
    ensures HashWords(bs, k) == HashWords(cs, k)
  {
    if k > 0 {
      var m := (k - 1) * WORD;
      assert bs[..m] == bs[..k * WORD][..m] && cs[..m] == cs[..k * WORD][..m];
      EarlierWords(bs, cs, k - 1);
      assert bs[m..m + WORD] == bs[..k * WORD][m..] && cs[m..m + WORD] == cs[..k * WORD][m..];
    }
  }

  /** Changing any one byte changes the hash, whatever the length. */
  lemma HashDetectsByteChange(bs: seq<byte>, i: nat, b: byte)
    requires i < |bs| && b != bs[i]
    ensures Hash(bs[i := b]) != Hash(bs)
  {
    var cs := bs[i := b];
    var k := |bs| / WORD;
    var m := k * WORD;
    if i < m {
      assert cs[m..] == bs[m..];
      WordChangeShows(bs, i, b, k);
    } else {
      assert cs[m..] == bs[m..][i - m := b];
      assert cs[..m] == bs[..m];
      EarlierWords(bs, cs, k);
      TailChangeShows(bs[m..], i - m, b);
    }
  }
}
