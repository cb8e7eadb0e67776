/** `unordered_node_map`: a hash map over a dense vector of nodes with index-linked chains. */
module DenseHashMap {
  import opened PowersOfTwo
  import opened DenseLinks

  const MIN_CAP: nat := 8
  const MAX_CAP: nat := 0x4_0000_0000_0000   // 2^50
  const BUCKET_GROWTH_FACTOR: nat := 2               // 1 << POW2_GROWTH_FACTOR

  // ----- sizing -----

  datatype LoadFactor = LoadFactor(num: nat, den: nat)

  /** One of the admitted ratios `1/8 ... 8/8`, in lowest terms. */
  predicate ValidLoadFactor(f: LoadFactor)
  {
    || f == LoadFactor(1, 8) || f == LoadFactor(1, 4) || f == LoadFactor(3, 8) || f == LoadFactor(1, 2)
    || f == LoadFactor(5, 8) || f == LoadFactor(3, 4) || f == LoadFactor(7, 8) || f == LoadFactor(1, 1)
  }

  function RightCapacityToSize(f: LoadFactor, cap: nat): nat
    requires ValidLoadFactor(f)
  {
    cap / f.den * f.num
  }

  function RightSizeToCapacity(f: LoadFactor, sz: nat): nat
    requires ValidLoadFactor(f)
  {
    sz / f.num * f.den
  }

  function CeilSizeToCapacity(f: LoadFactor, sz: nat): nat
    requires ValidLoadFactor(f)
  {
    if sz == 0 then 0 else
      var mulValue := sz * f.den;
      var roundMulValue := ((mulValue - 1) / f.num + 1) * f.num;
      roundMulValue / f.num
  }

  function BucketCountForSizeOf(f: LoadFactor, elementSz: nat): nat
    requires ValidLoadFactor(f)
  {
    if elementSz == 0 then MIN_CAP else
      var tentative := Ceil2(RightSizeToCapacity(f, Upround(f, elementSz)));
      if tentative < MIN_CAP then MIN_CAP else tentative
  }

  function MaxSize(f: LoadFactor): nat
    requires ValidLoadFactor(f)
  {
    RightCapacityToSize(f, MAX_CAP)
  }

  /** The bucket count a container is built or rehashed with. */
  function BucketCount(tentative: nat): nat
  {
    if Ceil2(tentative) < MIN_CAP then MIN_CAP else Ceil2(tentative)
  }

  ghost predicate ValidBucketCount(n: nat)
  {
    IsPow2(n) && MIN_CAP <= n <= MAX_CAP
  }

  /** A power of two that is at least 8 is a multiple of 8, hence of every admitted denominator. */
  lemma {:induction false} Pow2Divides8(p: nat)
    requires IsPow2(p) && p >= 8
    ensures p % 8 == 0
  {
    var n: nat :| p == Pow2(n);
    Pow2Eights(3);
    if n < 3 {
      Pow2Monotone(n, 2);
    }
    Pow2Eights(n);
  }

  lemma {:induction false} Pow2Eights(n: nat)
    requires n >= 3
    ensures Pow2(n) == 8 * Pow2(n - 3) && Pow2(2) == 4
  {
    assert Pow2(n) == 2 * Pow2(n - 1);
    assert Pow2(n - 1) == 2 * Pow2(n - 2);
    assert Pow2(n - 2) == 2 * Pow2(n - 3);
    assert Pow2(1) == 2;
  }

  /** The bucket count a container is built with is the least admitted one that is not below what was asked. */
  lemma BucketCountIsLeast(tentative: nat)
    ensures var n := BucketCount(tentative); IsPow2(n) && n >= MIN_CAP && n >= tentative && (n > MIN_CAP ==> n / 2 < tentative)
  {
    assert Pow2(0) == 1;
    Pow2Doubles(1);
    Pow2Doubles(2);
    Pow2Doubles(4);
  }

  lemma MaxCapIsPow2()
    ensures IsPow2(MAX_CAP)
  {
    Pow32();
    Pow2Byte(32);
    Pow2Byte(40);
    assert Pow2(49) == 2 * Pow2(48);
    assert Pow2(50) == 2 * Pow2(49);
  }

  lemma MulMonotone(a: nat, b: nat, c: nat)
    requires a <= b
    ensures a * c <= b * c
  {}

  lemma MulCancels(a: nat, b: nat, c: nat)
    requires a * c <= b * c && c > 0
    ensures a <= b
  {
    if b < a {
      MulMonotone(b + 1, a, c);
    }
  }

  lemma DivAtLeast(x: nat, b: nat, q: nat)
    requires b > 0 && q * b <= x
    ensures q <= x / b
  {
    if x / b < q {
      MulMonotone(x / b + 1, q, b);
    }
  }

  lemma DivBelow(x: nat, b: nat, q: nat)
    requires b > 0 && x < q * b
    ensures x / b < q
  {
    if q <= x / b {
      MulMonotone(q, x / b, b);
    }
  }

  /** The denominators divide eight. */
  lemma DenDivides(f: LoadFactor, cap: nat)
    requires ValidLoadFactor(f) && cap % 8 == 0
    ensures cap / f.den * f.den == cap
  {
    var e: nat := if f.den == 8 then 1 else if f.den == 4 then 2 else if f.den == 2 then 4 else 8;
    assert e * f.den == 8;
    var a := cap / 8;
    assert cap == a * (e * f.den) == (a * e) * f.den;
    MultipleOf(a * e, f.den);
  }

  /** `n` in groups of `num`, the last one perhaps not full. */
  lemma GroupsCover(n: nat, num: nat)
    requires n > 0 && num > 0
    ensures n <= ((n - 1) / num + 1) * num < n + num
    ensures ((n - 1) / num + 1) * num / num == (n - 1) / num + 1
  {
    MultipleOf((n - 1) / num + 1, num);
  }

  /** Buckets counted by `CeilSizeToCapacity` leave room for that many nodes. */
  lemma CapacityCoversSize(f: LoadFactor, n: nat, cap: nat)
    requires ValidLoadFactor(f) && cap % 8 == 0 && cap >= CeilSizeToCapacity(f, n)
    ensures RightCapacityToSize(f, cap) >= n
  {
    if n > 0 {
      var m, c := n * f.den, cap / f.den;
      MulMonotone(1, n, f.den);
      GroupsCover(m, f.num);
      DenDivides(f, cap);
      MulMonotone((m - 1) / f.num + 1, cap, f.num);
      assert c * f.den * f.num == c * f.num * f.den;
      MulCancels(n, c * f.num, f.den);
    }
  }

  /** The capacity is the load factor's share of the buckets, to the last node. */
  lemma CapacityIsLoad(f: LoadFactor, n: nat)
    requires ValidLoadFactor(f) && ValidBucketCount(n)
    ensures RightCapacityToSize(f, n) * f.den == n * f.num
  {
    Pow2Divides8(n);
    DenDivides(f, n);
    Reordered(n / f.den, f.num, f.den);
  }

  lemma Reordered(a: nat, b: nat, c: nat)
    ensures a * b * c == a * c * b
  {}

  /** Half as many buckets would not hold `sz` nodes. */
  predicate TooFew(f: LoadFactor, n: nat, sz: nat)
    requires ValidLoadFactor(f)
  {
    n == MIN_CAP || RightCapacityToSize(f, n / 2) < sz
  }

  lemma BelowIsTooFew(f: LoadFactor, p: nat, sz: nat)
    requires ValidLoadFactor(f) && sz > 0 && p <= (sz * f.den - 1) / f.num
    ensures RightCapacityToSize(f, p) < sz
  {
    var m, c := sz * f.den, p / f.den;
    MulMonotone(1, sz, f.den);
    MulMonotone(p, (m - 1) / f.num, f.num);
    Reordered(c, f.num, f.den);
    MulMonotone(c * f.den, p, f.num);
    MulCancelsStrictly(c * f.num, sz, f.den);
  }

  lemma MulCancelsStrictly(a: nat, b: nat, c: nat)
    requires a * c < b * c
    ensures a < b
  {
    if b <= a {
      MulMonotone(b, a, c);
    }
  }

  lemma CeilSizeIs(f: LoadFactor, sz: nat)
    requires ValidLoadFactor(f) && sz > 0
    ensures CeilSizeToCapacity(f, sz) == (sz * f.den - 1) / f.num + 1
  {
    MulMonotone(1, sz, f.den);
    GroupsCover(sz * f.den, f.num);
  }

  /** `reserve` rehashes exactly when the capacity is too small, and then to the least bucket count that is not. */
  lemma GrowsIffTooFew(f: LoadFactor, sz: nat, buckets: nat)
    requires ValidLoadFactor(f) && ValidBucketCount(buckets) && sz > 0
    ensures CeilSizeToCapacity(f, sz) <= buckets <==> sz <= RightCapacityToSize(f, buckets)
    ensures TooFew(f, BucketCount(CeilSizeToCapacity(f, sz)), sz)
  {
    var m, t := sz * f.den, CeilSizeToCapacity(f, sz);
    CeilSizeIs(f, sz);
    MulMonotone(1, sz, f.den);
    if t <= buckets {
      Pow2Divides8(buckets);
      CapacityCoversSize(f, sz, buckets);
    }
    if sz <= RightCapacityToSize(f, buckets) {
      CapacityIsLoad(f, buckets);
      MulMonotone(sz, RightCapacityToSize(f, buckets), f.den);
      DivBelow(m - 1, f.num, buckets);
    }
    BucketCountIsLeast(t);
    if BucketCount(t) > MIN_CAP {
      BelowIsTooFew(f, BucketCount(t) / 2, sz);
    }
  }

  /** A size within `MaxSize` never asks for more than the greatest bucket count. */
  lemma MaxSizeWithinCapacity(f: LoadFactor, n: nat)
    requires ValidLoadFactor(f) && n <= MaxSize(f)
    ensures BucketCount(CeilSizeToCapacity(f, n)) <= MAX_CAP
  {
    MaxCapIsPow2();
    if n > 0 {
      var m, c := n * f.den, MAX_CAP / f.den;
      MulMonotone(1, n, f.den);
      MulMonotone(n, c * f.num, f.den);
      DenDivides(f, MAX_CAP);
      assert c * f.num * f.den == c * f.den * f.num;
      GroupsCover(m, f.num);
      DivBelow(m - 1, f.num, MAX_CAP);
    }
    Ceil2Least(CeilSizeToCapacity(f, n), MAX_CAP);
  }

  /** The number of elements, rounded up to whole groups of `num`. */
  function Upround(f: LoadFactor, elementSz: nat): nat
    requires ValidLoadFactor(f) && elementSz > 0
  {
    ((elementSz - 1) / f.num + 1) * f.num
  }

  lemma UproundCovers(f: LoadFactor, n: nat, cap: nat)
    requires ValidLoadFactor(f) && n > 0 && cap >= RightSizeToCapacity(f, Upround(f, n))
    ensures RightCapacityToSize(f, cap) >= n
  {
    var g := (n - 1) / f.num + 1;
    GroupsCover(n, f.num);
    DivAtLeast(cap, f.den, g);
    MulMonotone(g, cap / f.den, f.num);
  }

  /** A table built with `BucketCountForSizeOf(n)` buckets holds `n` nodes without growing. */
  lemma BucketCountCoversSize(f: LoadFactor, n: nat)
    requires ValidLoadFactor(f)
    ensures RightCapacityToSize(f, BucketCountForSizeOf(f, n)) >= n
  {
    if n > 0 {
      UproundCovers(f, n, BucketCountForSizeOf(f, n));
    }
  }

  /** Nor would fewer buckets do. */
  lemma BucketCountForSizeIsLeast(f: LoadFactor, n: nat)
    requires ValidLoadFactor(f)
    ensures TooFew(f, BucketCountForSizeOf(f, n), n)
  {
    var buckets := BucketCountForSizeOf(f, n);
    if buckets > MIN_CAP {
      var g := (n - 1) / f.num + 1;
      GroupsCover(n, f.num);
      MulMonotone(1, g, f.den);
      DivBelow(buckets / 2, f.den, g);
      MulMonotone(buckets / 2 / f.den, g - 1, f.num);
    }
  }

  /** Doubling the buckets makes room for at least one more node. */
  lemma DoubledBuckets(f: LoadFactor, buckets: nat)
    requires ValidLoadFactor(f) && ValidBucketCount(buckets)
    ensures BucketCount(2 * buckets) == 2 * buckets
    ensures RightCapacityToSize(f, buckets) < RightCapacityToSize(f, 2 * buckets)
  {
    Pow2Divides8(buckets);
    Pow2Doubles(buckets);
    Ceil2OfPow2(2 * buckets);
    DoublingGrows(f, buckets);
  }

  lemma DoublingGrows(f: LoadFactor, buckets: nat)
    requires ValidLoadFactor(f) && buckets % 8 == 0 && buckets > 0
    ensures RightCapacityToSize(f, buckets) < RightCapacityToSize(f, 2 * buckets)
  {
    var c := buckets / f.den;
    DenDivides(f, buckets);
    MultipleOf(2 * c, f.den);
    assert 2 * c * f.den == 2 * buckets;
    MulMonotone(c + 1, 2 * c, f.num);
  }

  lemma MoreBucketsMoreRoom(f: LoadFactor, m: nat, n: nat)
    requires ValidLoadFactor(f) && m <= n
    ensures RightCapacityToSize(f, m) <= RightCapacityToSize(f, n)
  {
    DivAtLeast(n, f.den, m / f.den);
    MulMonotone(m / f.den, n / f.den, f.num);
  }

  lemma CapacityWithinAddresses(f: LoadFactor, buckets: nat)
    requires ValidLoadFactor(f) && buckets <= MAX_CAP
    ensures RightCapacityToSize(f, buckets) < NULL_ADDR
  {
    MoreBucketsMoreRoom(f, buckets, MAX_CAP);
  }

  // ----- the finite map a node vector stands for -----

  ghost predicate Denotes<K, V>(ns: seq<Node<K, V>>, m: map<K, V>)
  {
    && (forall i :: 0 <= i < |ns| ==> ns[i].first in m && m[ns[i].first] == ns[i].second)
    && (forall k :: k in m ==> exists i :: 0 <= i < |ns| && ns[i].first == k)
  }

  lemma DenotesUnique<K, V>(ns: seq<Node<K, V>>, m: map<K, V>, m': map<K, V>)
    requires Denotes(ns, m) && Denotes(ns, m')
    ensures m == m'
  {
    forall k ensures k in m <==> k in m' {
      if k in m {
        var i :| 0 <= i < |ns| && ns[i].first == k;
      }
      if k in m' {
        var i :| 0 <= i < |ns| && ns[i].first == k;
      }
    }
  }

  lemma InitDenotes<K, V>(ns: seq<Node<K, V>>, m: map<K, V>, n: nat)
    requires Denotes(ns, m) && DistinctKeys(ns) && |ns| == n + 1
    ensures Denotes(ns[..n], m - {ns[n].first})
  {
    var m' := m - {ns[n].first};
    forall k | k in m' ensures exists i :: 0 <= i < n && ns[..n][i].first == k {
      var i :| 0 <= i < |ns| && ns[i].first == k;
      assert ns[..n][i].first == k;
    }
  }

  /** With distinct keys the map has as many entries as there are nodes. */
  lemma {:induction false} DenotesSize<K, V>(ns: seq<Node<K, V>>, m: map<K, V>)
    requires Denotes(ns, m) && DistinctKeys(ns)
    ensures |m| == |ns|
  {
    if ns == [] {
      assert m == map[];
    } else {
      var n := |ns| - 1;
      var k := ns[n].first;
      InitDenotes(ns, m, n);
      DenotesSize(ns[..n], m - {k});
      assert m.Keys == (m - {k}).Keys + {k};
    }
  }

  /** The same keys and values in the same places, whatever the links. */
  ghost predicate SameEntries<K, V>(ns: seq<Node<K, V>>, ns': seq<Node<K, V>>)
  {
    && |ns| <= |ns'|
    && forall i :: 0 <= i < |ns| ==> ns[i].first == ns'[i].first && ns[i].second == ns'[i].second
  }

  lemma AppendDenotes<K, V>(ns: seq<Node<K, V>>, ns': seq<Node<K, V>>, m: map<K, V>, key: K, value: V)
    requires Denotes(ns, m) && DistinctKeys(ns) && key !in m
    requires |ns'| == |ns| + 1 && SameEntries(ns, ns')
    requires ns'[|ns|].first == key && ns'[|ns|].second == value
    ensures Denotes(ns', m[key := value]) && DistinctKeys(ns')
  {
    var m' := m[key := value];
    forall k | k in m' ensures exists i :: 0 <= i < |ns'| && ns'[i].first == k {
      if k == key {
        assert ns'[|ns|].first == k;
      } else {
        var i :| 0 <= i < |ns| && ns[i].first == k;
        assert ns'[i].first == k;
      }
    }
  }

  /** The entries after erasing place `v`: the last entry takes its place. */
  ghost predicate ErasedAt<K, V>(ns: seq<Node<K, V>>, ns': seq<Node<K, V>>, v: int)
  {
    && 0 <= v < |ns| == |ns'| + 1
    && forall i :: 0 <= i < |ns'| ==>
      var j := if i == v then |ns'| else i;
      ns'[i].first == ns[j].first && ns'[i].second == ns[j].second
  }

  lemma EraseDenotes<K, V>(ns: seq<Node<K, V>>, ns': seq<Node<K, V>>, v: nat, m: map<K, V>)
    requires Denotes(ns, m) && DistinctKeys(ns) && ErasedAt(ns, ns', v)
    ensures Denotes(ns', m - {ns[v].first}) && DistinctKeys(ns')
  {
    var m' := m - {ns[v].first};
    forall k | k in m' ensures exists i :: 0 <= i < |ns'| && ns'[i].first == k {
      var i :| 0 <= i < |ns| && ns[i].first == k;
      assert ns'[if i == |ns'| then v else i].first == k;
    }
  }

  lemma ErasedEntries<K, V>(hash: K -> nat, l: Links<K, V>, v: nat)
    requires Linked(hash, l) && v < |l.ns|
    ensures ErasedAt(l.ns, Erased(hash, l, v).ns, v)
  {}

  lemma SecondKeepsLinks<K, V>(hash: K -> nat, l: Links<K, V>, at: nat, value: V)
    requires Linked(hash, l) && at < |l.ns|
    ensures Linked(hash, l.(ns := l.ns[at := l.ns[at].(second := value)]))
  {
    var l', n := l.(ns := l.ns[at := l.ns[at].(second := value)]), |l.ns|;
    forall r | ValidRef(l'.ns, l'.bs, r) && r != Next(n) ensures CellOk(l', n, r) {
      assert CellOk(l, n, r);
    }
    forall i: nat | i < n ensures NodeOk(hash, l', n, i) {
      assert NodeOk(hash, l, n, i);
    }
  }

  lemma SecondDenotes<K, V>(ns: seq<Node<K, V>>, m: map<K, V>, at: nat, value: V)
    requires Denotes(ns, m) && DistinctKeys(ns) && at < |ns|
    ensures Denotes(ns[at := ns[at].(second := value)], m[ns[at].first := value])
  {
    var ns', m' := ns[at := ns[at].(second := value)], m[ns[at].first := value];
    forall k | k in m' ensures exists i :: 0 <= i < |ns'| && ns'[i].first == k {
      if k != ns[at].first {
        var i :| 0 <= i < |ns| && ns[i].first == k;
        assert ns'[i].first == k;
      } else {
        assert ns'[at].first == k;
      }
    }
  }

  datatype InsertResult = Inserted(at: nat) | Existing(at: nat) | LengthError

  class UnorderedNodeMap<K(==), V> {
    var virtualStorageVec: seq<Node<K, V>>
    var storageCapacity: nat        // virtual_storage_vec.capacity()
    var bucketVec: seq<nat>
    const hasher: K -> nat
    const loadFactor: LoadFactor

    ghost var parent: seq<Ref>
    ghost var rank: seq<nat>
    ghost var contents: map<K, V>

    ghost function Chains(): Links<K, V>
      reads this
    {
      Links(virtualStorageVec, bucketVec, parent, rank)
    }

    ghost predicate Sized()
      reads this
    {
      && ValidLoadFactor(loadFactor)
      && ValidBucketCount(|bucketVec|)
      && storageCapacity == RightCapacityToSize(loadFactor, |bucketVec|)
      && |virtualStorageVec| <= storageCapacity
    }

    ghost predicate Valid()
      reads this
    {
      && Sized()
      && Linked(hasher, Chains())
      && DistinctKeys(virtualStorageVec)
      && Denotes(virtualStorageVec, contents)
    }

    constructor Make(bucketCount: nat, hasher: K -> nat, loadFactor: LoadFactor)
      requires ValidLoadFactor(loadFactor) && BucketCount(bucketCount) <= MAX_CAP
      ensures Valid() && contents == map[] && virtualStorageVec == []
      ensures this.hasher == hasher && this.loadFactor == loadFactor
      ensures |bucketVec| == BucketCount(bucketCount)
    {
      var n := BucketCount(bucketCount);
      assert IsPow2(n) by {
        assert Pow2(0) == 1;
        Pow2Doubles(1);
        Pow2Doubles(2);
        Pow2Doubles(4);
      }
      virtualStorageVec, storageCapacity := [], RightCapacityToSize(loadFactor, n);
      bucketVec := seq(n, _ => NULL_ADDR);
      this.hasher, this.loadFactor := hasher, loadFactor;
      parent, rank, contents := [], [], map[];
    }

    /** The explicit constructor: throws `length_error` when the rounded bucket count is too large. */
    static method Create(bucketCount: nat, hasher: K -> nat, loadFactor: LoadFactor) returns (m: UnorderedNodeMap?<K, V>)
      requires ValidLoadFactor(loadFactor)
      ensures m == null <==> Ceil2(bucketCount) > MAX_CAP
      ensures m != null ==> fresh(m) && m.Valid() && m.contents == map[] && m.virtualStorageVec == []
      ensures m != null ==> m.hasher == hasher && m.loadFactor == loadFactor && |m.bucketVec| == BucketCount(bucketCount)
    {
      if Ceil2(bucketCount) > MAX_CAP {
        return null;
      }
      m := new UnorderedNodeMap<K, V>.Make(bucketCount, hasher, loadFactor);
    }

    // ----- lookup -----

    /** `internal_find_bucket_reference`: the cell that points at the node with `key`, or the empty cell
        at the end of the chain where such a node belongs. */
    method FindBucketReference(key: K) returns (current: Ref)
      requires Valid()
      ensures ValidRef(virtualStorageVec, bucketVec, current)
      ensures RefBucket(hasher, virtualStorageVec, bucketVec, current) == hasher(key) % |bucketVec|
      ensures var c := Cell(virtualStorageVec, bucketVec, current);
        if c == NULL_ADDR then key !in contents
        else c < |virtualStorageVec| && virtualStorageVec[c].first == key && current == parent[c]
    {
      current := Bucket(BucketOf(hasher, key, |bucketVec|));
      ghost var l := Chains();
      forall i: nat | i < |l.ns| && l.ns[i].first == key ensures OnPath(hasher, l, i, current) {
        PathStarts(hasher, l, i);
      }
      while true
        invariant ValidRef(virtualStorageVec, bucketVec, current)
        invariant RefBucket(hasher, virtualStorageVec, bucketVec, current) == BucketOf(hasher, key, |bucketVec|)
        invariant forall i: nat :: i < |l.ns| && l.ns[i].first == key ==> OnPath(hasher, l, i, current)
        decreases Ahead(rank, current)
      {
        var c := Cell(virtualStorageVec, bucketVec, current);
        forall i: nat | i < |l.ns| && l.ns[i].first == key ensures c < |l.ns| && (c == i || OnPath(hasher, l, i, Next(c))) {
          PathStep(hasher, l, i, current);
        }
        if c == NULL_ADDR {
          return;
        }
        WalkStep(hasher, l, current);
        if virtualStorageVec[c].first == key {
          assert CellOk(l, |l.ns|, current);
          return;
        }
        current := Next(c);
      }
    }

    /** `find`: the index of the entry, or the size when there is none. */
    method Find(key: K) returns (at: nat)
      requires Valid()
      ensures key in contents ==> at < |virtualStorageVec| && virtualStorageVec[at].first == key && virtualStorageVec[at].second == contents[key]
      ensures key !in contents ==> at == |virtualStorageVec|
    {
      var r := FindBucketReference(key);
      at := Cell(virtualStorageVec, bucketVec, r);
      if at == NULL_ADDR {
        at := |virtualStorageVec|;
      }
    }

    // ----- growth -----

    /** The walk of `rehash` to the end of the new chain; only the first `i` nodes are linked into it yet. */
    method ChainEnd(newBucketVec: seq<nat>, i: nat, b: nat, ghost l: Links<K, V>) returns (r: Ref)
      requires i <= |virtualStorageVec| && l.ns == virtualStorageVec[..i] && l.bs == newBucketVec
      requires Linked(hasher, l) && b < |newBucketVec|
      ensures ValidRef(l.ns, l.bs, r) && Cell(l.ns, l.bs, r) == NULL_ADDR
      ensures RefBucket(hasher, l.ns, l.bs, r) == b
    {
      r := Bucket(b);
      while true
        invariant ValidRef(l.ns, l.bs, r) && RefBucket(hasher, l.ns, l.bs, r) == b
        decreases Ahead(l.rank, r)
      {
        var c := Cell(virtualStorageVec, newBucketVec, r);
        if c == NULL_ADDR {
          break;
        }
        WalkStep(hasher, l, r);
        r := Next(c);
      }
    }

    /** `rehash`: false when the new bucket count would be too large. */
    method Rehash(tentativeNewCap: nat) returns (ok: bool)
      requires Valid()
      modifies this
      ensures Valid() && contents == old(contents)
      ensures SameEntries(old(virtualStorageVec), virtualStorageVec) && |virtualStorageVec| == old(|virtualStorageVec|)
      ensures ok <==> tentativeNewCap <= old(|bucketVec|) || BucketCount(tentativeNewCap) <= MAX_CAP
      ensures |bucketVec| == if ok && tentativeNewCap > old(|bucketVec|) then BucketCount(tentativeNewCap) else old(|bucketVec|)
      ensures !ok || tentativeNewCap <= old(|bucketVec|) ==> virtualStorageVec == old(virtualStorageVec) && bucketVec == old(bucketVec)
    {
      if tentativeNewCap <= |bucketVec| {
        return true;
      }
      var newBucketCap := BucketCount(tentativeNewCap);
      if newBucketCap > MAX_CAP {
        return false;
      }
      RelinkAll(newBucketCap);
      return true;
    }

    /** One round of the index loop of `rehash`: node `i` goes to the end of its new chain, while the nodes
        after it still carry the links of the old chains. */
    method RelinkOne(i: nat, newBucketVec: seq<nat>, ghost l: Links<K, V>) returns (newBucketVec': seq<nat>, ghost l': Links<K, V>)
      requires i < |virtualStorageVec| < NULL_ADDR
      requires l.ns == virtualStorageVec[..i] && l.bs == newBucketVec && Linked(hasher, l)
      modifies this`virtualStorageVec
      ensures |virtualStorageVec| == old(|virtualStorageVec|) && SameEntries(old(virtualStorageVec), virtualStorageVec)
      ensures l'.ns == virtualStorageVec[..i + 1] && l'.bs == newBucketVec' && |newBucketVec'| == |newBucketVec|
      ensures Linked(hasher, l')
    {
      virtualStorageVec := virtualStorageVec[i := virtualStorageVec[i].(nxtAddr := NULL_ADDR)];
      var b := BucketOf(hasher, virtualStorageVec[i].first, |newBucketVec|);
      var r := ChainEnd(newBucketVec, i, b, l);
      AppendKeepsLinks(hasher, l, r, virtualStorageVec[i]);
      l' := Appended(l, r, virtualStorageVec[i]);
      virtualStorageVec := SetNode(virtualStorageVec, r, i);
      newBucketVec' := SetBucket(newBucketVec, r, i);
    }

    method RelinkAll(newBucketCap: nat)
      requires Valid()
      requires |bucketVec| <= newBucketCap && ValidBucketCount(newBucketCap)
      modifies this
      ensures Valid() && contents == old(contents)
      ensures SameEntries(old(virtualStorageVec), virtualStorageVec) && |virtualStorageVec| == old(|virtualStorageVec|)
      ensures |bucketVec| == newBucketCap
    {
      var newBucketVec := seq(newBucketCap, _ => NULL_ADDR);
      ghost var l := Links(virtualStorageVec[..0], newBucketVec, [], []);
      for i := 0 to |virtualStorageVec|
        invariant |virtualStorageVec| == old(|virtualStorageVec|) && SameEntries(old(virtualStorageVec), virtualStorageVec)
        invariant unchanged(`bucketVec, `storageCapacity, `contents)
        invariant l.ns == virtualStorageVec[..i] && l.bs == newBucketVec && |newBucketVec| == newBucketCap
        invariant Linked(hasher, l)
      {
        newBucketVec, l := RelinkOne(i, newBucketVec, l);
      }
      assert l.ns == virtualStorageVec;
      bucketVec, parent, rank := newBucketVec, l.parent, l.rank;
      assert Chains() == l;
      assert RightCapacityToSize(loadFactor, old(|bucketVec|)) <= RightCapacityToSize(loadFactor, newBucketCap) by {
        MoreBucketsMoreRoom(loadFactor, old(|bucketVec|), newBucketCap);
      }
      storageCapacity := RightCapacityToSize(loadFactor, newBucketCap);
    }

    /** `reserve`: false when the size is out of range. */
    method Reserve(newSz: nat) returns (ok: bool)
      requires Valid()
      modifies this
      ensures Valid() && contents == old(contents)
      ensures SameEntries(old(virtualStorageVec), virtualStorageVec) && |virtualStorageVec| == old(|virtualStorageVec|)
      ensures ok <==> newSz <= |virtualStorageVec| || newSz <= MaxSize(loadFactor)
      ensures ok ==> newSz <= storageCapacity
      ensures !ok || newSz <= old(storageCapacity) ==> |bucketVec| == old(|bucketVec|) && virtualStorageVec == old(virtualStorageVec)
      ensures ok && newSz > old(storageCapacity) ==> |bucketVec| > old(|bucketVec|) && TooFew(loadFactor, |bucketVec|, newSz)
    {
      if newSz <= |virtualStorageVec| {
        return true;
      }
      if newSz > MaxSize(loadFactor) {
        return false;
      }
      MaxSizeWithinCapacity(loadFactor, newSz);
      GrowsIffTooFew(loadFactor, newSz, |bucketVec|);
      ok := Rehash(CeilSizeToCapacity(loadFactor, newSz));
      Pow2Divides8(|bucketVec|);
      CapacityCoversSize(loadFactor, newSz, |bucketVec|);
    }

    // ----- insertion -----

    /** `*r = addr`. */
    method Store(r: Ref, addr: nat)
      requires ValidRef(virtualStorageVec, bucketVec, r)
      modifies this`virtualStorageVec, this`bucketVec
      ensures virtualStorageVec == SetNode(old(virtualStorageVec), r, addr)
      ensures bucketVec == SetBucket(old(bucketVec), r, addr)
    {
      match r
      case Bucket(b) => bucketVec := bucketVec[b := addr];
      case Next(i) => virtualStorageVec := virtualStorageVec[i := virtualStorageVec[i].(nxtAddr := addr)];
    }

    /** `internal_insert`. */
    method Insert(key: K, value: V) returns (result: InsertResult)
      requires Valid()
      modifies this
      ensures Valid()
      ensures result.LengthError? <==> old(|virtualStorageVec| == storageCapacity && BUCKET_GROWTH_FACTOR * |bucketVec| > MAX_CAP)
      ensures result.LengthError? ==> contents == old(contents) && virtualStorageVec == old(virtualStorageVec)
      ensures !result.LengthError? ==> (result.Existing? <==> key in old(contents))
      ensures !result.LengthError? ==>
        && contents == (if key in old(contents) then old(contents) else old(contents)[key := value])
        && result.at < |virtualStorageVec| && virtualStorageVec[result.at].first == key
      ensures result.Inserted? ==> result.at == old(|virtualStorageVec|)
      ensures SameEntries(old(virtualStorageVec), virtualStorageVec)
      ensures |virtualStorageVec| == old(|virtualStorageVec|) + if result.Inserted? then 1 else 0
      ensures old(|virtualStorageVec| < storageCapacity) ==> |bucketVec| == old(|bucketVec|) && storageCapacity == old(storageCapacity)
      ensures !result.LengthError? && old(|virtualStorageVec| == storageCapacity) ==> |bucketVec| == 2 * old(|bucketVec|)
    {
      if |virtualStorageVec| == storageCapacity {
        DoubledBuckets(loadFactor, |bucketVec|);
        var ok := Rehash(BUCKET_GROWTH_FACTOR * |bucketVec|);
        if !ok {
          return LengthError;
        }
      }
      var r := FindBucketReference(key);
      var c := Cell(virtualStorageVec, bucketVec, r);
      if c != NULL_ADDR {
        return Existing(c);
      }
      LinkNew(r, key, value);
      return Inserted(|virtualStorageVec| - 1);
    }

    /** `*insert_reference = size; emplace_back(...)`. */
    method LinkNew(r: Ref, key: K, value: V)
      requires Valid() && |virtualStorageVec| < storageCapacity && key !in contents
      requires ValidRef(virtualStorageVec, bucketVec, r) && Cell(virtualStorageVec, bucketVec, r) == NULL_ADDR
      requires RefBucket(hasher, virtualStorageVec, bucketVec, r) == BucketOf(hasher, key, |bucketVec|)
      modifies this
      ensures Valid() && contents == old(contents)[key := value]
      ensures SameEntries(old(virtualStorageVec), virtualStorageVec) && |virtualStorageVec| == old(|virtualStorageVec|) + 1
      ensures virtualStorageVec[old(|virtualStorageVec|)].first == key
      ensures |bucketVec| == old(|bucketVec|) && storageCapacity == old(storageCapacity)
    {
      var n, node := |virtualStorageVec|, Node(key, value, NULL_ADDR);
      ghost var l, l' := Chains(), Appended(Chains(), r, node);
      CapacityWithinAddresses(loadFactor, |bucketVec|);
      AppendKeepsLinks(hasher, l, r, node);
      AppendDenotes(l.ns, l'.ns, contents, key, value);
      Store(r, n);
      virtualStorageVec := virtualStorageVec + [node];
      parent, rank, contents := l'.parent, l'.rank, contents[key := value];
      assert Chains() == l';
    }

    /** `it->second = value`. */
    method SetSecond(at: nat, value: V)
      requires Valid() && at < |virtualStorageVec|
      modifies this
      ensures Valid() && contents == old(contents)[old(virtualStorageVec)[at].first := value]
      ensures virtualStorageVec == old(virtualStorageVec)[at := old(virtualStorageVec)[at].(second := value)]
      ensures bucketVec == old(bucketVec) && storageCapacity == old(storageCapacity)
    {
      ghost var l := Chains();
      virtualStorageVec := virtualStorageVec[at := virtualStorageVec[at].(second := value)];
      contents := contents[virtualStorageVec[at].first := value];
      SecondKeepsLinks(hasher, l, at, value);
      SecondDenotes(l.ns, old(contents), at, value);
    }

    /** `insert_or_assign`. */
    method InsertOrAssign(key: K, value: V) returns (result: InsertResult)
      requires Valid()
      modifies this
      ensures Valid()
      ensures result.LengthError? <==> old(|virtualStorageVec| == storageCapacity && BUCKET_GROWTH_FACTOR * |bucketVec| > MAX_CAP)
      ensures result.LengthError? ==> contents == old(contents) && virtualStorageVec == old(virtualStorageVec)
      ensures !result.LengthError? ==> contents == old(contents)[key := value] && (result.Existing? <==> key in old(contents))
      ensures !result.LengthError? ==>
        result.at < |virtualStorageVec| && virtualStorageVec[result.at].first == key && virtualStorageVec[result.at].second == value
      ensures result.Inserted? ==> result.at == old(|virtualStorageVec|)
      ensures |virtualStorageVec| == old(|virtualStorageVec|) + if result.Inserted? then 1 else 0
    {
      result := Insert(key, value);
      if result.Existing? {
        SetSecond(result.at, value);
      }
    }

    method Clear()
      requires Valid()
      modifies this
      ensures Valid() && contents == map[] && virtualStorageVec == []
      ensures |bucketVec| == old(|bucketVec|) && storageCapacity == old(storageCapacity)
    {
      virtualStorageVec := [];
      bucketVec := seq(|bucketVec|, _ => NULL_ADDR);
      parent, rank, contents := [], [], map[];
    }

    // ----- erasure -----

    /** `internal_erase_key`: unlinks the node and moves the last node into its place. */
    method EraseKey(key: K) returns (erased: bool, ghost at: nat)
      requires Valid()
      modifies this
      ensures Valid()
      ensures erased <==> key in old(contents)
      ensures contents == old(contents) - {key}
      ensures if erased then ErasedAt(old(virtualStorageVec), virtualStorageVec, at) && old(virtualStorageVec)[at].first == key
              else virtualStorageVec == old(virtualStorageVec)
      ensures |bucketVec| == old(|bucketVec|) && storageCapacity == old(storageCapacity)
    {
      var keyReference := FindBucketReference(key);
      var v := Cell(virtualStorageVec, bucketVec, keyReference);
      if v == NULL_ADDR {
        return false, 0;
      }
      ghost var l := Chains();
      Unlink(keyReference, v);
      ErasedEntries(hasher, l, v);
      EraseDenotes(l.ns, virtualStorageVec, v, contents);
      contents := contents - {key};
      return true, v;
    }

    /** The link updates of `internal_erase_key`, given the cell that points at the erased node `v`. */
    method Unlink(keyReference: Ref, v: nat)
      requires Valid() && v < |virtualStorageVec|
      requires keyReference == parent[v] && ValidRef(virtualStorageVec, bucketVec, keyReference)
      modifies this`virtualStorageVec, this`bucketVec, this`parent, this`rank
      ensures Chains() == Erased(hasher, old(Chains()), v)
    {
      ghost var l, l' := Chains(), Erased(hasher, Chains(), v);
      var n := |virtualStorageVec| - 1;
      var swappingReference := FindBucketReference(virtualStorageVec[n].first);
      LinkedOnce(hasher, l, v, keyReference);
      if swappingReference == keyReference {
        LinkedOnce(hasher, l, n, keyReference);
        UnlinkErases(hasher, l);
        DropLast(keyReference, l');
      } else {
        if swappingReference == Next(v) {
          swappingReference := keyReference;
        }
        ExchangeErases(hasher, l, v, swappingReference);
        ExchangeLast(keyReference, swappingReference, v, l');
      }
    }

    /** The last node taken out of its chain and dropped. */
    method DropLast(keyReference: Ref, ghost l': Links<K, V>)
      requires virtualStorageVec != [] && ValidRef(virtualStorageVec, bucketVec, keyReference)
      requires var n := |virtualStorageVec| - 1; var w := virtualStorageVec[n].nxtAddr;
        l'.ns == SetNode(virtualStorageVec, keyReference, w)[..n] && l'.bs == SetBucket(bucketVec, keyReference, w)
      modifies this`virtualStorageVec, this`bucketVec, this`parent, this`rank
      ensures Chains() == l'
    {
      var n := |virtualStorageVec| - 1;
      Store(keyReference, virtualStorageVec[n].nxtAddr);
      virtualStorageVec := virtualStorageVec[..n];
      parent, rank := l'.parent, l'.rank;
    }

    /** The node `v` taken out of its chain, and the last node moved to its place. */
    method ExchangeLast(keyReference: Ref, swappingReference: Ref, v: nat, ghost l': Links<K, V>)
      requires v < |virtualStorageVec|
      requires ValidRef(virtualStorageVec, bucketVec, keyReference) && ValidRef(virtualStorageVec, bucketVec, swappingReference)
      requires Exchanged(Chains(), l', v, keyReference, swappingReference)
      modifies this`virtualStorageVec, this`bucketVec, this`parent, this`rank
      ensures Chains() == l'
    {
      var n := |virtualStorageVec| - 1;
      Store(keyReference, virtualStorageVec[v].nxtAddr);
      Store(swappingReference, v);
      virtualStorageVec := virtualStorageVec[v := virtualStorageVec[n]][..n];
      parent, rank := l'.parent, l'.rank;
    }

    /** `internal_erase_iter`: the place stays, now holding what used to be last. */
    method EraseIter(at: nat) returns (next: nat)
      requires Valid() && at <= |virtualStorageVec|
      modifies this
      ensures Valid() && next == at
      ensures if at == old(|virtualStorageVec|) then virtualStorageVec == old(virtualStorageVec) && contents == old(contents)
              else ErasedAt(old(virtualStorageVec), virtualStorageVec, at) && contents == old(contents) - {old(virtualStorageVec)[at].first}
    {
      if at < |virtualStorageVec| {
        var _, _ := EraseKey(virtualStorageVec[at].first);
      }
      next := at;
    }

    /** `erase_if`: keeps exactly the entries on which `pred` is false. */
    method EraseIf(pred: (K, V) -> bool)
      requires Valid()
      modifies this
      ensures Valid()
      ensures contents == map k | k in old(contents) && !pred(k, old(contents)[k]) :: old(contents)[k]
    {
      var it := 0;
      while it != |virtualStorageVec|
        invariant Valid() && it <= |virtualStorageVec|
        invariant forall k :: k in contents ==> k in old(contents) && contents[k] == old(contents)[k]
        invariant forall k :: k in old(contents) && k !in contents ==> pred(k, old(contents)[k])
        invariant forall i :: 0 <= i < it ==> !pred(virtualStorageVec[i].first, virtualStorageVec[i].second)
        decreases |virtualStorageVec| - it
      {
        if pred(virtualStorageVec[it].first, virtualStorageVec[it].second) {
          it := EraseIter(it);
        } else {
          it := it + 1;
        }
      }
      forall k | k in contents ensures !pred(k, contents[k]) {
        var i :| 0 <= i < |virtualStorageVec| && virtualStorageVec[i].first == k;
      }
    }
  }

  /** `operator==`. */
  method Equals<K(==), V(==)>(lhs: UnorderedNodeMap<K, V>, rhs: UnorderedNodeMap<K, V>) returns (equal: bool)
    requires lhs.Valid() && rhs.Valid()
    ensures equal <==> lhs.contents == rhs.contents
  {
    DenotesSize(lhs.virtualStorageVec, lhs.contents);
    DenotesSize(rhs.virtualStorageVec, rhs.contents);
    if |lhs.virtualStorageVec| != |rhs.virtualStorageVec| {
      return false;
    }
    for i := 0 to |lhs.virtualStorageVec|
      invariant forall j :: 0 <= j < i ==>
        && lhs.virtualStorageVec[j].first in rhs.contents
        && rhs.contents[lhs.virtualStorageVec[j].first] == lhs.virtualStorageVec[j].second
    {
      var at := rhs.Find(lhs.virtualStorageVec[i].first);
      if at == |rhs.virtualStorageVec| {
        return false;
      }
      if rhs.virtualStorageVec[at].second != lhs.virtualStorageVec[i].second {
        return false;
      }
    }
    SubmapOfSameSize(lhs.contents, rhs.contents);
    return true;
  }

  lemma SubmapOfSameSize<K, V>(m: map<K, V>, m': map<K, V>)
    requires |m| == |m'|
    requires forall k :: k in m ==> k in m' && m[k] == m'[k]
    ensures m == m'
  {
    assert |m'.Keys - m.Keys| == |m'.Keys| - |m.Keys| by {
      assert m.Keys <= m'.Keys;
      assert m'.Keys == m.Keys + (m'.Keys - m.Keys);
    }
    assert |m| == |m.Keys| && |m'| == |m'.Keys|;
    assert m'.Keys - m.Keys == {};
  }
}
