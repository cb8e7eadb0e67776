/** Hash chains threaded by index through a dense vector of nodes: which link cell points at which node,
    and what unlinking, moving and appending a node do to the chains. */
module DenseLinks {

  /** `NULL_VIRTUAL_ADDR`: the greatest `size_t`. */
  const NULL_ADDR: nat := 0xFFFF_FFFF_FFFF_FFFF

  datatype Node<K, V> = Node(first: K, second: V, nxtAddr: nat)

  /** The address of a link cell: a bucket, or the `nxt_addr` of a node. */
  datatype Ref = Bucket(b: nat) | Next(i: nat)

  /** Nodes, buckets and, for the proof, the one cell that points at each node and a number that grows along chains. */
  datatype Links<K, V> = Links(ns: seq<Node<K, V>>, bs: seq<nat>, parent: seq<Ref>, rank: seq<nat>)

  /** `hash & (bucket_count - 1)`; bucket counts are powers of two. */
  function BucketOf<K>(hash: K -> nat, key: K, buckets: nat): (b: nat)
    requires buckets > 0
    ensures b < buckets
  {
    hash(key) % buckets
  }

  predicate ValidRef<K, V>(ns: seq<Node<K, V>>, bs: seq<nat>, r: Ref)
  {
    match r
    case Bucket(b) => b < |bs|
    case Next(i) => i < |ns|
  }

  function Cell<K, V>(ns: seq<Node<K, V>>, bs: seq<nat>, r: Ref): nat
    requires ValidRef(ns, bs, r)
  {
    match r
    case Bucket(b) => bs[b]
    case Next(i) => ns[i].nxtAddr
  }

  /** The node vector after `*r = addr`. */
  function SetNode<K, V>(ns: seq<Node<K, V>>, r: Ref, addr: nat): (ns': seq<Node<K, V>>)
    requires r.Next? ==> r.i < |ns|
    ensures |ns'| == |ns|
  {
    if r.Next? then ns[r.i := ns[r.i].(nxtAddr := addr)] else ns
  }

  /** The bucket vector after `*r = addr`. */
  function SetBucket(bs: seq<nat>, r: Ref, addr: nat): (bs': seq<nat>)
    requires r.Bucket? ==> r.b < |bs|
    ensures |bs'| == |bs|
  {
    if r.Bucket? then bs[r.b := addr] else bs
  }

  // ----- the chain invariant -----

  /** The bucket a cell's chain belongs to. */
  ghost function RefBucket<K, V>(hash: K -> nat, ns: seq<Node<K, V>>, bs: seq<nat>, r: Ref): nat
    requires ValidRef(ns, bs, r) && |bs| > 0
  {
    match r
    case Bucket(b) => b
    case Next(i) => BucketOf(hash, ns[i].first, |bs|)
  }

  ghost predicate CellOk<K, V>(l: Links<K, V>, hole: nat, r: Ref)
    requires ValidRef(l.ns, l.bs, r)
    requires |l.parent| == |l.ns|
  {
    var c := Cell(l.ns, l.bs, r);
    c != NULL_ADDR ==> c < |l.ns| && c != hole && l.parent[c] == r
  }

  ghost predicate NodeOk<K, V>(hash: K -> nat, l: Links<K, V>, hole: nat, i: nat)
    requires i < |l.ns| == |l.parent| == |l.rank| && |l.bs| > 0
  {
    var r := l.parent[i];
    && ValidRef(l.ns, l.bs, r)
    && r != Next(hole)
    && Cell(l.ns, l.bs, r) == i
    && RefBucket(hash, l.ns, l.bs, r) == BucketOf(hash, l.ns[i].first, |l.bs|)
    && (r.Next? ==> l.rank[r.i] < l.rank[i])
  }

  /** Every node but `hole` is pointed at by exactly one cell, which lies in the chain of the node's own bucket,
      and ranks grow along every chain. */
  ghost predicate LinkedBut<K, V>(hash: K -> nat, l: Links<K, V>, hole: nat)
  {
    && |l.parent| == |l.rank| == |l.ns| < NULL_ADDR
    && |l.bs| > 0
    && (forall r :: ValidRef(l.ns, l.bs, r) && r != Next(hole) ==> CellOk(l, hole, r))
    && (forall i: nat :: i < |l.ns| && i != hole ==> NodeOk(hash, l, hole, i))
  }

  ghost predicate Linked<K, V>(hash: K -> nat, l: Links<K, V>)
  {
    LinkedBut(hash, l, |l.ns|)
  }

  ghost predicate DistinctKeys<K, V>(ns: seq<Node<K, V>>)
  {
    forall i, j :: 0 <= i < j < |ns| ==> ns[i].first != ns[j].first
  }

  // ----- what the invariant means -----

  /** Each storage index is linked from exactly one bucket or `nxt_addr`. */
  lemma LinkedOnce<K, V>(hash: K -> nat, l: Links<K, V>, i: nat, r: Ref)
    requires Linked(hash, l) && i < |l.ns| && ValidRef(l.ns, l.bs, r)
    ensures ValidRef(l.ns, l.bs, l.parent[i]) && Cell(l.ns, l.bs, l.parent[i]) == i
    ensures Cell(l.ns, l.bs, r) == i ==> r == l.parent[i]
  {
    assert NodeOk(hash, l, |l.ns|, i) && CellOk(l, |l.ns|, r);
  }

  /** The node reached from `i` by `steps` links, if the chain is that long. */
  ghost function Follow<K, V>(hash: K -> nat, l: Links<K, V>, i: nat, steps: nat): nat
    requires Linked(hash, l) && (i < |l.ns| || i == NULL_ADDR)
    ensures Follow(hash, l, i, steps) < |l.ns| || Follow(hash, l, i, steps) == NULL_ADDR
    decreases steps
  {
    if steps == 0 || i == NULL_ADDR then i else
      assert CellOk(l, |l.ns|, Next(i));
      Follow(hash, l, l.ns[i].nxtAddr, steps - 1)
  }

  /** Chains are acyclic: no node reaches itself again. */
  lemma {:induction false} Acyclic<K, V>(hash: K -> nat, l: Links<K, V>, i: nat, steps: nat)
    requires Linked(hash, l) && i < |l.ns| && steps > 0
    ensures Follow(hash, l, i, steps) != i
  {
    RankGrows(hash, l, i, steps);
  }

  lemma {:induction false} RankGrows<K, V>(hash: K -> nat, l: Links<K, V>, i: nat, steps: nat)
    requires Linked(hash, l) && i < |l.ns| && steps > 0
    ensures var j := Follow(hash, l, i, steps); j == NULL_ADDR || l.rank[i] < l.rank[j]
    decreases steps
  {
    assert CellOk(l, |l.ns|, Next(i));
    var n := l.ns[i].nxtAddr;
    if n != NULL_ADDR {
      assert NodeOk(hash, l, |l.ns|, n);
      if steps > 1 {
        RankGrows(hash, l, n, steps - 1);
      }
    }
  }

  // ----- walking a chain -----

  /** The cell `r` lies on the way from the bucket of node `i` to node `i`. */
  ghost predicate OnPath<K, V>(hash: K -> nat, l: Links<K, V>, i: nat, r: Ref)
    requires Linked(hash, l) && i < |l.ns|
    decreases l.rank[i]
  {
    assert NodeOk(hash, l, |l.ns|, i);
    r == l.parent[i] || (l.parent[i].Next? && OnPath(hash, l, l.parent[i].i, r))
  }

  lemma {:induction false} PathStarts<K, V>(hash: K -> nat, l: Links<K, V>, i: nat)
    requires Linked(hash, l) && i < |l.ns|
    ensures OnPath(hash, l, i, Bucket(BucketOf(hash, l.ns[i].first, |l.bs|)))
    decreases l.rank[i]
  {
    assert NodeOk(hash, l, |l.ns|, i);
    if l.parent[i].Next? {
      PathStarts(hash, l, l.parent[i].i);
    }
  }

  lemma {:induction false} PathStep<K, V>(hash: K -> nat, l: Links<K, V>, i: nat, r: Ref)
    requires Linked(hash, l) && i < |l.ns| && ValidRef(l.ns, l.bs, r)
    requires OnPath(hash, l, i, r)
    ensures var c := Cell(l.ns, l.bs, r);
      c < |l.ns| && (c == i || OnPath(hash, l, i, Next(c)))
    decreases l.rank[i]
  {
    assert NodeOk(hash, l, |l.ns|, i);
    if r != l.parent[i] {
      PathStep(hash, l, l.parent[i].i, r);
    }
  }

  ghost function MaxRank(rank: seq<nat>): (m: nat)
    ensures forall i :: 0 <= i < |rank| ==> rank[i] <= m
  {
    if rank == [] then 0 else
      var m := MaxRank(rank[1..]);
      if rank[0] > m then rank[0] else m
  }

  /** How far a walk at cell `r` still can go. */
  ghost function Ahead(rank: seq<nat>, r: Ref): nat
    requires r.Next? ==> r.i < |rank|
  {
    match r
    case Bucket(_) => MaxRank(rank) + 1
    case Next(i) => MaxRank(rank) - rank[i]
  }

  /** One step of a walk stays in the chain and comes closer to its end. */
  lemma WalkStep<K, V>(hash: K -> nat, l: Links<K, V>, r: Ref)
    requires Linked(hash, l) && ValidRef(l.ns, l.bs, r) && Cell(l.ns, l.bs, r) != NULL_ADDR
    ensures var c := Cell(l.ns, l.bs, r);
      && c < |l.ns|
      && RefBucket(hash, l.ns, l.bs, Next(c)) == RefBucket(hash, l.ns, l.bs, r)
      && Ahead(l.rank, Next(c)) < Ahead(l.rank, r)
  {
    assert CellOk(l, |l.ns|, r);
    assert NodeOk(hash, l, |l.ns|, Cell(l.ns, l.bs, r));
  }

  // ----- changing the chains -----

  /** Appends a node whose key belongs to the chain that ends at the empty cell `r`. */
  ghost function Appended<K, V>(l: Links<K, V>, r: Ref, node: Node<K, V>): (l': Links<K, V>)
    requires ValidRef(l.ns, l.bs, r) && |l.rank| == |l.ns|
  {
    Links(SetNode(l.ns, r, |l.ns|) + [node], SetBucket(l.bs, r, |l.ns|),
          l.parent + [r], l.rank + [if r.Next? then l.rank[r.i] + 1 else 0])
  }

  lemma AppendKeepsLinks<K, V>(hash: K -> nat, l: Links<K, V>, r: Ref, node: Node<K, V>)
    requires Linked(hash, l) && |l.ns| + 1 < NULL_ADDR
    requires ValidRef(l.ns, l.bs, r) && Cell(l.ns, l.bs, r) == NULL_ADDR
    requires RefBucket(hash, l.ns, l.bs, r) == BucketOf(hash, node.first, |l.bs|)
    requires node.nxtAddr == NULL_ADDR
    ensures Linked(hash, Appended(l, r, node))
  {
    var l' := Appended(l, r, node);
    var n, m := |l.ns|, |l.ns| + 1;
    forall q | ValidRef(l'.ns, l'.bs, q) && q != Next(m) ensures CellOk(l', m, q) {
      if q != r && q != Next(n) {
        assert CellOk(l, n, q);
      }
    }
    forall i: nat | i < m ensures NodeOk(hash, l', m, i) {
      if i < n {
        assert NodeOk(hash, l, n, i);
      }
    }
  }

  /** Takes node `v` out of its chain by pointing the cell before it at the node after it. */
  ghost function Unlinked<K, V>(l: Links<K, V>, v: nat): (l': Links<K, V>)
    requires v < |l.ns| == |l.parent| && ValidRef(l.ns, l.bs, l.parent[v])
  {
    var r, w := l.parent[v], l.ns[v].nxtAddr;
    Links(SetNode(l.ns, r, w), SetBucket(l.bs, r, w), if w < |l.ns| then l.parent[w := r] else l.parent, l.rank)
  }

  lemma UnlinkedCell<K, V>(hash: K -> nat, l: Links<K, V>, v: nat, q: Ref)
    requires Linked(hash, l) && v < |l.ns| && ValidRef(l.ns, l.bs, l.parent[v])
    requires ValidRef(l.ns, l.bs, q) && q != Next(v)
    ensures CellOk(Unlinked(l, v), v, q)
  {
    var n := |l.ns|;
    assert NodeOk(hash, l, n, v) && CellOk(l, n, Next(v)) && CellOk(l, n, q);
  }

  lemma UnlinkedNode<K, V>(hash: K -> nat, l: Links<K, V>, v: nat, i: nat)
    requires Linked(hash, l) && v < |l.ns| && ValidRef(l.ns, l.bs, l.parent[v])
    requires i < |l.ns| && i != v
    ensures NodeOk(hash, Unlinked(l, v), v, i)
  {
    var n := |l.ns|;
    assert NodeOk(hash, l, n, v) && CellOk(l, n, Next(v)) && NodeOk(hash, l, n, i);
  }

  lemma UnlinkLeavesHole<K, V>(hash: K -> nat, l: Links<K, V>, v: nat)
    requires Linked(hash, l) && v < |l.ns|
    requires ValidRef(l.ns, l.bs, l.parent[v])
    ensures LinkedBut(hash, Unlinked(l, v), v)
  {
    var l', n := Unlinked(l, v), |l.ns|;
    forall q | ValidRef(l'.ns, l'.bs, q) && q != Next(v) ensures CellOk(l', v, q) {
      UnlinkedCell(hash, l, v, q);
    }
    forall i: nat | i < n && i != v ensures NodeOk(hash, l', v, i) {
      UnlinkedNode(hash, l, v, i);
    }
  }

  /** The cell that pointed at the last node, once that node has moved to place `v`. */
  function Renamed(r: Ref, last: nat, v: nat): Ref
  {
    if r == Next(last) then Next(v) else r
  }

  /** Moves the last node into the hole `v` and drops the last place. */
  ghost function MovedLast<K, V>(l: Links<K, V>, v: nat): (l': Links<K, V>)
    requires v < |l.ns| - 1 && |l.ns| == |l.parent| == |l.rank|
    requires ValidRef(l.ns, l.bs, l.parent[|l.ns| - 1])
  {
    var n := |l.ns| - 1;
    var r := l.parent[n];
    Links(SetNode(l.ns, r, v)[v := l.ns[n]][..n], SetBucket(l.bs, r, v),
          seq(n, i requires 0 <= i < n => if i == v then r else Renamed(l.parent[i], n, v)),
          l.rank[v := l.rank[n]][..n])
  }

  lemma MovedCell<K, V>(hash: K -> nat, l: Links<K, V>, v: nat, q: Ref)
    requires v < |l.ns| - 1 && LinkedBut(hash, l, v) && ValidRef(l.ns, l.bs, l.parent[|l.ns| - 1])
    requires ValidRef(l.ns, l.bs, q) && q != Next(|l.ns| - 1)
    ensures CellOk(MovedLast(l, v), |l.ns| - 1, q)
  {
    var n := |l.ns| - 1;
    assert NodeOk(hash, l, v, n) && CellOk(l, v, if q == Next(v) then Next(n) else q);
  }

  lemma MovedNode<K, V>(hash: K -> nat, l: Links<K, V>, v: nat, i: nat)
    requires v < |l.ns| - 1 && LinkedBut(hash, l, v) && ValidRef(l.ns, l.bs, l.parent[|l.ns| - 1])
    requires i < |l.ns| - 1 && i != v
    ensures NodeOk(hash, MovedLast(l, v), |l.ns| - 1, i)
  {
    var n := |l.ns| - 1;
    assert NodeOk(hash, l, v, n) && NodeOk(hash, l, v, i);
  }

  lemma MoveLastFillsHole<K, V>(hash: K -> nat, l: Links<K, V>, v: nat)
    requires v < |l.ns| - 1 && LinkedBut(hash, l, v)
    requires ValidRef(l.ns, l.bs, l.parent[|l.ns| - 1])
    ensures Linked(hash, MovedLast(l, v))
  {
    var l', n := MovedLast(l, v), |l.ns| - 1;
    forall q | ValidRef(l'.ns, l'.bs, q) && q != Next(n) ensures CellOk(l', n, q) {
      MovedCell(hash, l, v, q);
    }
    forall i: nat | i < n ensures NodeOk(hash, l', n, i) {
      if i == v {
        assert NodeOk(hash, l, v, n);
      } else {
        MovedNode(hash, l, v, i);
      }
    }
  }

  /** Drops the last place when it is the hole. */
  ghost function DroppedLast<K, V>(l: Links<K, V>): (l': Links<K, V>)
    requires 0 < |l.ns| == |l.parent| == |l.rank|
  {
    var n := |l.ns| - 1;
    Links(l.ns[..n], l.bs, l.parent[..n], l.rank[..n])
  }

  lemma DropLastHole<K, V>(hash: K -> nat, l: Links<K, V>)
    requires 0 < |l.ns| && LinkedBut(hash, l, |l.ns| - 1)
    ensures Linked(hash, DroppedLast(l))
  {
    var l', n := DroppedLast(l), |l.ns| - 1;
    forall q | ValidRef(l'.ns, l'.bs, q) && q != Next(n) ensures CellOk(l', n, q) {
      assert CellOk(l, n, q);
    }
    forall i: nat | i < n ensures NodeOk(hash, l', n, i) {
      assert NodeOk(hash, l, n, i);
    }
  }

  // ----- erasing a node -----

  /** The chains once node `v` is erased and the last node, if another, has moved to its place. */
  ghost function Erased<K, V>(hash: K -> nat, l: Links<K, V>, v: nat): (l': Links<K, V>)
    requires Linked(hash, l) && v < |l.ns|
    ensures Linked(hash, l')
    ensures |l'.ns| == |l.ns| - 1 && |l'.bs| == |l.bs|
  {
    var n := |l.ns| - 1;
    assert NodeOk(hash, l, n + 1, v);
    UnlinkLeavesHole(hash, l, v);
    var l1 := Unlinked(l, v);
    if v == n then
      DropLastHole(hash, l1);
      DroppedLast(l1)
    else
      assert NodeOk(hash, l1, v, n);
      MoveLastFillsHole(hash, l1, v);
      MovedLast(l1, v)
  }

  /** What `*kr := v.nxt`, `*sr := v` and the last node copied over `v` leave. */
  ghost predicate Exchanged<K, V>(l: Links<K, V>, l': Links<K, V>, v: nat, kr: Ref, sr: Ref)
    requires v < |l.ns| && ValidRef(l.ns, l.bs, kr) && ValidRef(l.ns, l.bs, sr)
  {
    var n, w := |l.ns| - 1, l.ns[v].nxtAddr;
    var ns2 := SetNode(SetNode(l.ns, kr, w), sr, v);
    l'.ns == ns2[v := ns2[n]][..n] && l'.bs == SetBucket(SetBucket(l.bs, kr, w), sr, v)
  }

  /** The assignments of the erase branch for another last node: `*kr := v.nxt` and `*sr := v`, then the last
      node is copied over `v`, where `sr` is the cell of the last node, or `kr` if that cell is the erased node's own. */
  lemma ExchangeErases<K, V>(hash: K -> nat, l: Links<K, V>, v: nat, sr: Ref)
    requires Linked(hash, l) && v < |l.ns| - 1
    requires ValidRef(l.ns, l.bs, l.parent[v]) && ValidRef(l.ns, l.bs, sr)
    requires sr == if l.parent[|l.ns| - 1] == Next(v) then l.parent[v] else l.parent[|l.ns| - 1]
    ensures Exchanged(l, Erased(hash, l, v), v, l.parent[v], sr)
  {
    var n := |l.ns| - 1;
    assert NodeOk(hash, l, n + 1, v) && NodeOk(hash, l, n + 1, n);
    assert CellOk(l, n + 1, Next(v));
    assert Unlinked(l, v).parent[n] == sr;
    SameLinksAfterMove(l, Unlinked(l, v), v, sr);
  }

  lemma SameLinksAfterMove<K, V>(l: Links<K, V>, l1: Links<K, V>, v: nat, sr: Ref)
    requires v < |l1.ns| - 1 && |l1.ns| == |l1.parent| == |l1.rank|
    requires l1.parent[|l1.ns| - 1] == sr && ValidRef(l1.ns, l1.bs, sr) && sr != Next(v)
    ensures var n := |l1.ns| - 1;
      var ns2 := SetNode(l1.ns, sr, v);
      sr != Next(n) ==> MovedLast(l1, v).ns == ns2[v := ns2[n]][..n]
  {}

  /** Erasing the last node only takes it out of its chain. */
  lemma UnlinkErases<K, V>(hash: K -> nat, l: Links<K, V>)
    requires Linked(hash, l) && l.ns != []
    requires ValidRef(l.ns, l.bs, l.parent[|l.ns| - 1])
    ensures var n := |l.ns| - 1; var kr, w := l.parent[n], l.ns[n].nxtAddr;
      && Erased(hash, l, n).ns == SetNode(l.ns, kr, w)[..n]
      && Erased(hash, l, n).bs == SetBucket(l.bs, kr, w)
  {}
}
