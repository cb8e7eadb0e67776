/** Where the buffers of the layered allocator are: bucket lists of the shards, size queues and free vectors
    of the threads' caches, or a user's hands. */
module BufferLedger {
  import opened Options
  import opened PowersOfTwo

  /** The address of a buffer's first byte. */
  type Ptr = nat

  /** `BinaryUnitAllocator`: free buffers by bucket, buffers ever made, and the capacity of each list. */
  datatype Shard = Shard(unitMap: map<nat, seq<Ptr>>, unitCounter: map<nat, nat>, reserved: map<nat, nat>)

  /** `AffinedAllocator`: spare queues, queues in use by size, and buffers on their way back to the shards. */
  datatype Cache = Cache(poolVec: nat, cacheMap: map<nat, seq<Ptr>>, freeVec: seq<Ptr>)

  /** `Live`: with a user. `Busy`: in the hands of a call of thread `t` that is under way. */
  datatype Place = Live | Busy(t: nat) | Cached(t: nat, s: nat) | Freeing(t: nat) | Listed(k: nat, b: nat)

  predicate Out(l: Place) { l.Live? || l.Busy? }

  /** The buffers stored at a place, in order; nothing is stored for those that are out. */
  function SeqAt(shards: seq<Shard>, caches: seq<Cache>, l: Place): seq<Ptr>
  {
    match l
    case Live => []
    case Busy(_) => []
    case Cached(t, s) => if t < |caches| && s in caches[t].cacheMap then caches[t].cacheMap[s] else []
    case Freeing(t) => if t < |caches| then caches[t].freeVec else []
    case Listed(k, b) => if k < |shards| && b in shards[k].unitMap then shards[k].unitMap[b] else []
  }

  ghost predicate NoDup(ps: seq<Ptr>)
  {
    forall i, j :: 0 <= i < j < |ps| ==> ps[i] != ps[j]
  }

  /** Every buffer made is stored exactly once, at its place, or is out. */
  ghost predicate Filed(shards: seq<Shard>, caches: seq<Cache>, place: map<Ptr, Place>)
  {
    forall l :: FiledAt(SeqAt(shards, caches, l), place, l)
  }

  ghost predicate FiledAt(ps: seq<Ptr>, place: map<Ptr, Place>, l: Place)
  {
    NoDup(ps) && forall p :: (p in ps <==> !Out(l) && p in place && place[p] == l)
  }

  /** No buffer is stored at two places, or twice at one. */
  lemma StoredOnce(shards: seq<Shard>, caches: seq<Cache>, place: map<Ptr, Place>, l: Place, m: Place, i: nat, j: nat)
    requires Filed(shards, caches, place)
    requires i < |SeqAt(shards, caches, l)| && j < |SeqAt(shards, caches, m)|
    requires SeqAt(shards, caches, l)[i] == SeqAt(shards, caches, m)[j]
    ensures l == m && i == j
  {
    assert FiledAt(SeqAt(shards, caches, l), place, l) && FiledAt(SeqAt(shards, caches, m), place, m);
    var p := SeqAt(shards, caches, l)[i];
    assert p in SeqAt(shards, caches, l) && p in SeqAt(shards, caches, m);
  }

  /** One buffer taken from the sequence of its place and put at the end of another's. */
  ghost predicate Carried(shards: seq<Shard>, caches: seq<Cache>, shards': seq<Shard>, caches': seq<Cache>, p: Ptr, from: Place, to: Place)
  {
    && from != to
    && (forall l :: l != from && l != to ==> SeqAt(shards', caches', l) == SeqAt(shards, caches, l))
    && (!Out(from) ==> TakenOut(SeqAt(shards, caches, from), SeqAt(shards', caches', from), p))
    && (!Out(to) ==> SeqAt(shards', caches', to) == SeqAt(shards, caches, to) + [p])
  }

  /** `p` was at the front or at the back of `ps`, and `ps'` is the rest. */
  ghost predicate TakenOut(ps: seq<Ptr>, ps': seq<Ptr>, p: Ptr)
  {
    ps == [p] + ps' || ps == ps' + [p]
  }

  lemma {:induction false} TakenOutLosesOnly(ps: seq<Ptr>, ps': seq<Ptr>, p: Ptr)
    requires TakenOut(ps, ps', p) && NoDup(ps)
    ensures NoDup(ps') && p in ps && forall q :: q in ps' <==> q in ps && q != p
  {
    var d, at := if ps == [p] + ps' then 1 else 0, if ps == [p] + ps' then 0 else |ps'|;
    assert ps[at] == p;
    forall i | 0 <= i < |ps'| ensures ps'[i] != p {
      assert ps[i + d] == ps'[i];
    }
    forall i, j | 0 <= i < j < |ps'| ensures ps'[i] != ps'[j] {
      assert ps[i + d] == ps'[i] && ps[j + d] == ps'[j];
    }
    forall q ensures q in ps' <==> q in ps && q != p {
      assert q in ps <==> q in ps' || q == p;
    }
  }

  /** Moving a buffer moves its entry; `from` is `Live` for a buffer that has just been made. */
  lemma {:induction false} CarriedIsFiled(shards: seq<Shard>, caches: seq<Cache>, shards': seq<Shard>, caches': seq<Cache>,
                                          place: map<Ptr, Place>, p: Ptr, from: Place, to: Place)
    requires Filed(shards, caches, place) && Carried(shards, caches, shards', caches', p, from, to)
    requires if p in place then place[p] == from else from == Live
    ensures Filed(shards', caches', place[p := to])
  {
    var place' := place[p := to];
    forall l ensures FiledAt(SeqAt(shards', caches', l), place', l) {
      var ps := SeqAt(shards, caches, l);
      assert FiledAt(ps, place, l);
      if l == from && !Out(l) {
        TakenOutLosesOnly(ps, SeqAt(shards', caches', l), p);
      } else if l == to && !Out(l) {
        assert p !in ps;
        assert forall q :: q in ps + [p] <==> q in ps || q == p;
      }
    }
  }

  // ----- how many buffers a bucket made -----

  datatype Home = Home(k: nat, b: nat)

  /** The buffers a shard ever made for a bucket. */
  ghost function Made(home: map<Ptr, Home>, k: nat, b: nat): set<Ptr>
  {
    set p | p in home && home[p] == Home(k, b)
  }

  lemma {:induction false} NoDupFits(ps: seq<Ptr>, s: set<Ptr>)
    requires NoDup(ps) && forall p :: p in ps ==> p in s
    ensures |ps| <= |s|
  {
    if ps != [] {
      var n := |ps| - 1;
      assert ps[n] in ps;
      forall p | p in ps[..n] ensures p in s - {ps[n]} {
        var i :| 0 <= i < n && ps[..n][i] == p;
        assert ps[i] in ps;
      }
      NoDupFits(ps[..n], s - {ps[n]});
    }
  }

  /** A free list never outgrows the buffers made for it, and has room for one that is not in it. */
  lemma {:induction false} ListWithinMade(shards: seq<Shard>, caches: seq<Cache>, place: map<Ptr, Place>, home: map<Ptr, Home>,
                                          k: nat, b: nat, p: Ptr)
    requires Filed(shards, caches, place) && home.Keys == place.Keys
    requires forall q :: q in place && place[q] == Listed(k, b) ==> home[q] == Home(k, b)
    ensures |SeqAt(shards, caches, Listed(k, b))| <= |Made(home, k, b)|
    ensures p in place && place[p] != Listed(k, b) && home[p] == Home(k, b) ==> |SeqAt(shards, caches, Listed(k, b))| < |Made(home, k, b)|
  {
    var ps := SeqAt(shards, caches, Listed(k, b));
    assert FiledAt(ps, place, Listed(k, b));
    NoDupFits(ps, Made(home, k, b));
    if p in place && place[p] != Listed(k, b) && home[p] == Home(k, b) {
      assert Made(home, k, b) == Made(home, k, b) - {p} + {p};
      NoDupFits(ps, Made(home, k, b) - {p});
    }
  }

  // ----- the books -----

  datatype Flag = Unset | Small | Large

  /** What is known of the header bytes of a buffer: the bucket; the shard, once written; the size of its queue, zero where
      that is not in the bytes; and the flag byte, once written, which stands behind the size of a small buffer and in its
      place in a large one. */
  datatype Header = Header(bucket: nat, shard: Option<nat>, usrSz: nat, flag: Flag)

  datatype Field = ShardByte(k: nat) | SizeBytes(s: nat) | FlagByte(large: bool)

  /** The header after one of its fields was written. */
  function Rewritten(h: Header, f: Field): (h': Header)
    ensures h'.bucket == h.bucket
  {
    match f
    case ShardByte(k) => h.(shard := Some(k))
    case SizeBytes(s) => h.(usrSz := s, flag := Unset)
    case FlagByte(large) => if large then h.(usrSz := 0, flag := Large) else h.(flag := Small)
  }

  const SHARDS: nat := 4              // BINARY_UNIT_ALLOCATOR_CONCURRENCY_SZ
  const POOLS: nat := 64              // STACK_CAPTURE_POOL_SZ
  const QUEUE_CAPACITY: nat := 64     // STACK_CAPTURE_POOL_POPULATION
  const FREE_VEC_CAPACITY: nat := 64
  const UINT32_BOUND: nat := 0x1_0000_0000

  const MIN_POW2_VALUE: nat := 5

  /** The smallest bucket whose buffers hold `n` bytes. */
  predicate LeastBucket(b: nat, n: nat)
  {
    MIN_POW2_VALUE <= b && n <= Pow2(b) && (b > MIN_POW2_VALUE ==> Pow2(b - 1) < n)
  }

  /** The header of a buffer for the queue of size `s`. */
  predicate FitsQueue(h: Header, s: nat)
  {
    h.usrSz == s && 0 < s < UINT32_BOUND
  }

  /** The flag says whether the buffer goes back to a size queue, of the size in its header, or to its shard. */
  predicate Flagged(h: Header)
  {
    h.flag.Large? || (h.flag.Small? && FitsQueue(h, h.usrSz))
  }

  /** A bucket large enough for the headers, a shard that exists, and, for a buffer of a size queue, the least bucket that
      holds the size with six bytes more, for the size, shard and bucket headers. */
  predicate Fitting(h: Header)
  {
    && MIN_POW2_VALUE <= h.bucket && (h.shard.Some? ==> h.shard.value < SHARDS)
    && (h.usrSz > 0 ==> h.usrSz < UINT32_BOUND && LeastBucket(h.bucket, h.usrSz + 6))
    && (h.flag.Large? ==> h.usrSz == 0)
  }

  ghost predicate Exact(header: map<Ptr, Header>)
  {
    forall p :: p in header ==> Fitting(header[p])
  }

  /** What the header of a buffer must say for the next `free` of it to go home. */
  ghost predicate HeadOk(h: Header, l: Place, home: Home)
  {
    && h.bucket == home.b && home.k < SHARDS
    && match l
       case Busy(_) => true
       case Listed(k, b) => home == Home(k, b)
       case Freeing(t) => h.shard == Some(home.k)
       case Cached(t, s) => h.shard == Some(home.k) && FitsQueue(h, s)
       case Live => h.shard == Some(home.k) && Flagged(h)
  }

  ghost predicate Headed(header: map<Ptr, Header>, place: map<Ptr, Place>, home: map<Ptr, Home>)
  {
    && home.Keys == place.Keys && header.Keys == place.Keys
    && forall p :: p in place ==> HeadOk(header[p], place[p], home[p])
  }

  /** The counter of a bucket is the number of buffers made for it, and its list has room for them all. */
  ghost predicate ShardOk(sh: Shard, k: nat, home: map<Ptr, Home>)
  {
    && sh.unitMap.Keys == sh.unitCounter.Keys && sh.reserved.Keys == sh.unitCounter.Keys
    && (forall b :: b in sh.unitCounter ==> sh.unitCounter[b] == |Made(home, k, b)| && sh.unitCounter[b] <= sh.reserved[b])
    && (forall p :: p in home && home[p].k == k ==> home[p].b in sh.unitCounter)
  }

  ghost predicate ShardsOk(shards: seq<Shard>, home: map<Ptr, Home>)
  {
    |shards| == SHARDS && forall k :: 0 <= k < SHARDS ==> ShardOk(shards[k], k, home)
  }

  /** The buffers' byte ranges do not overlap. */
  ghost predicate Apart(header: map<Ptr, Header>, heapTop: nat)
  {
    && (forall p :: p in header ==> p + Pow2(header[p].bucket) <= heapTop)
    && (forall p, q :: p in header && q in header && p < q ==> p + Pow2(header[p].bucket) <= q)
  }

  /** Spare queues and queues in use are always `POOLS` together, and nothing holds more than it has room for. */
  ghost predicate Sized(c: Cache)
  {
    c.poolVec + |c.cacheMap| == POOLS && |c.freeVec| <= FREE_VEC_CAPACITY && forall s :: s in c.cacheMap ==> QueueSized(c, s)
  }

  predicate QueueSized(c: Cache, s: nat)
    requires s in c.cacheMap
  {
    0 < s < UINT32_BOUND && |c.cacheMap[s]| <= QUEUE_CAPACITY
  }

  /** The allocator: its memory up to `heapTop`, and where each buffer is and where it came from. */
  datatype State = State(shards: seq<Shard>, caches: seq<Cache>, header: map<Ptr, Header>, heapTop: nat,
                         place: map<Ptr, Place>, home: map<Ptr, Home>)

  ghost predicate Books(st: State)
  {
    && ShardsOk(st.shards, st.home)
    && Filed(st.shards, st.caches, st.place)
    && Headed(st.header, st.place, st.home)
    && Apart(st.header, st.heapTop)
  }

  // ----- steps -----

  lemma {:induction false} HeadedWritten(header: map<Ptr, Header>, h: Header, place: map<Ptr, Place>, to: Place, home: map<Ptr, Home>, p: Ptr)
    requires Headed(header, place, home) && p in place && p in home && HeadOk(h, to, home[p])
    ensures Headed(header[p := h], place[p := to], home)
  {
    var header', place' := header[p := h], place[p := to];
    forall q | q in place' ensures HeadOk(header'[q], place'[q], home[q]) {
      assert q in place ==> HeadOk(header[q], place[q], home[q]);
    }
  }

  lemma {:induction false} BucketAtHome(st: State, p: Ptr)
    requires Headed(st.header, st.place, st.home) && p in st.place
    ensures p in st.header && p in st.home && st.header[p].bucket == st.home[p].b && st.home[p].k < SHARDS
    ensures HeadOk(st.header[p], st.place[p], st.home[p])
    ensures st.place[p].Listed? ==> st.place[p] == Listed(st.home[p].k, st.home[p].b)
  {
    assert HeadOk(st.header[p], st.place[p], st.home[p]);
  }

  /** A buffer moved between shards, caches and those who have it out. */
  lemma {:induction false} MoveKeepsBooks(st: State, st': State, p: Ptr, to: Place)
    requires Books(st) && p in st.place && p in st.home && p in st.header && HeadOk(st.header[p], to, st.home[p])
    requires Carried(st.shards, st.caches, st'.shards, st'.caches, p, st.place[p], to) && ShardsOk(st'.shards, st.home)
    requires st' == st.(shards := st'.shards, caches := st'.caches, place := st.place[p := to])
    ensures Books(st')
  {
    CarriedIsFiled(st.shards, st.caches, st'.shards, st'.caches, st.place, p, st.place[p], to);
    HeadedWritten(st.header, st.header[p], st.place, to, st.home, p);
    assert st.header[p := st.header[p]] == st.header;
  }

  /** The header of a buffer that is out written, and the buffer perhaps passed on to a user or a call. */
  lemma {:induction false} WriteKeepsBooks(st: State, p: Ptr, h: Header, to: Place)
    requires Books(st) && p in st.place && Out(st.place[p]) && Out(to) && p in st.home && HeadOk(h, to, st.home[p])
    ensures Books(st.(header := st.header[p := h], place := st.place[p := to]))
  {
    var place' := st.place[p := to];
    forall l ensures FiledAt(SeqAt(st.shards, st.caches, l), place', l) {
      assert FiledAt(SeqAt(st.shards, st.caches, l), st.place, l);
    }
    BucketAtHome(st, p);
    HeadedWritten(st.header, h, st.place, to, st.home, p);
  }

  function WithList(shards: seq<Shard>, k: nat, b: nat, ps: seq<Ptr>): (shards': seq<Shard>)
    requires k < |shards|
  {
    shards[k := shards[k].(unitMap := shards[k].unitMap[b := ps])]
  }

  lemma {:induction false} WithListOk(shards: seq<Shard>, home: map<Ptr, Home>, k: nat, b: nat, ps: seq<Ptr>)
    requires ShardsOk(shards, home) && k < SHARDS && b in shards[k].unitMap
    ensures ShardsOk(WithList(shards, k, b, ps), home)
  {
    var shards' := WithList(shards, k, b, ps);
    assert shards'[k].unitMap.Keys == shards[k].unitMap.Keys;
    forall j | 0 <= j < SHARDS ensures ShardOk(shards'[j], j, home) {
      assert ShardOk(shards[j], j, home);
    }
  }

  lemma {:induction false} WithListElsewhere(shards: seq<Shard>, caches: seq<Cache>, k: nat, b: nat, ps: seq<Ptr>)
    requires k < |shards|
    ensures SeqAt(WithList(shards, k, b, ps), caches, Listed(k, b)) == ps
    ensures forall l :: l != Listed(k, b) ==> SeqAt(WithList(shards, k, b, ps), caches, l) == SeqAt(shards, caches, l)
  {}

  lemma {:induction false} PlaceOf(st: State, l: Place, p: Ptr)
    requires Books(st) && p in SeqAt(st.shards, st.caches, l)
    ensures p in st.place && st.place[p] == l && p in st.header && p in st.home && HeadOk(st.header[p], l, st.home[p])
  {
    assert FiledAt(SeqAt(st.shards, st.caches, l), st.place, l);
  }

  /** A buffer popped off the back of a bucket's list. */
  lemma {:induction false} TakeKeepsBooks(st: State, k: nat, b: nat, u: nat)
    requires Books(st) && k < SHARDS && b in st.shards[k].unitMap && st.shards[k].unitMap[b] != []
    ensures var ps := st.shards[k].unitMap[b]; var p := ps[|ps| - 1];
      && p in st.place && st.place[p] == Listed(k, b) && p in st.home && st.home[p] == Home(k, b) && p in st.header && st.header[p].bucket == b
      && Books(st.(shards := WithList(st.shards, k, b, ps[..|ps| - 1]), place := st.place[p := Busy(u)]))
  {
    var ps := st.shards[k].unitMap[b];
    var p, rest := ps[|ps| - 1], ps[..|ps| - 1];
    assert ps == rest + [p];
    PlaceOf(st, Listed(k, b), p);
    WithListElsewhere(st.shards, st.caches, k, b, rest);
    WithListOk(st.shards, st.home, k, b, rest);
    MoveKeepsBooks(st, st.(shards := WithList(st.shards, k, b, rest), place := st.place[p := Busy(u)]), p, Busy(u));
  }

  /** The list of a buffer that is out is not full: `push_back` never allocates. */
  lemma {:induction false} RoomInList(st: State, p: Ptr)
    requires Books(st) && p in st.place && Out(st.place[p])
    ensures p in st.home && st.home[p].k < |st.shards|
    ensures var sh, b := st.shards[st.home[p].k], st.home[p].b;
      b in sh.unitMap && b in sh.reserved && |sh.unitMap[b]| < sh.reserved[b]
  {
    BucketAtHome(st, p);
    var k, b := st.home[p].k, st.home[p].b;
    assert ShardOk(st.shards[k], k, st.home);
    forall q | q in st.place && st.place[q] == Listed(k, b) ensures st.home[q] == Home(k, b) {
      BucketAtHome(st, q);
    }
    ListWithinMade(st.shards, st.caches, st.place, st.home, k, b, p);
    assert SeqAt(st.shards, st.caches, Listed(k, b)) == st.shards[k].unitMap[b];
  }

  /** A buffer in a call's hands pushed on its bucket's list, which has room for it. */
  lemma {:induction false} GiveKeepsBooks(st: State, p: Ptr)
    requires Books(st) && p in st.place && st.place[p].Busy?
    ensures p in st.home && st.home[p].k < |st.shards| && st.home[p].b in st.shards[st.home[p].k].unitMap
    ensures var k, b := st.home[p].k, st.home[p].b;
      Books(st.(shards := WithList(st.shards, k, b, st.shards[k].unitMap[b] + [p]), place := st.place[p := Listed(k, b)]))
  {
    RoomInList(st, p);
    BucketAtHome(st, p);
    var k, b := st.home[p].k, st.home[p].b;
    var ps := st.shards[k].unitMap[b] + [p];
    WithListElsewhere(st.shards, st.caches, k, b, ps);
    WithListOk(st.shards, st.home, k, b, ps);
    MoveKeepsBooks(st, st.(shards := WithList(st.shards, k, b, ps), place := st.place[p := Listed(k, b)]), p, Listed(k, b));
  }

  // ----- a new buffer -----

  function Greater(a: nat, b: nat): nat { if a < b then b else a }

  /** The counter advanced and the list's capacity reserved for all the buffers it could get. */
  function WithOneMore(sh: Shard, b: nat): Shard
  {
    var n := (if b in sh.unitCounter then sh.unitCounter[b] else 0) + 1;
    Shard(if b in sh.unitMap then sh.unitMap else sh.unitMap[b := []],
          sh.unitCounter[b := n],
          sh.reserved[b := Greater(if b in sh.reserved then sh.reserved[b] else 0, Ceil2(n))])
  }

  lemma {:induction false} ReservedOneMore(sh: Shard, b: nat)
    requires sh.unitMap.Keys == sh.unitCounter.Keys && sh.reserved.Keys == sh.unitCounter.Keys
    requires forall c :: c in sh.unitCounter ==> sh.unitCounter[c] <= sh.reserved[c]
    ensures var sh' := WithOneMore(sh, b);
      && sh'.unitMap.Keys == sh'.unitCounter.Keys && sh'.reserved.Keys == sh'.unitCounter.Keys
      && sh'.unitCounter.Keys == sh.unitCounter.Keys + {b}
      && forall c :: c in sh'.unitCounter ==> sh'.unitCounter[c] <= sh'.reserved[c]
  {
    var sh', keys := WithOneMore(sh, b), sh.unitCounter.Keys + {b};
    assert sh'.unitMap.Keys == keys && sh'.unitCounter.Keys == keys && sh'.reserved.Keys == keys;
  }

  lemma {:induction false} CountedOneMore(sh: Shard, k: nat, b: nat, home: map<Ptr, Home>, p: Ptr, c: nat)
    requires ShardOk(sh, k, home) && p !in home && c in WithOneMore(sh, b).unitCounter
    ensures WithOneMore(sh, b).unitCounter[c] == |Made(home[p := Home(k, b)], k, c)|
  {
    if c != b {
      assert Made(home[p := Home(k, b)], k, c) == Made(home, k, c);
    } else {
      MadeOneMore(home, k, b, p);
      assert b !in sh.unitCounter ==> Made(home, k, b) == {};
    }
  }

  lemma {:induction false} ShardWithOneMore(sh: Shard, k: nat, b: nat, home: map<Ptr, Home>, p: Ptr)
    requires ShardOk(sh, k, home) && p !in home
    ensures ShardOk(WithOneMore(sh, b), k, home[p := Home(k, b)])
  {
    var home', sh' := home[p := Home(k, b)], WithOneMore(sh, b);
    ReservedOneMore(sh, b);
    forall c | c in sh'.unitCounter ensures sh'.unitCounter[c] == |Made(home', k, c)| {
      CountedOneMore(sh, k, b, home, p, c);
    }
  }

  lemma {:induction false} MadeOneMore(home: map<Ptr, Home>, k: nat, b: nat, p: Ptr)
    requires p !in home
    ensures |Made(home[p := Home(k, b)], k, b)| == |Made(home, k, b)| + 1
  {
    assert Made(home[p := Home(k, b)], k, b) == Made(home, k, b) + {p};
  }

  lemma {:induction false} OtherShardsKept(sh: Shard, j: nat, home: map<Ptr, Home>, p: Ptr, h: Home)
    requires ShardOk(sh, j, home) && p !in home && h.k != j
    ensures ShardOk(sh, j, home[p := h])
  {
    forall c | c in sh.unitCounter ensures sh.unitCounter[c] == |Made(home[p := h], j, c)| {
      assert Made(home[p := h], j, c) == Made(home, j, c);
    }
  }

  /** A buffer of `2^b` bytes made at the top of the heap by shard `k`, in the hands of thread `t`. */
  ghost function WithBuffer(st: State, t: nat, k: nat, b: nat): State
    requires k < |st.shards|
  {
    var p := st.heapTop;
    State(st.shards[k := WithOneMore(st.shards[k], b)], st.caches, st.header[p := Header(b, None, 0, Unset)], p + Pow2(b),
          st.place[p := Busy(t)], st.home[p := Home(k, b)])
  }

  lemma {:induction false} TopIsNew(st: State)
    requires Apart(st.header, st.heapTop) && Headed(st.header, st.place, st.home)
    ensures st.heapTop !in st.place && st.heapTop !in st.header && st.heapTop !in st.home
  {
    assert st.heapTop in st.header ==> st.heapTop + Pow2(st.header[st.heapTop].bucket) <= st.heapTop;
  }

  lemma {:induction false} MakeKeepsBooks(st: State, t: nat, k: nat, b: nat)
    requires Books(st) && k < SHARDS
    ensures st.heapTop !in st.place && Books(WithBuffer(st, t, k, b))
  {
    var p := st.heapTop;
    TopIsNew(st);
    WithOneMoreStored(st.shards, st.caches, k, b);
    CarriedIsFiled(st.shards, st.caches, st.shards[k := WithOneMore(st.shards[k], b)], st.caches, st.place, p, Live, Busy(t));
    ShardsWithOneMore(st.shards, k, b, st.home, p);
    HeadedOneMore(st.header, Header(b, None, 0, Unset), st.place, st.home, k, b, p, t);
    ApartOneMore(st.header, st.heapTop, Header(b, None, 0, Unset));
  }

  lemma {:induction false} ShardsWithOneMore(shards: seq<Shard>, k: nat, b: nat, home: map<Ptr, Home>, p: Ptr)
    requires ShardsOk(shards, home) && k < SHARDS && p !in home
    ensures ShardsOk(shards[k := WithOneMore(shards[k], b)], home[p := Home(k, b)])
  {
    var shards' := shards[k := WithOneMore(shards[k], b)];
    forall j | 0 <= j < SHARDS ensures ShardOk(shards'[j], j, home[p := Home(k, b)]) {
      assert ShardOk(shards[j], j, home);
      if j == k {
        ShardWithOneMore(shards[j], k, b, home, p);
      } else {
        OtherShardsKept(shards[j], j, home, p, Home(k, b));
      }
    }
  }

  lemma {:induction false} ApartOneMore(header: map<Ptr, Header>, heapTop: nat, h: Header)
    requires Apart(header, heapTop)
    ensures Apart(header[heapTop := h], heapTop + Pow2(h.bucket))
  {}

  lemma {:induction false} WithOneMoreStored(shards: seq<Shard>, caches: seq<Cache>, k: nat, b: nat)
    requires k < |shards|
    ensures forall l :: SeqAt(shards[k := WithOneMore(shards[k], b)], caches, l) == SeqAt(shards, caches, l)
  {}

  lemma {:induction false} HeadedOneMore(header: map<Ptr, Header>, h: Header, place: map<Ptr, Place>, home: map<Ptr, Home>,
                                         k: nat, b: nat, p: Ptr, u: nat)
    requires Headed(header, place, home) && p !in place && k < SHARDS && h.bucket == b
    ensures Headed(header[p := h], place[p := Busy(u)], home[p := Home(k, b)])
  {
    var header', place', home' := header[p := h], place[p := Busy(u)], home[p := Home(k, b)];
    forall q | q in place' ensures HeadOk(header'[q], place'[q], home'[q]) {
      assert q in place ==> HeadOk(header[q], place[q], home[q]);
    }
  }

  // ----- queues and free vectors -----

  function WithQueue(caches: seq<Cache>, t: nat, s: nat, q: seq<Ptr>): seq<Cache>
    requires t < |caches|
  {
    caches[t := caches[t].(cacheMap := caches[t].cacheMap[s := q])]
  }

  function WithFreeVec(caches: seq<Cache>, t: nat, v: seq<Ptr>): seq<Cache>
    requires t < |caches|
  {
    caches[t := caches[t].(freeVec := v)]
  }

  lemma {:induction false} WithQueueElsewhere(shards: seq<Shard>, caches: seq<Cache>, t: nat, s: nat, q: seq<Ptr>)
    requires t < |caches|
    ensures SeqAt(shards, WithQueue(caches, t, s, q), Cached(t, s)) == q
    ensures forall l :: l != Cached(t, s) ==> SeqAt(shards, WithQueue(caches, t, s, q), l) == SeqAt(shards, caches, l)
  {}

  lemma {:induction false} WithFreeVecElsewhere(shards: seq<Shard>, caches: seq<Cache>, t: nat, v: seq<Ptr>)
    requires t < |caches|
    ensures SeqAt(shards, WithFreeVec(caches, t, v), Freeing(t)) == v
    ensures forall l :: l != Freeing(t) ==> SeqAt(shards, WithFreeVec(caches, t, v), l) == SeqAt(shards, caches, l)
  {}

  /** A buffer taken from the front or back of a size queue. */
  lemma {:induction false} PopKeepsBooks(st: State, t: nat, s: nat, p: Ptr, q: seq<Ptr>)
    requires Books(st) && t < |st.caches| && s in st.caches[t].cacheMap && TakenOut(st.caches[t].cacheMap[s], q, p)
    ensures p in st.place && st.place[p] == Cached(t, s) && p in st.home && p in st.header
    ensures st.header[p].shard == Some(st.home[p].k) && FitsQueue(st.header[p], s)
    ensures Books(st.(caches := WithQueue(st.caches, t, s, q), place := st.place[p := Busy(t)]))
  {
    assert p in SeqAt(st.shards, st.caches, Cached(t, s));
    PlaceOf(st, Cached(t, s), p);
    WithQueueElsewhere(st.shards, st.caches, t, s, q);
    MoveKeepsBooks(st, st.(caches := WithQueue(st.caches, t, s, q), place := st.place[p := Busy(t)]), p, Busy(t));
  }

  /** A buffer in a call's hands put at the back of a size queue. */
  lemma {:induction false} PushKeepsBooks(st: State, t: nat, s: nat, p: Ptr)
    requires Books(st) && t < |st.caches| && s in st.caches[t].cacheMap && p in st.place && st.place[p] == Busy(t)
    requires p in st.header && p in st.home && st.header[p].shard == Some(st.home[p].k) && FitsQueue(st.header[p], s)
    ensures Books(st.(caches := WithQueue(st.caches, t, s, st.caches[t].cacheMap[s] + [p]), place := st.place[p := Cached(t, s)]))
  {
    var q := st.caches[t].cacheMap[s] + [p];
    BucketAtHome(st, p);
    WithQueueElsewhere(st.shards, st.caches, t, s, q);
    MoveKeepsBooks(st, st.(caches := WithQueue(st.caches, t, s, q), place := st.place[p := Cached(t, s)]), p, Cached(t, s));
  }

  /** A buffer in a call's hands put on the free vector. */
  lemma {:induction false} ReleaseKeepsBooks(st: State, t: nat, p: Ptr)
    requires Books(st) && t < |st.caches| && p in st.place && st.place[p] == Busy(t)
    requires p in st.header && p in st.home && st.header[p].shard == Some(st.home[p].k)
    ensures Books(st.(caches := WithFreeVec(st.caches, t, st.caches[t].freeVec + [p]), place := st.place[p := Freeing(t)]))
  {
    var v := st.caches[t].freeVec + [p];
    BucketAtHome(st, p);
    WithFreeVecElsewhere(st.shards, st.caches, t, v);
    MoveKeepsBooks(st, st.(caches := WithFreeVec(st.caches, t, v), place := st.place[p := Freeing(t)]), p, Freeing(t));
  }

  /** The front of the free vector taken, on its way to the shards. */
  lemma {:induction false} UnreleaseKeepsBooks(st: State, t: nat)
    requires Books(st) && t < |st.caches| && st.caches[t].freeVec != []
    ensures var p := st.caches[t].freeVec[0];
      && p in st.place && st.place[p] == Freeing(t) && p in st.home && p in st.header && st.header[p].shard == Some(st.home[p].k)
      && Books(st.(caches := WithFreeVec(st.caches, t, st.caches[t].freeVec[1..]), place := st.place[p := Busy(t)]))
  {
    var v, p := st.caches[t].freeVec[1..], st.caches[t].freeVec[0];
    assert p in SeqAt(st.shards, st.caches, Freeing(t));
    PlaceOf(st, Freeing(t), p);
    WithFreeVecElsewhere(st.shards, st.caches, t, v);
    assert st.caches[t].freeVec == [p] + v;
    MoveKeepsBooks(st, st.(caches := WithFreeVec(st.caches, t, v), place := st.place[p := Busy(t)]), p, Busy(t));
  }

  /** An empty queue given a size, or taken from it. */
  lemma {:induction false} EmptyQueueKeepsBooks(st: State, t: nat, s: nat, c: Cache)
    requires Books(st) && t < |st.caches| && c.freeVec == st.caches[t].freeVec
    requires if s in st.caches[t].cacheMap then st.caches[t].cacheMap[s] == [] && c.cacheMap == st.caches[t].cacheMap - {s}
             else c.cacheMap == st.caches[t].cacheMap[s := []]
    ensures Books(st.(caches := st.caches[t := c]))
  {
    var caches' := st.caches[t := c];
    forall l ensures FiledAt(SeqAt(st.shards, caches', l), st.place, l) {
      assert SeqAt(st.shards, caches', l) == SeqAt(st.shards, st.caches, l);
      assert FiledAt(SeqAt(st.shards, st.caches, l), st.place, l);
    }
  }

  ghost function Users(place: map<Ptr, Place>): set<Ptr>
  {
    set p | p in place && place[p] == Live
  }
}
