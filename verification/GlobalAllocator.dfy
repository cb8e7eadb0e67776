/** The layered allocator: bucketed shards below, a cache per thread with size queues above. */
module GlobalAllocator {
  import opened Options
  import opened PowersOfTwo
  import opened BufferLedger
  import opened AllocatorSteps

  const REFILL_SZ: nat := 16
  const FREE_SZ: nat := 16
  const LARGE_BUFFER_SIZE: nat := 0x4000
  const SLACK_BUFFER_SZ: nat := 8

  /** The free vector with one buffer more, flushed first where it was full. */
  function WithFreed(freeVec: seq<Ptr>, p: Ptr): seq<Ptr>
  {
    (if |freeVec| == FREE_VEC_CAPACITY then [] else freeVec) + [p]
  }

  /** With several more, one after the other. */
  function WithFreedAll(freeVec: seq<Ptr>, ps: seq<Ptr>): seq<Ptr>
  {
    if ps == [] then freeVec else WithFreed(WithFreedAll(freeVec, ps[..|ps| - 1]), ps[|ps| - 1])
  }

  /** The queue cut down by `FREE_SZ` from the front where it was full. */
  function Roomy(q: seq<Ptr>): seq<Ptr>
  {
    if |q| == QUEUE_CAPACITY then q[FREE_SZ..] else q
  }

  /** A cache with the first `i` buffers of a queue given back. */
  function CutBy(c: Cache, s: nat, i: nat): Cache
    requires s in c.cacheMap && i <= |c.cacheMap[s]|
  {
    WithSizeQueue(c, s, c.cacheMap[s][i..]).(freeVec := WithFreedAll(c.freeVec, c.cacheMap[s][..i]))
  }

  lemma CutByOneMore(c: Cache, s: nat, i: nat)
    requires s in c.cacheMap && i < |c.cacheMap[s]|
    ensures var d := CutBy(c, s, i);
      && s in d.cacheMap && d.cacheMap[s] != []
      && CutBy(c, s, i + 1) == WithSizeQueue(d, s, d.cacheMap[s][1..]).(freeVec := WithFreed(d.freeVec, d.cacheMap[s][0]))
  {
    var q := c.cacheMap[s];
    assert q[..i + 1][..i] == q[..i] && q[i..][1..] == q[i + 1..];
  }

  /** What is cut off. */
  function Cut(q: seq<Ptr>): seq<Ptr>
  {
    if |q| == QUEUE_CAPACITY then q[..FREE_SZ] else []
  }

  /** A thread's cache with a queue of size `s` in use: one of the spare ones, or, after all were flushed, the only one. */
  ghost predicate AfterOpening(c: Cache, s: nat, c': Cache)
  {
    if c.poolVec > 0 then c' == Opened(c, s) else c'.cacheMap == map[s := []] && c'.poolVec == POOLS - 1
  }

  /** What an allocation of size `s` does to a thread's cache: it takes the youngest buffer of the queue of that size, which
      is spare again once empty; where there was no such queue, one was opened and filled, and has one less. */
  ghost predicate AfterMalloc(c: Cache, s: nat, p: Ptr, c': Cache)
  {
    var q := QueueOf(c, s);
    if q != [] then p == q[|q| - 1] && c' == if |q| > 1 then WithSizeQueue(c, s, q[..|q| - 1]) else Closed(c, s)
    else s in c'.cacheMap && |c'.cacheMap[s]| == REFILL_SZ - 1 && AfterOpening(c, s, WithSizeQueue(c', s, []))
  }

  ghost predicate RoomMade(c: Cache, s: nat, c': Cache)
  {
    if s in c.cacheMap then c' == WithSizeQueue(c, s, Roomy(c.cacheMap[s])).(freeVec := WithFreedAll(c.freeVec, Cut(c.cacheMap[s])))
    else AfterOpening(c, s, c')
  }

  /** What a deallocation does: the buffer is the youngest of its queue, which was opened or cut down where needed. */
  ghost predicate AfterFree(c: Cache, s: nat, p: Ptr, c': Cache)
  {
    if s in c.cacheMap then
      var q := c.cacheMap[s];
      c' == WithSizeQueue(c, s, Roomy(q) + [p]).(freeVec := WithFreedAll(c.freeVec, Cut(q)))
    else s in c'.cacheMap && c'.cacheMap[s] == [p] && AfterOpening(c, s, WithSizeQueue(c', s, []))
  }

  lemma RoomThenPushed(c: Cache, s: nat, room: Cache, p: Ptr)
    requires RoomMade(c, s, room) && s in room.cacheMap && room.cacheMap[s] == Roomy(QueueOf(c, s))
    ensures AfterFree(c, s, p, WithSizeQueue(room, s, room.cacheMap[s] + [p]))
  {
    if s !in c.cacheMap {
      assert room.cacheMap[s := [p]][s := []] == room.cacheMap;
    }
  }

  lemma FilledThenTaken(c: Cache, s: nat, filled: Cache, p: Ptr, c': Cache)
    requires QueueOf(c, s) == [] && AfterOpening(c, s, WithSizeQueue(filled, s, []))
    requires s in filled.cacheMap && |filled.cacheMap[s]| == REFILL_SZ && AfterMalloc(filled, s, p, c')
    ensures AfterMalloc(c, s, p, c')
  {
    assert WithSizeQueue(c', s, []) == WithSizeQueue(filled, s, []);
  }

  lemma YoungestTaken(c: Cache, s: nat)
    requires Filled(c) && s in c.cacheMap && |c.cacheMap[s]| > 1
    ensures var n := |c.cacheMap[s]| - 1; var c' := WithSizeQueue(c, s, c.cacheMap[s][..n]);
      Filled(c') && AfterMalloc(c, s, c.cacheMap[s][n], c')
  {}

  lemma Refilled(c: Cache, s: nat, q: seq<Ptr>)
    requires s in c.cacheMap && c.cacheMap[s] == []
    ensures WithSizeQueue(WithSizeQueue(c, s, q), s, []) == c
  {
    assert c.cacheMap[s := q][s := []] == c.cacheMap;
  }

  lemma LastTaken(c: Cache, s: nat)
    requires s in c.cacheMap && |c.cacheMap[s]| == 1
    ensures Closed(WithSizeQueue(c, s, c.cacheMap[s][..0]), s) == Closed(c, s)
  {
    assert c.cacheMap[s := []] - {s} == c.cacheMap - {s};
  }

  /** What was freed last is handed out next, and the cache is as before. */
  lemma FreedIsReused(c: Cache, s: nat, p: Ptr, c': Cache, r: Ptr, c'': Cache)
    requires Filled(c) && AfterFree(c, s, p, c') && AfterMalloc(c', s, r, c'')
    ensures r == p
    ensures s in c.cacheMap && |c.cacheMap[s]| < QUEUE_CAPACITY ==> c'' == c
    ensures s !in c.cacheMap && c.poolVec > 0 ==> c'' == c
  {
    if s in c.cacheMap {
      var q := c.cacheMap[s];
      assert c'.cacheMap[s] == Roomy(q) + [p] && (Roomy(q) + [p])[..|Roomy(q)|] == Roomy(q);
      assert c.cacheMap[s := q] == c.cacheMap;
    } else {
      if c.poolVec > 0 {
        assert c'.cacheMap[s := []] - {s} == c.cacheMap && c'.cacheMap - {s} == c'.cacheMap[s := []] - {s};
      }
    }
  }

  /** The bucket of a request to `BinaryUnitAllocator`, whose header takes one byte more. */
  function BucketIdx(sz: nat): nat
  {
    Greater(ULog2(Ceil2(sz + 1)), MIN_POW2_VALUE)
  }

  lemma BucketIsLeast(sz: nat)
    ensures LeastBucket(BucketIdx(sz), sz + 1)
  {
    var x := Ceil2(sz + 1);
    var n: nat :| x == Pow2(n);
    LogOfPow2(n);
    Pow2Monotone(n, BucketIdx(sz));
    if n > 5 {
      assert Pow2(n) == 2 * Pow2(n - 1);
    }
  }

  /** A bucket's buffers are exactly as large as rounding the request up to a power of two, and at least 32. */
  lemma {:induction false} LeastBucketIsCeil2(b: nat, n: nat)
    requires LeastBucket(b, n)
    ensures Pow2(b) == Greater(32, Ceil2(n))
  {
    Pow2Of5();
    assert IsPow2(Pow2(b));
    Ceil2Least(n, Pow2(b));
    Pow2Monotone(5, b);
    if b > MIN_POW2_VALUE {
      var m: nat :| Ceil2(n) == Pow2(m);
      if m < b {
        Pow2Monotone(m, b - 1);
      } else {
        Pow2Monotone(b, m);
      }
    }
  }

  lemma Pow2Of5()
    ensures Pow2(5) == 32
  {
    assert Pow2(1) == 2 && Pow2(2) == 4 && Pow2(3) == 8 && Pow2(4) == 16;
  }

  lemma {:induction false} LogOfPow2(n: nat)
    ensures ULog2(Pow2(n)) == n
  {
    var r := ULog2(Pow2(n));
    if r < n {
      Pow2Monotone(r + 1, n);
    } else if n < r {
      Pow2Monotone(n, r);
    }
  }

  class GlobalAllocator {
    var shards: seq<Shard>
    var caches: seq<Cache>
    var header: map<Ptr, Header>
    var heapTop: nat
    ghost var place: map<Ptr, Place>
    ghost var home: map<Ptr, Home>
    ghost var run: seq<Event>               // the steps of all threads so far

    ghost function Abstract(): State
      reads this
    {
      State(shards, caches, header, heapTop, place, home)
    }

    /** The fields, one by one, are those of `st`. */
    ghost predicate Reached(st: State)
      reads this
    {
      && shards == st.shards && caches == st.caches && header == st.header && heapTop == st.heapTop
      && place == st.place && home == st.home && Abstract() == st
    }

    /** The state is where the steps so far led to; with that the books are right. */
    ghost predicate Valid(t: nat)
      reads this
    {
      t < |caches| && Recorded(|caches|, run, Abstract())
    }

    /** What thread `t` sees: its cache, the buffers its call has in hand, and its dealings with users. */
    ghost function Mine(t: nat): View
      requires t < |caches|
      reads this
    {
      Seen(Abstract(), run, t)
    }

    constructor (threads: nat)
      ensures Abstract() == Start(threads) && run == []
      ensures forall t :: 0 <= t < threads ==> Valid(t)
    {
      shards := seq(SHARDS, _ => Shard(map[], map[], map[]));
      caches := seq(threads, _ => Cache(POOLS, map[], []));
      header, heapTop := map[], 0;
      place, home, run := map[], map[], [];
      new;
      StartIsSound(threads);
    }

    // ----- the other threads -----

    /** The other threads run on: any number of their steps, none of `t`. */
    method Others(t: nat)
      requires Valid(t)
      modifies this
      ensures |caches| == old(|caches|) && Recorded(|caches|, run, Abstract()) && OnlyOthers(old(run), run, t)
    {}

    /** Between two steps of a thread the others may do anything their code does; nothing the thread relies on changes. */
    method Yield(t: nat)
      requires Valid(t)
      modifies this
      ensures Valid(t) && Mine(t) == old(Mine(t))
    {
      ghost var before, st := run, Abstract();
      Others(t);
      OthersLeaveView(|caches|, before, st, run, Abstract(), t);
    }

    // ----- the shards -----

    /** `BinaryUnitAllocator::malloc`, in the shard's critical section. */
    method UnitMalloc(t: nat, k: nat, sz: nat) returns (p: Ptr)
      requires Valid(t) && k < SHARDS
      modifies this
      ensures Valid(t) && Took(p, Mine(t), old(Mine(t)))
      ensures var x := Mine(t).hands[p]; x.home == Home(k, x.header.bucket) && LeastBucket(x.header.bucket, sz + 1)
    {
      Yield(t);
      var bucketIdx := BucketIdx(sz);
      BucketIsLeast(sz);
      var sh := shards[k];
      if bucketIdx !in sh.unitMap || sh.unitMap[bucketIdx] == [] {
        p := EnqueueNewBuffer(t, k, bucketIdx);
      } else {
        p := PopListed(t, k, bucketIdx);
      }
    }

    method PopListed(t: nat, k: nat, bucketIdx: nat) returns (p: Ptr)
      requires Valid(t) && k < SHARDS && bucketIdx in shards[k].unitMap && shards[k].unitMap[bucketIdx] != []
      modifies this`shards, this`place, this`run
      ensures Valid(t) && Took(p, Mine(t), old(Mine(t)))
      ensures Mine(t).hands[p].home == Home(k, bucketIdx) && Mine(t).hands[p].header.bucket == bucketIdx
    {
      ghost var before, st := run, Abstract();
      var ps := shards[k].unitMap[bucketIdx];
      p := ps[|ps| - 1];
      var shards' := WithList(shards, k, bucketIdx, ps[..|ps| - 1]);
      ghost var st' := Taken(st, t, k, bucketIdx);
      shards, place, run := shards', st'.place, run + [Event(t, TakeListed(k, bucketIdx))];
      assert Reached(st');
      StepSeen(|caches|, before, st, Event(t, TakeListed(k, bucketIdx)));
    }

    /** `enqueue_new_buffer_of_bucket_idx` */
    method EnqueueNewBuffer(t: nat, k: nat, bucketIdx: nat) returns (p: Ptr)
      requires Valid(t) && k < SHARDS && MIN_POW2_VALUE <= bucketIdx && ListOf(Abstract(), k, bucketIdx) == []
      modifies this`shards, this`header, this`heapTop, this`place, this`home, this`run
      ensures Valid(t) && Took(p, Mine(t), old(Mine(t)))
      ensures Mine(t).hands[p].home == Home(k, bucketIdx) && Mine(t).hands[p].header.bucket == bucketIdx
      ensures p == old(heapTop) && heapTop == p + Pow2(bucketIdx)
    {
      ghost var before, st, st' := run, Abstract(), WithBuffer(Abstract(), t, k, bucketIdx);
      p := heapTop;
      var h, actualSz := Header(bucketIdx, None, 0, Unset), Pow2(bucketIdx);
      shards, header, heapTop := shards[k := WithOneMore(shards[k], bucketIdx)], header[p := h], p + actualSz;
      place, home, run := st'.place, st'.home, run + [Event(t, MakeBuffer(k, bucketIdx))];
      assert Reached(st');
      MakeBufferSeen(|caches|, before, st, t, k, bucketIdx);
    }

    /** A header field of a buffer in hand is written. */
    method WriteFieldOf(t: nat, p: Ptr, f: Field)
      requires Valid(t) && p in Mine(t).hands && Fitting(Rewritten(Mine(t).hands[p].header, f))
      modifies this`header, this`run
      ensures Valid(t)
      ensures var v := old(Mine(t)); Mine(t) == v.(hands := v.hands[p := v.hands[p].(header := Rewritten(v.hands[p].header, f))])
    {
      ghost var before, st := run, Abstract();
      var h := Rewritten(header[p], f);
      ghost var st' := FieldWritten(st, p, f);
      header, run := header[p := h], run + [Event(t, WriteField(p, f))];
      assert Reached(st');
      StepSeen(|caches|, before, st, Event(t, WriteField(p, f)));
    }

    /** One element of the distributed `malloc`: the shard's number goes into the byte after the bucket's. */
    method ShardMalloc(t: nat, k: nat, sz: nat) returns (p: Ptr)
      requires Valid(t) && k < SHARDS
      modifies this
      ensures Valid(t) && Took(p, Mine(t), old(Mine(t)))
      ensures var x := Mine(t).hands[p];
        x.home == Home(k, x.header.bucket) && LeastBucket(x.header.bucket, sz + 2) && x.header.shard == Some(k)
    {
      p := UnitMalloc(t, k, sz + 1);
      ghost var mid := Mine(t);
      Yield(t);
      WriteFieldOf(t, p, ShardByte(k));
      TookAndWrote(p, Mine(t), mid, old(Mine(t)), ShardByte(k));
    }

    /** The distributed `free` of one buffer, in the shard's critical section: shard and bucket are read back from its header. */
    method ShardFree(t: nat, p: Ptr)
      requires Valid(t) && p in Mine(t).hands && Homing(Mine(t).hands[p])
      modifies this`shards, this`place, this`run
      ensures Valid(t)
      ensures var v := old(Mine(t)); Mine(t) == v.(hands := v.hands - {p})
      ensures p in home && p in place && place[p] == Listed(home[p].k, home[p].b)
    {
      ghost var before, st := run, Abstract();
      var idx := header[p].shard.value;
      var bucketIdx := header[p].bucket;
      GiveBackFits(|caches|, run, st, t, p);
      var shards' := WithList(shards, idx, bucketIdx, shards[idx].unitMap[bucketIdx] + [p]);
      ghost var st' := GivenBack(st, p);
      shards, place, run := shards', st'.place, run + [Event(t, GiveBack(p))];
      assert Reached(st');
      StepSeen(|caches|, before, st, Event(t, GiveBack(p)));
    }

    // ----- single steps: on the cache of a thread, and with a user -----

    method PopFreeVec(t: nat) returns (p: Ptr)
      requires Valid(t) && Mine(t).cache.freeVec != []
      modifies this`caches, this`place, this`run
      ensures Valid(t)
      ensures var v := old(Mine(t)); Took(p, Mine(t), v.(cache := v.cache.(freeVec := v.cache.freeVec[1..])))
      ensures Homing(Mine(t).hands[p])
    {
      ghost var before, st := run, Abstract();
      var v := caches[t].freeVec;
      p := v[0];
      var caches' := WithFreeVec(caches, t, v[1..]);
      ghost var st' := FreePopped(st, t);
      caches, place, run := caches', st'.place, run + [Event(t, PopFree)];
      assert Reached(st');
      StepSeen(|caches|, before, st, Event(t, PopFree));
    }

    method PushFreeVec(t: nat, p: Ptr)
      requires Valid(t) && p in Mine(t).hands && Homing(Mine(t).hands[p]) && |Mine(t).cache.freeVec| < FREE_VEC_CAPACITY
      modifies this`caches, this`place, this`run
      ensures Valid(t)
      ensures var v := old(Mine(t)); Mine(t) == v.(cache := v.cache.(freeVec := v.cache.freeVec + [p]), hands := v.hands - {p})
    {
      ghost var before, st := run, Abstract();
      var caches' := WithFreeVec(caches, t, caches[t].freeVec + [p]);
      ghost var st' := FreePushed(st, t, p);
      caches, place, run := caches', st'.place, run + [Event(t, PushFree(p))];
      assert Reached(st');
      StepSeen(|caches|, before, st, Event(t, PushFree(p)));
    }

    method PopFrontOf(t: nat, s: nat) returns (p: Ptr)
      requires Valid(t) && s in Mine(t).cache.cacheMap && Mine(t).cache.cacheMap[s] != []
      modifies this`caches, this`place, this`run
      ensures Valid(t)
      ensures p == old(Mine(t)).cache.cacheMap[s][0]
      ensures var v := old(Mine(t)); Took(p, Mine(t), v.(cache := WithSizeQueue(v.cache, s, v.cache.cacheMap[s][1..])))
      ensures Homing(Mine(t).hands[p]) && FitsQueue(Mine(t).hands[p].header, s)
    {
      ghost var before, st := run, Abstract();
      var q := caches[t].cacheMap[s];
      p := q[0];
      var caches' := WithQueue(caches, t, s, q[1..]);
      ghost var st' := FrontPopped(st, t, s);
      caches, place, run := caches', st'.place, run + [Event(t, PopFront(s))];
      assert Reached(st');
      StepSeen(|caches|, before, st, Event(t, PopFront(s)));
    }

    method PopBackOf(t: nat, s: nat) returns (p: Ptr)
      requires Valid(t) && s in Mine(t).cache.cacheMap && Mine(t).cache.cacheMap[s] != []
      modifies this`caches, this`place, this`run
      ensures var q := old(Mine(t)).cache.cacheMap[s];
        Valid(t) && p == q[|q| - 1] && Took(p, Mine(t), old(Mine(t)).(cache := WithSizeQueue(old(Mine(t)).cache, s, q[..|q| - 1])))
      ensures Homing(Mine(t).hands[p]) && FitsQueue(Mine(t).hands[p].header, s)
    {
      ghost var before, st := run, Abstract();
      var q := caches[t].cacheMap[s];
      p := q[|q| - 1];
      var caches' := WithQueue(caches, t, s, q[..|q| - 1]);
      ghost var st' := BackPopped(st, t, s);
      caches, place, run := caches', st'.place, run + [Event(t, PopBack(s))];
      assert Reached(st');
      StepSeen(|caches|, before, st, Event(t, PopBack(s)));
    }

    method PushBackOf(t: nat, s: nat, p: Ptr)
      requires Valid(t) && p in Mine(t).hands && Homing(Mine(t).hands[p]) && FitsQueue(Mine(t).hands[p].header, s)
      requires s in Mine(t).cache.cacheMap && |Mine(t).cache.cacheMap[s]| < QUEUE_CAPACITY
      modifies this`caches, this`place, this`run
      ensures Valid(t)
      ensures var v := old(Mine(t)); Mine(t) == v.(cache := WithSizeQueue(v.cache, s, v.cache.cacheMap[s] + [p]), hands := v.hands - {p})
    {
      ghost var before, st := run, Abstract();
      var caches' := WithQueue(caches, t, s, caches[t].cacheMap[s] + [p]);
      ghost var st' := BackPushed(st, t, s, p);
      caches, place, run := caches', st'.place, run + [Event(t, PushBack(s, p))];
      assert Reached(st');
      StepSeen(|caches|, before, st, Event(t, PushBack(s, p)));
    }

    /** An empty queue goes back to the spare ones. */
    method CloseQueueOf(t: nat, s: nat)
      requires Valid(t) && s in Mine(t).cache.cacheMap && Mine(t).cache.cacheMap[s] == []
      modifies this`caches, this`run
      ensures Valid(t)
      ensures var v := old(Mine(t)); Mine(t) == v.(cache := Closed(v.cache, s))
    {
      ghost var before, st := run, Abstract();
      var caches' := caches[t := Closed(caches[t], s)];
      ghost var st' := QueueClosed(st, t, s);
      caches, run := caches', run + [Event(t, CloseQueue(s))];
      assert Reached(st');
      StepSeen(|caches|, before, st, Event(t, CloseQueue(s)));
    }

    /** A spare queue gets a size. */
    method OpenQueueOf(t: nat, s: nat)
      requires Valid(t) && s !in Mine(t).cache.cacheMap && Mine(t).cache.poolVec > 0 && 0 < s < UINT32_BOUND
      modifies this`caches, this`run
      ensures Valid(t)
      ensures var v := old(Mine(t)); Mine(t) == v.(cache := Opened(v.cache, s))
    {
      ghost var before, st := run, Abstract();
      var caches' := caches[t := Opened(caches[t], s)];
      ghost var st' := QueueOpened(st, t, s);
      caches, run := caches', run + [Event(t, OpenQueue(s))];
      assert Reached(st');
      StepSeen(|caches|, before, st, Event(t, OpenQueue(s)));
    }

    /** A buffer in hand becomes a user's. */
    method HandOutTo(t: nat, p: Ptr)
      requires Valid(t) && p in Mine(t).hands && Homing(Mine(t).hands[p])
      requires Flagged(Mine(t).hands[p].header)
      modifies this`place, this`run
      ensures Valid(t)
      ensures var v := old(Mine(t)); Mine(t) == v.(hands := v.hands - {p}, dealt := v.dealt + [HandOut(p)])
      ensures run == old(run) + [Event(t, HandOut(p))]
      ensures p in place && place[p] == Live && p in header && header[p] == old(Mine(t)).hands[p].header
    {
      ghost var before, st := run, Abstract();
      HandOutFits(|caches|, run, st, t, p);
      ghost var st' := Placed(st, p, Live);
      place, run := st'.place, run + [Event(t, HandOut(p))];
      assert Reached(st');
      StepSeen(|caches|, before, st, Event(t, HandOut(p)));
    }

    /** A user's buffer comes into the hands of a call. */
    method TakeBackFrom(t: nat, p: Ptr)
      requires Valid(t) && p in place && place[p] == Live
      modifies this`place, this`run
      ensures Valid(t)
      ensures var v := old(Mine(t)); Took(p, Mine(t), v.(dealt := v.dealt + [TakeBack(p)]))
      ensures p in header && Mine(t).hands[p].header == header[p] && Homing(Mine(t).hands[p])
      ensures Flagged(header[p])
    {
      ghost var before, st := run, Abstract();
      ghost var st' := Placed(st, p, Busy(t));
      place, run := st'.place, run + [Event(t, TakeBack(p))];
      assert Reached(st');
      StepSeen(|caches|, before, st, Event(t, TakeBack(p)));
    }

    // ----- a thread's cache: giving back -----

    method FlushOne(t: nat)
      requires Valid(t) && Mine(t).cache.freeVec != []
      modifies this
      ensures Valid(t)
      ensures var v := old(Mine(t)); Mine(t) == v.(cache := v.cache.(freeVec := v.cache.freeVec[1..]))
    {
      Yield(t);
      var p := PopFreeVec(t);
      Yield(t);
      ghost var mid := Mine(t);
      ShardFree(t, p);
      TookAndGave(p, mid, old(Mine(t)).(cache := mid.cache));
    }

    /** `flush_free_vec`: the whole vector goes back to the shards. */
    method FlushFreeVec(t: nat)
      requires Valid(t)
      modifies this
      ensures Valid(t)
      ensures var v := old(Mine(t)); Mine(t) == v.(cache := v.cache.(freeVec := []))
    {
      while caches[t].freeVec != []
        invariant Valid(t)
        invariant var v := old(Mine(t));
          Mine(t) == v.(cache := v.cache.(freeVec := Mine(t).cache.freeVec))
        decreases |Mine(t).cache.freeVec|
      {
        FlushOne(t);
      }
    }

    /** `free_user_ptr` */
    method FreeUserPtr(t: nat, p: Ptr)
      requires Valid(t) && p in Mine(t).hands && Homing(Mine(t).hands[p])
      modifies this
      ensures Valid(t)
      ensures var v := old(Mine(t));
        Mine(t) == v.(cache := v.cache.(freeVec := WithFreed(v.cache.freeVec, p)), hands := v.hands - {p})
    {
      CacheIsSized(|caches|, run, Abstract(), t);
      if |caches[t].freeVec| == FREE_VEC_CAPACITY {
        FlushFreeVec(t);
      }
      Yield(t);
      PushFreeVec(t, p);
    }

    /** The front of a queue goes to the free vector. */
    method DrainOne(t: nat, s: nat)
      requires Valid(t) && s in Mine(t).cache.cacheMap && Mine(t).cache.cacheMap[s] != []
      modifies this
      ensures Valid(t)
      ensures var v := old(Mine(t)); var q := v.cache.cacheMap[s];
        Mine(t) == v.(cache := WithSizeQueue(v.cache, s, q[1..]).(freeVec := WithFreed(v.cache.freeVec, q[0])))
    {
      Yield(t);
      var p := PopFrontOf(t, s);
      ghost var mid := Mine(t);
      FreeUserPtr(t, p);
      TookAndGave(p, mid, old(Mine(t)).(cache := mid.cache));
    }

    /** One round of `flush_cache_map`: a whole queue goes to the free vector and is spare again. */
    method DrainQueue(t: nat, s: nat)
      requires Valid(t) && s in Mine(t).cache.cacheMap
      modifies this
      ensures Valid(t)
      ensures var v := old(Mine(t)); Mine(t) == v.(cache := Closed(v.cache, s).(freeVec := Mine(t).cache.freeVec))
    {
      while caches[t].cacheMap[s] != []
        invariant Valid(t) && s in Mine(t).cache.cacheMap
        invariant var v := old(Mine(t));
          Mine(t) == v.(cache := WithSizeQueue(v.cache, s, Mine(t).cache.cacheMap[s]).(freeVec := Mine(t).cache.freeVec))
        decreases |Mine(t).cache.cacheMap[s]|
      {
        DrainOne(t, s);
      }
      Yield(t);
      ghost var c := Mine(t).cache;
      CloseQueueOf(t, s);
      assert c.cacheMap - {s} == old(Mine(t)).cache.cacheMap - {s};
    }

    /** `flush_cache_map` */
    method FlushCacheMap(t: nat)
      requires Valid(t)
      modifies this
      ensures Valid(t) && Mine(t) == old(Mine(t)).(cache := Mine(t).cache) && Mine(t).cache.cacheMap == map[]
    {
      while caches[t].cacheMap != map[]
        invariant Valid(t) && Mine(t) == old(Mine(t)).(cache := Mine(t).cache)
        decreases |Mine(t).cache.cacheMap|
      {
        var s :| s in caches[t].cacheMap;
        ghost var m := caches[t].cacheMap;
        DrainQueue(t, s);
        assert m.Keys == (m - {s}).Keys + {s};
      }
    }

    // ----- a thread's cache: handing out -----

    /** A spare queue given a size; with none left, all queues are flushed first. */
    method OpenSpareQueue(t: nat, s: nat)
      requires Valid(t) && Filled(Mine(t).cache) && s !in Mine(t).cache.cacheMap && 0 < s < UINT32_BOUND
      modifies this
      ensures Valid(t) && Mine(t) == old(Mine(t)).(cache := Mine(t).cache)
      ensures s in Mine(t).cache.cacheMap && Mine(t).cache.cacheMap[s] == [] && FilledBut(Mine(t).cache, s)
      ensures AfterOpening(old(Mine(t)).cache, s, Mine(t).cache)
    {
      if caches[t].poolVec == 0 {
        FlushCacheMap(t);
        CacheIsSized(|caches|, run, Abstract(), t);
      }
      Yield(t);
      OpenQueueOf(t, s);
    }

    /** One buffer from a shard for the queue of size `s`, with the size written into its header. */
    method Fetch(t: nat, s: nat, k: nat) returns (p: Ptr)
      requires Valid(t) && 0 < s < UINT32_BOUND && k < SHARDS
      modifies this
      ensures Valid(t) && Took(p, Mine(t), old(Mine(t)))
      ensures Homing(Mine(t).hands[p]) && FitsQueue(Mine(t).hands[p].header, s)
    {
      p := ShardMalloc(t, k, s + 4);
      ghost var mid := Mine(t);
      Yield(t);
      WriteFieldOf(t, p, SizeBytes(s));
      TookAndWrote(p, Mine(t), mid, old(Mine(t)), SizeBytes(s));
    }

    method RefillOne(t: nat, s: nat, k: nat)
      requires Valid(t) && s in Mine(t).cache.cacheMap && |Mine(t).cache.cacheMap[s]| < QUEUE_CAPACITY && 0 < s < UINT32_BOUND && k < SHARDS
      modifies this
      ensures Valid(t) && s in Mine(t).cache.cacheMap && |Mine(t).cache.cacheMap[s]| == |old(Mine(t)).cache.cacheMap[s]| + 1
      ensures var v := old(Mine(t)); Mine(t) == v.(cache := WithSizeQueue(v.cache, s, Mine(t).cache.cacheMap[s]))
    {
      var p := Fetch(t, s, k);
      ghost var mid := Mine(t);
      Yield(t);
      PushBackOf(t, s, p);
      TookAndGave(p, mid, old(Mine(t)));
    }

    /** `REFILL_SZ` buffers, each from the shard drawn for it. */
    method Refill(t: nat, s: nat, shardOf: seq<nat>)
      requires Valid(t) && s in Mine(t).cache.cacheMap && Mine(t).cache.cacheMap[s] == [] && 0 < s < UINT32_BOUND
      requires |shardOf| == REFILL_SZ && forall i :: 0 <= i < REFILL_SZ ==> shardOf[i] < SHARDS
      modifies this
      ensures Valid(t) && s in Mine(t).cache.cacheMap && |Mine(t).cache.cacheMap[s]| == REFILL_SZ
      ensures var v := old(Mine(t)); Mine(t) == v.(cache := WithSizeQueue(v.cache, s, Mine(t).cache.cacheMap[s]))
    {
      assert old(Mine(t)).cache.cacheMap[s := []] == old(Mine(t)).cache.cacheMap;
      for i := 0 to REFILL_SZ
        invariant Valid(t) && s in Mine(t).cache.cacheMap && |Mine(t).cache.cacheMap[s]| == i
        invariant var v := old(Mine(t));
          Mine(t) == v.(cache := WithSizeQueue(v.cache, s, Mine(t).cache.cacheMap[s]))
      {
        RefillOne(t, s, shardOf[i]);
      }
    }

    /** A buffer off the back of a queue; a queue left empty is spare again. */
    method TakeCached(t: nat, s: nat) returns (p: Ptr)
      requires Valid(t) && s in Mine(t).cache.cacheMap && Filled(Mine(t).cache)
      modifies this
      ensures Valid(t) && Filled(Mine(t).cache) && Took(p, Mine(t), old(Mine(t)).(cache := Mine(t).cache))
      ensures Homing(Mine(t).hands[p]) && FitsQueue(Mine(t).hands[p].header, s)
      ensures AfterMalloc(old(Mine(t)).cache, s, p, Mine(t).cache)
    {
      ghost var c := Mine(t).cache;
      Yield(t);
      p := PopBackOf(t, s);
      Yield(t);
      if caches[t].cacheMap[s] == [] {
        LastTaken(c, s);
        CloseQueueOf(t, s);
      }
    }

    /** `AffinedAllocator::malloc`: the fast path keeps one buffer in the queue. */
    method AffinedMalloc(t: nat, sz: nat, shardOf: seq<nat>) returns (r: Option<Ptr>)
      requires Valid(t) && Filled(Mine(t).cache) && sz < UINT32_BOUND
      requires |shardOf| == REFILL_SZ && forall i :: 0 <= i < REFILL_SZ ==> shardOf[i] < SHARDS
      modifies this
      ensures Valid(t) && Filled(Mine(t).cache)
      ensures r.None? <==> sz == 0
      ensures r.None? ==> Mine(t) == old(Mine(t))
      ensures r.Some? ==> Took(r.value, Mine(t), old(Mine(t)).(cache := Mine(t).cache))
      ensures r.Some? ==> Homing(Mine(t).hands[r.value]) && FitsQueue(Mine(t).hands[r.value].header, sz)
      ensures r.Some? ==> AfterMalloc(old(Mine(t)).cache, sz, r.value, Mine(t).cache)
    {
      if sz in caches[t].cacheMap && |caches[t].cacheMap[sz]| > 1 {
        var p := TakeKept(t, sz);
        return Some(p);
      } else {
        r := SlowMalloc(t, sz, shardOf);
      }
    }

    /** A buffer off the back of a queue with more than one. */
    method TakeKept(t: nat, s: nat) returns (p: Ptr)
      requires Valid(t) && Filled(Mine(t).cache) && s in Mine(t).cache.cacheMap && |Mine(t).cache.cacheMap[s]| > 1
      modifies this
      ensures Valid(t) && Filled(Mine(t).cache) && Took(p, Mine(t), old(Mine(t)).(cache := Mine(t).cache)) && s > 0
      ensures Homing(Mine(t).hands[p]) && FitsQueue(Mine(t).hands[p].header, s)
      ensures AfterMalloc(old(Mine(t)).cache, s, p, Mine(t).cache)
    {
      YoungestTaken(Mine(t).cache, s);
      p := PopBackOf(t, s);
    }

    method SlowMalloc(t: nat, sz: nat, shardOf: seq<nat>) returns (r: Option<Ptr>)
      requires Valid(t) && Filled(Mine(t).cache) && sz < UINT32_BOUND
      requires |shardOf| == REFILL_SZ && forall i :: 0 <= i < REFILL_SZ ==> shardOf[i] < SHARDS
      modifies this
      ensures Valid(t) && Filled(Mine(t).cache)
      ensures r.None? <==> sz == 0
      ensures r.None? ==> Mine(t) == old(Mine(t))
      ensures r.Some? ==> Took(r.value, Mine(t), old(Mine(t)).(cache := Mine(t).cache))
      ensures r.Some? ==> Homing(Mine(t).hands[r.value]) && FitsQueue(Mine(t).hands[r.value].header, sz)
      ensures r.Some? ==> AfterMalloc(old(Mine(t)).cache, sz, r.value, Mine(t).cache)
    {
      if sz == 0 {
        return None;
      }
      var p: Ptr;
      if sz in caches[t].cacheMap {
        p := TakeCached(t, sz);
      } else {
        p := TakeRefilled(t, sz, shardOf);
      }
      return Some(p);
    }

    /** A buffer off a queue opened and filled for it. */
    method TakeRefilled(t: nat, sz: nat, shardOf: seq<nat>) returns (p: Ptr)
      requires Valid(t) && Filled(Mine(t).cache) && 0 < sz < UINT32_BOUND && sz !in Mine(t).cache.cacheMap
      requires |shardOf| == REFILL_SZ && forall i :: 0 <= i < REFILL_SZ ==> shardOf[i] < SHARDS
      modifies this
      ensures Valid(t) && Filled(Mine(t).cache) && Took(p, Mine(t), old(Mine(t)).(cache := Mine(t).cache))
      ensures Homing(Mine(t).hands[p]) && FitsQueue(Mine(t).hands[p].header, sz)
      ensures AfterMalloc(old(Mine(t)).cache, sz, p, Mine(t).cache)
    {
      ghost var c := Mine(t).cache;
      OpenAndFill(t, sz, shardOf);
      ghost var filled := Mine(t).cache;
      p := TakeCached(t, sz);
      FilledThenTaken(c, sz, filled, p, Mine(t).cache);
    }

    method OpenAndFill(t: nat, sz: nat, shardOf: seq<nat>)
      requires Valid(t) && Filled(Mine(t).cache) && 0 < sz < UINT32_BOUND && sz !in Mine(t).cache.cacheMap
      requires |shardOf| == REFILL_SZ && forall i :: 0 <= i < REFILL_SZ ==> shardOf[i] < SHARDS
      modifies this
      ensures Valid(t) && Filled(Mine(t).cache) && Mine(t) == old(Mine(t)).(cache := Mine(t).cache)
      ensures sz in Mine(t).cache.cacheMap && |Mine(t).cache.cacheMap[sz]| == REFILL_SZ
      ensures AfterOpening(old(Mine(t)).cache, sz, WithSizeQueue(Mine(t).cache, sz, []))
    {
      OpenSpareQueue(t, sz);
      ghost var c := Mine(t).cache;
      Refill(t, sz, shardOf);
      Refilled(c, sz, Mine(t).cache.cacheMap[sz]);
    }

    /** `AffinedAllocator::free`: the size is read from the header, and the buffer joins the queue of that size. */
    method AffinedFree(t: nat, p: Ptr)
      requires Valid(t) && Filled(Mine(t).cache) && p in Mine(t).hands && Homing(Mine(t).hands[p])
      requires FitsQueue(Mine(t).hands[p].header, Mine(t).hands[p].header.usrSz)
      modifies this
      ensures Valid(t) && Filled(Mine(t).cache)
      ensures var v := old(Mine(t)); Mine(t) == v.(cache := Mine(t).cache, hands := v.hands - {p})
      ensures var s := old(Mine(t)).hands[p].header.usrSz;
        s in Mine(t).cache.cacheMap && Mine(t).cache.cacheMap[s] == Roomy(QueueOf(old(Mine(t)).cache, s)) + [p]
      ensures AfterFree(old(Mine(t)).cache, old(Mine(t)).hands[p].header.usrSz, p, Mine(t).cache)
    {
      var s := header[p].usrSz;
      if s in caches[t].cacheMap && |caches[t].cacheMap[s]| != QUEUE_CAPACITY {
        CacheIsSized(|caches|, run, Abstract(), t);
        assert QueueSized(caches[t], s);
        PushBackOf(t, s, p);
      } else {
        SlowFree(t, p);
      }
    }

    method SlowFree(t: nat, p: Ptr)
      requires Valid(t) && Filled(Mine(t).cache) && p in Mine(t).hands && Homing(Mine(t).hands[p])
      requires FitsQueue(Mine(t).hands[p].header, Mine(t).hands[p].header.usrSz)
      modifies this
      ensures Valid(t) && Filled(Mine(t).cache)
      ensures var v := old(Mine(t)); Mine(t) == v.(cache := Mine(t).cache, hands := v.hands - {p})
      ensures var s := old(Mine(t)).hands[p].header.usrSz;
        s in Mine(t).cache.cacheMap && Mine(t).cache.cacheMap[s] == Roomy(QueueOf(old(Mine(t)).cache, s)) + [p]
      ensures AfterFree(old(Mine(t)).cache, old(Mine(t)).hands[p].header.usrSz, p, Mine(t).cache)
    {
      var s := header[p].usrSz;
      ghost var c := Mine(t).cache;
      MakeRoom(t, s);
      ghost var room := Mine(t).cache;
      Yield(t);
      PushBackOf(t, s, p);
      RoomThenPushed(c, s, room, p);
    }

    /** A queue of size `s` with room: opened if there was none, else cut down by `FREE_SZ` if it was full. */
    method MakeRoom(t: nat, s: nat)
      requires Valid(t) && Filled(Mine(t).cache) && 0 < s < UINT32_BOUND
      modifies this
      ensures Valid(t) && Mine(t) == old(Mine(t)).(cache := Mine(t).cache) && FilledBut(Mine(t).cache, s)
      ensures s in Mine(t).cache.cacheMap && Mine(t).cache.cacheMap[s] == Roomy(QueueOf(old(Mine(t)).cache, s))
      ensures |Mine(t).cache.cacheMap[s]| < QUEUE_CAPACITY
      ensures RoomMade(old(Mine(t)).cache, s, Mine(t).cache)
    {
      if s !in caches[t].cacheMap {
        OpenSpareQueue(t, s);
      } else {
        CacheIsSized(|caches|, run, Abstract(), t);
        assert QueueSized(caches[t], s);
        if |caches[t].cacheMap[s]| == QUEUE_CAPACITY {
          CutDown(t, s);
        }
      }
    }

    method CutDown(t: nat, s: nat)
      requires Valid(t) && s in Mine(t).cache.cacheMap && |Mine(t).cache.cacheMap[s]| == QUEUE_CAPACITY
      modifies this
      ensures Valid(t) && Mine(t) == old(Mine(t)).(cache := CutBy(old(Mine(t)).cache, s, FREE_SZ))
    {
      ghost var v := Mine(t);
      assert v.cache.cacheMap[s := v.cache.cacheMap[s][0..]] == v.cache.cacheMap;
      for i := 0 to FREE_SZ
        invariant Valid(t) && Mine(t) == v.(cache := CutBy(v.cache, s, i))
      {
        CutByOneMore(v.cache, s, i);
        DrainOne(t, s);
      }
    }

    // ----- the calls of users -----

    /** Thread `t` is between calls: no queue of its cache is empty, and it has nothing in hand. */
    ghost predicate Idle(t: nat)
      reads this
    {
      Valid(t) && Filled(Mine(t).cache) && Mine(t).hands == map[]
    }

    /** A small buffer: the size queue's size counts the flag byte. */
    method SmallMalloc(t: nat, sz: nat, shardOf: seq<nat>) returns (p: Ptr)
      requires Valid(t) && Filled(Mine(t).cache) && sz + 1 < UINT32_BOUND
      requires |shardOf| == REFILL_SZ && forall i :: 0 <= i < REFILL_SZ ==> shardOf[i] < SHARDS
      modifies this
      ensures Valid(t) && Filled(Mine(t).cache) && Took(p, Mine(t), old(Mine(t)).(cache := Mine(t).cache)) && Homing(Mine(t).hands[p])
      ensures var h := Mine(t).hands[p].header; h.flag.Small? && FitsQueue(h, sz + 1) && LeastBucket(h.bucket, sz + 7)
      ensures AfterMalloc(old(Mine(t)).cache, sz + 1, p, Mine(t).cache)
    {
      ghost var v := Mine(t);
      var r := AffinedMalloc(t, sz + 1, shardOf);
      p := r.value;
      WriteFlag(t, p, false, v.(cache := Mine(t).cache));
    }

    /** The flag byte of a buffer just taken. */
    method WriteFlag(t: nat, p: Ptr, large: bool, ghost before: View)
      requires Valid(t) && Took(p, Mine(t), before) && Homing(Mine(t).hands[p])
      modifies this
      ensures Valid(t) && Took(p, Mine(t), before) && Homing(Mine(t).hands[p])
      ensures Mine(t).hands[p].header == Rewritten(old(Mine(t)).hands[p].header, FlagByte(large))
      ensures Mine(t).hands[p].home == old(Mine(t)).hands[p].home && Mine(t).cache == old(Mine(t)).cache
    {
      ghost var mid := Mine(t);
      Yield(t);
      WriteFieldOf(t, p, FlagByte(large));
      TookAndWrote(p, Mine(t), mid, before, FlagByte(large));
    }

    method LargeMalloc(t: nat, sz: nat, k: nat) returns (p: Ptr)
      requires Valid(t) && k < SHARDS
      modifies this
      ensures Valid(t) && Took(p, Mine(t), old(Mine(t))) && Homing(Mine(t).hands[p])
      ensures var h := Mine(t).hands[p].header; h.flag.Large? && LeastBucket(h.bucket, sz + 3)
      ensures Mine(t).hands[p].home.k == k
    {
      ghost var v := Mine(t);
      p := ShardMalloc(t, k, sz + 1);
      WriteFlag(t, p, true, v);
    }

    /** `LargeSmallAffinedAllocator::malloc` of the promoted size: by that size. */
    method LargeSmallMalloc(t: nat, blkSz: nat, shardOf: seq<nat>) returns (p: Ptr)
      requires Valid(t) && Filled(Mine(t).cache) && blkSz > 0
      requires |shardOf| == REFILL_SZ && forall i :: 0 <= i < REFILL_SZ ==> shardOf[i] < SHARDS
      modifies this
      ensures Valid(t) && Filled(Mine(t).cache) && Took(p, Mine(t), old(Mine(t)).(cache := Mine(t).cache)) && Homing(Mine(t).hands[p])
      ensures var h := Mine(t).hands[p].header; Flagged(h) && Pow2(h.bucket) == Greater(32, Ceil2(blkSz + SLACK_BUFFER_SZ))
      ensures Mine(t).hands[p].header.flag.Small? <==> PromoteSize(blkSz) < LARGE_BUFFER_SIZE
      ensures Mine(t).hands[p].header.flag.Large? ==> Mine(t).hands[p].home.k == shardOf[0]
      ensures CacheAfterMalloc(old(Mine(t)).cache, blkSz, p, Mine(t).cache)
    {
      var sz := PromoteSize(blkSz);
      PromotedSizes(blkSz);
      if sz < LARGE_BUFFER_SIZE {
        p := SmallMalloc(t, sz, shardOf);
        ExactBuffer(blkSz, Mine(t).hands[p].header.bucket, sz + 7);
      } else {
        p := LargeMalloc(t, sz, shardOf[0]);
        ExactBuffer(blkSz, Mine(t).hands[p].header.bucket, sz + 3);
      }
    }

    /** `RoundBucketAffinedAllocator::malloc` of thread `t`, with the other threads running in between its steps. The last
        step hands the user a buffer that was in this call's hands only, of the least power of two that holds the request
        and eight bytes more. */
    method Malloc(t: nat, blkSz: nat, shardOf: seq<nat>) returns (r: Option<Ptr>)
      requires Idle(t)
      requires |shardOf| == REFILL_SZ && forall i :: 0 <= i < REFILL_SZ ==> shardOf[i] < SHARDS
      modifies this
      ensures Idle(t)
      ensures r.None? <==> blkSz == 0
      ensures Mine(t).dealt == old(Mine(t)).dealt + if r.Some? then [HandOut(r.value)] else []
      ensures r.Some? ==> run != [] && run[|run| - 1] == Event(t, HandOut(r.value)) && r.value in Users(place)
      ensures r.Some? ==> r.value in header && Pow2(header[r.value].bucket) == Greater(32, Ceil2(blkSz + SLACK_BUFFER_SZ))
      ensures r.Some? ==> (header[r.value].flag.Small? <==> PromoteSize(blkSz) < LARGE_BUFFER_SIZE)
      ensures if r.Some? then CacheAfterMalloc(old(Mine(t)).cache, blkSz, r.value, Mine(t).cache) else Mine(t) == old(Mine(t))
    {
      PromotedSizes(blkSz);
      if PromoteSize(blkSz) == 0 {
        return None;
      }
      var p := LargeSmallMalloc(t, blkSz, shardOf);
      Yield(t);
      HandOutTo(t, p);
      return Some(p);
    }

    /** `free` by thread `t`, which need not be the thread that allocated, with the other threads running in between. */
    method Free(t: nat, buf: Option<Ptr>)
      requires Idle(t) && (buf.Some? ==> buf.value in Users(place))
      modifies this
      ensures Idle(t)
      ensures Mine(t).dealt == old(Mine(t)).dealt + if buf.Some? then [TakeBack(buf.value)] else []
      ensures buf.None? ==> Mine(t) == old(Mine(t))
      ensures buf.Some? ==> buf.value in old(header) && CacheAfterFree(old(Mine(t)).cache, old(header)[buf.value], buf.value, Mine(t).cache)
      ensures buf.Some? && old(header)[buf.value].flag.Large? ==>
        buf.value in home && buf.value in place && place[buf.value] == Listed(home[buf.value].k, home[buf.value].b)
    {
      if buf.Some? {
        var p := buf.value;
        TakeBackFrom(t, p);
        Yield(t);
        Return(t, p);
      }
    }

    /** `LargeSmallAffinedAllocator::free`: by the flag byte. */
    method Return(t: nat, p: Ptr)
      requires Valid(t) && Filled(Mine(t).cache) && p in Mine(t).hands && Homing(Mine(t).hands[p])
      requires Flagged(Mine(t).hands[p].header)
      modifies this
      ensures Valid(t) && Filled(Mine(t).cache)
      ensures var v := old(Mine(t)); Mine(t) == v.(cache := Mine(t).cache, hands := v.hands - {p})
      ensures CacheAfterFree(old(Mine(t)).cache, old(Mine(t)).hands[p].header, p, Mine(t).cache)
      ensures old(Mine(t)).hands[p].header.flag.Large? ==> p in home && p in place && place[p] == Listed(home[p].k, home[p].b)
    {
      if header[p].flag.Small? {
        AffinedFree(t, p);
      } else {
        ShardFree(t, p);
      }
    }

    /** The destructor of a thread's cache: nothing of it stays behind. */
    method Destroy(t: nat)
      requires Idle(t)
      modifies this
      ensures Idle(t) && Mine(t) == old(Mine(t)).(cache := Cache(POOLS, map[], []))
    {
      FlushCacheMap(t);
      FlushFreeVec(t);
      CacheIsSized(|caches|, run, Abstract(), t);
    }
  }

  /** `promote_size` */
  function PromoteSize(sz: nat): nat
  {
    Ceil2(sz + SLACK_BUFFER_SZ) - SLACK_BUFFER_SZ
  }

  lemma PromotedSizes(sz: nat)
    ensures PromoteSize(sz) == 0 <==> sz == 0
    ensures PromoteSize(sz) >= sz
  {
    assert Pow2(3) == 8 by { assert Pow2(1) == 2 && Pow2(2) == 4; }
    Ceil2OfPow2(8);
  }

  /** A small request goes through the queue of its promoted size and the flag byte; a large one passes the cache by. */
  ghost predicate CacheAfterMalloc(c: Cache, blkSz: nat, p: Ptr, c': Cache)
  {
    if PromoteSize(blkSz) < LARGE_BUFFER_SIZE then AfterMalloc(c, PromoteSize(blkSz) + 1, p, c') else c' == c
  }

  /** A small buffer goes to the queue of the size in its header; a large one passes the cache by. */
  ghost predicate CacheAfterFree(c: Cache, h: Header, p: Ptr, c': Cache)
  {
    if h.flag.Small? then AfterFree(c, h.usrSz, p, c') else c' == c
  }

  /** The headers never push a promoted request into the next bucket. */
  lemma {:induction false} ExactBuffer(sz: nat, b: nat, n: nat)
    requires sz > 0 && LeastBucket(b, n) && Ceil2(sz + SLACK_BUFFER_SZ) - 5 <= n <= Ceil2(sz + SLACK_BUFFER_SZ)
    ensures Pow2(b) == Greater(32, Ceil2(sz + SLACK_BUFFER_SZ))
  {
    var x := Ceil2(sz + SLACK_BUFFER_SZ);
    var m: nat :| x == Pow2(m);
    Pow2Of4();
    if m < 4 {
      Pow2Monotone(m, 3);
    } else {
      Pow2Monotone(4, m);
      assert Pow2(m) == 2 * Pow2(m - 1);
      Ceil2Least(n, x);
      SameCeil2(n, m);
      LeastBucketIsCeil2(b, n);
    }
  }

  lemma Pow2Of4()
    ensures Pow2(3) == 8 && Pow2(4) == 16
  {
    assert Pow2(1) == 2 && Pow2(2) == 4;
  }

  lemma {:induction false} SameCeil2(n: nat, m: nat)
    requires m > 0 && Pow2(m - 1) < n <= Pow2(m)
    ensures Ceil2(n) == Pow2(m)
  {
    Ceil2Least(n, Pow2(m));
    var j: nat :| Ceil2(n) == Pow2(j);
    if j < m {
      Pow2Monotone(j, m - 1);
    } else {
      Pow2Monotone(m, j);
    }
  }
}
