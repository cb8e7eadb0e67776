/** The key-value delivery handle: events batched per key in a bump arena and flushed to a consumer. */
module KeyValueFunnel {
  import opened PowersOfTwo
  import opened DenseLinks
  import opened DenseHashMap
  import opened FunnelStorage
  import opened FunnelChunks
  import opened BumpArena

  class KVConsumer<K, E> {
    var batches: seq<Batch<K, E>>

    constructor ()
      ensures batches == []
    {
      batches := [];
    }

    method Push(key: K, events: seq<E>)
      modifies this
      ensures batches == old(batches) + [Batch(key, events)]
    {
      batches := batches + [Batch(key, events)];
    }
  }

  function SlotsOf<K>(ns: seq<Node<K, Container>>): (ss: seq<Slot<K>>)
    ensures |ss| == |ns| && forall i {:trigger ss[i]} :: 0 <= i < |ns| ==> ss[i] == Slot(ns[i].first, ns[i].second)
  {
    seq(|ns|, i requires 0 <= i < |ns| => Slot(ns[i].first, ns[i].second))
  }

  class KVDeliveryHandle<K(==, !new), E> {
    const arena: EventArena<E>
    const keyEventMap: UnorderedNodeMap<K, Container>
    const consumer: KVConsumer<K, E>
    const deliverableCap: nat
    var deliverableSz: nat
    ghost var delivered: seq<(K, E)>
    ghost var pending: seq<(K, E)>           // the deliveries since the last flush
    ghost var groups: seq<Batch<K, E>>       // the batches they make

    ghost function Slots(): seq<Slot<K>>
      reads keyEventMap
    {
      SlotsOf(keyEventMap.virtualStorageVec)
    }

    ghost predicate Storing()
      reads this, arena, arena.bumpAllocator, arena.slots
    {
      arena.Valid() && arena.deliverableCap == deliverableCap
    }

    ghost predicate Grouping()
      reads this
    {
      deliverableSz == |pending| && groups == Grouped(pending)
    }

    ghost predicate Mapping()
      reads keyEventMap
    {
      keyEventMap.Valid() && keyEventMap.storageCapacity > deliverableCap
    }

    /** The containers hold exactly the batches to be pushed. */
    ghost predicate Resting()
      reads this, arena, arena.bumpAllocator, arena.slots, keyEventMap
    {
      Storing() && Mapping() && AtRest(Slots(), arena.slots[..], arena.used, deliverableCap, deliverableSz, groups)
    }

    /** Between the steps of one delivery: the container at `at` is the one of `key`, with room for its next event. */
    ghost predicate Poised(at: nat, key: K)
      reads this, arena, arena.bumpAllocator, arena.slots, keyEventMap
    {
      && Storing() && Mapping() && at < |Slots()| && Slots()[at].key == key
      && ReadyFor(Slots(), at, arena.slots[..], arena.used, deliverableCap, deliverableSz, groups)
    }

    /** Between deliveries; every event delivered is pending or was pushed. */
    ghost predicate Valid()
      reads this, arena, arena.bumpAllocator, arena.slots, keyEventMap, consumer
    {
      Resting() && Grouping() && Accounted(consumer.batches, delivered, pending)
    }

    /** `delvrsrv_kv_open_preallocated_handle`; what the consumer holds already counts as delivered. */
    constructor (consumer: KVConsumer<K, E>, deliverableCap: nat, arena: EventArena<E>, keyEventMap: UnorderedNodeMap<K, Container>)
      requires arena.Valid() && arena.used == 0 && arena.deliverableCap == deliverableCap <= MAX_DELIVERABLE_CAP
      requires keyEventMap.Valid() && keyEventMap.virtualStorageVec == [] && keyEventMap.storageCapacity > deliverableCap
      ensures Valid() && delivered == Unbatched(consumer.batches) && pending == []
      ensures this.consumer == consumer && this.deliverableCap == deliverableCap
      ensures this.keyEventMap == keyEventMap && this.arena == arena
    {
      this.consumer, this.deliverableCap, this.arena, this.keyEventMap := consumer, deliverableCap, arena, keyEventMap;
      deliverableSz, delivered, pending, groups := 0, Unbatched(consumer.batches), [], [];
      new;
      AccountOpens(consumer.batches);
      assert Slots() == [];
    }

    // ----- flushing -----

    /** The loop of `delvrsrv_kv_clear`: one push per key, in storage order. */
    method PushAll()
      requires forall i :: 0 <= i < |Slots()| ==> InSlots(Slots()[i].c, arena.slots.Length)
      modifies consumer
      ensures consumer.batches == old(consumer.batches) + Drained(Slots(), arena.slots[..])
    {
      ghost var bs, ds := consumer.batches, Drained(Slots(), arena.slots[..]);
      var nodes := keyEventMap.virtualStorageVec;
      for it := 0 to |nodes|
        invariant consumer.batches == bs + ds[..it]
      {
        var node := nodes[it];
        assert Slots()[it] == Slot(node.first, node.second) && InSlots(node.second, arena.slots.Length);
        assert arena.slots[node.second.ptr..node.second.ptr + node.second.sz] == Held(node.second, arena.slots[..]);
        consumer.Push(node.first, arena.slots[node.second.ptr..node.second.ptr + node.second.sz]);
        assert ds[..it + 1] == ds[..it] + [ds[it]];
      }
      assert ds[..|nodes|] == ds;
    }

    /** `delvrsrv_kv_clear` */
    method Clear()
      requires Valid()
      modifies this`deliverableSz, this`pending, this`groups, arena, arena.bumpAllocator, keyEventMap, consumer
      ensures Valid() && deliverableSz == 0 && Slots() == [] && pending == []
      ensures consumer.batches == old(consumer.batches) + Drained(old(Slots()), old(arena.slots[..]))
      ensures consumer.batches == old(consumer.batches) + old(groups)
      ensures forall k :: Got(consumer.batches, k) == Sent(delivered, k)
      ensures |keyEventMap.bucketVec| == old(|keyEventMap.bucketVec|)
    {
      PhaseFlushed(consumer.batches, delivered, pending);
      PushAll();
      Restart();
    }

    /** The map emptied, the arena cursor back at the start. */
    method Restart()
      requires arena.Valid() && arena.deliverableCap == deliverableCap && Mapping()
      modifies this`deliverableSz, this`pending, this`groups, arena, arena.bumpAllocator, keyEventMap
      ensures Resting() && Grouping() && deliverableSz == 0 && Slots() == [] && pending == []
      ensures |keyEventMap.bucketVec| == old(|keyEventMap.bucketVec|)
    {
      keyEventMap.Clear();
      arena.Reset();
      deliverableSz, pending, groups := 0, [], [];
      assert Slots() == [];
    }

    // ----- delivering -----

    /** `try_emplace` of an absent key into the map, which has room for it. */
    method EnterKey(key: K, c: Container) returns (at: nat)
      requires keyEventMap.Valid() && key !in keyEventMap.contents && |Slots()| < keyEventMap.storageCapacity
      modifies keyEventMap
      ensures keyEventMap.Valid() && keyEventMap.storageCapacity == old(keyEventMap.storageCapacity)
      ensures |keyEventMap.bucketVec| == old(|keyEventMap.bucketVec|)
      ensures at == old(|Slots()|) && Slots() == old(Slots()) + [Slot(key, c)]
    {
      ghost var ss := Slots();
      var result := keyEventMap.Insert(key, c);
      at := result.at;
      assert Slots() == ss + [Slot(key, c)];
    }

    method SetContainer(at: nat, c: Container)
      requires keyEventMap.Valid() && at < |Slots()|
      modifies keyEventMap
      ensures keyEventMap.Valid() && keyEventMap.storageCapacity == old(keyEventMap.storageCapacity)
      ensures |keyEventMap.bucketVec| == old(|keyEventMap.bucketVec|)
      ensures Slots() == old(Slots())[at := Slot(old(Slots())[at].key, c)]
    {
      ghost var ss := Slots();
      keyEventMap.SetSecond(at, c);
      assert Slots() == ss[at := Slot(ss[at].key, c)];
    }

    /** Room for a first container, if the map then enters it under `key`. */
    method TakeFirst(key: K) returns (c: Container)
      requires Storing() && AtRest(Slots(), arena.slots[..], arena.used, deliverableCap, deliverableSz, groups) && deliverableSz < deliverableCap
      requires forall i :: 0 <= i < |Slots()| ==> Slots()[i].key != key
      modifies arena, arena.bumpAllocator, arena.slots
      ensures Storing() && c == Container(old(arena.used), 0, INITIAL_CAP)
      ensures ReadyFor(WithKey(Slots(), key, old(arena.used)), |Slots()|, arena.slots[..], arena.used, deliverableCap, deliverableSz, groups)
    {
      ghost var ss, mem, u := Slots(), arena.slots[..], arena.used;
      RoomForKey(ss, deliverableCap);
      c := arena.MakeContainer(INITIAL_CAP);
      ghost var after := arena.slots[..];
      assert Slots() == ss && after[..u] == mem[..u];
      ReadyInNew(ss, key, mem, after, u, deliverableCap, deliverableSz, groups);
    }

    lemma KeyHasRoom()
      requires Resting() && deliverableSz < deliverableCap
      ensures |Slots()| < keyEventMap.storageCapacity
    {
      RoomForKey(Slots(), deliverableCap);
    }

    lemma KeyIsNew(key: K)
      requires keyEventMap.Valid() && key !in keyEventMap.contents
      ensures forall i :: 0 <= i < |Slots()| ==> Slots()[i].key != key
    {}

    /** A first container for a key, entered into the map, which never grows. */
    method AddKey(key: K) returns (at: nat)
      requires Resting() && key !in keyEventMap.contents && deliverableSz < deliverableCap
      modifies arena, arena.bumpAllocator, arena.slots, keyEventMap
      ensures Poised(at, key)
      ensures |keyEventMap.bucketVec| == old(|keyEventMap.bucketVec|)
    {
      KeyHasRoom();
      KeyIsNew(key);
      ghost var ss, u := Slots(), arena.used;
      var c := TakeFirst(key);
      assert Slots() == ss;
      at := EnterKey(key, c);
      assert Slots() == WithKey(ss, key, u);
    }

    lemma RoomToDouble(at: nat)
      requires Storing() && AtRest(Slots(), arena.slots[..], arena.used, deliverableCap, deliverableSz, groups) && deliverableSz < deliverableCap
      requires at < |Slots()| && Slots()[at].c.sz == Slots()[at].c.cap
      ensures InSlots(Slots()[at].c, arena.used) && arena.used + 2 * Slots()[at].c.cap <= 4 * deliverableCap
    {
      RoomInPhase(Slots(), at, arena.slots[..], arena.used, deliverableCap, deliverableSz, groups);
    }

    /** Twice the room for a full container, with its events moved over, if the map then points there. */
    method TakeDouble(at: nat) returns (req: Container)
      requires Storing() && AtRest(Slots(), arena.slots[..], arena.used, deliverableCap, deliverableSz, groups) && deliverableSz < deliverableCap
      requires at < |Slots()| && Slots()[at].c.sz == Slots()[at].c.cap
      modifies arena, arena.bumpAllocator, arena.slots
      ensures Storing() && req == Container(old(arena.used), Slots()[at].c.sz, 2 * Slots()[at].c.cap)
      ensures ReadyFor(WithDouble(Slots(), at, old(arena.used)), at, arena.slots[..], arena.used, deliverableCap, deliverableSz, groups)
    {
      ghost var ss, mem, u := Slots(), arena.slots[..], arena.used;
      var c := keyEventMap.virtualStorageVec[at].second;
      RoomToDouble(at);
      assert ss[at].c == c;
      req := arena.DoubleContainer(c);
      ghost var after := arena.slots[..];
      assert Slots() == ss;
      ReadyInDouble(ss, at, mem, after, u, deliverableCap, deliverableSz, groups);
    }

    method Grow(at: nat, ghost key: K)
      requires Resting() && deliverableSz < deliverableCap
      requires at < |Slots()| && Slots()[at].key == key && Slots()[at].c.sz == Slots()[at].c.cap
      modifies arena, arena.bumpAllocator, arena.slots, keyEventMap
      ensures Poised(at, key)
      ensures |keyEventMap.bucketVec| == old(|keyEventMap.bucketVec|)
    {
      ghost var ss, u := Slots(), arena.used;
      var req := TakeDouble(at);
      assert Slots() == ss;
      SetContainer(at, req);
      assert Slots() == WithDouble(ss, at, u);
    }

    /** The write of the event and the count; the container's own size is still to follow. */
    method WriteEvent(at: nat, key: K, event: E) returns (c: Container)
      requires Storing() && at < |Slots()| && Slots()[at].key == key && deliverableSz < deliverableCap
      requires ReadyFor(Slots(), at, arena.slots[..], arena.used, deliverableCap, deliverableSz, groups)
      modifies this`deliverableSz, this`delivered, this`pending, this`groups, arena.slots
      ensures Storing() && c == WithEvent(Slots(), at)[at].c
      ensures delivered == old(delivered) + [(key, event)] && pending == old(pending) + [(key, event)]
      ensures deliverableSz == old(deliverableSz) + 1 && groups == Joined(old(groups), key, event)
      ensures AtRest(WithEvent(Slots(), at), arena.slots[..], arena.used, deliverableCap, deliverableSz, groups)
    {
      ghost var ss, mem := Slots(), arena.slots[..];
      c := keyEventMap.virtualStorageVec[at].second;
      RestsWithEvent(ss, at, mem, event, arena.used, deliverableCap, deliverableSz, groups);
      arena.slots[c.ptr + c.sz] := event;
      assert arena.slots[..] == mem[c.ptr + c.sz := event];
      deliverableSz := deliverableSz + 1;
      delivered, pending, groups := delivered + [(key, event)], pending + [(key, event)], Joined(groups, key, event);
      c := Container(c.ptr, c.sz + 1, c.cap);
    }

    /** `delvrsrv_kv_push_event_container`, and the count. */
    method PushEvent(at: nat, key: K, event: E)
      requires Poised(at, key) && deliverableSz < deliverableCap
      modifies this`deliverableSz, this`delivered, this`pending, this`groups, arena.slots, keyEventMap
      ensures Resting() && delivered == old(delivered) + [(key, event)] && pending == old(pending) + [(key, event)]
      ensures deliverableSz == old(deliverableSz) + 1 && groups == Joined(old(groups), key, event)
      ensures |keyEventMap.bucketVec| == old(|keyEventMap.bucketVec|)
    {
      ghost var ss := Slots();
      var c := WriteEvent(at, key, event);
      assert Slots() == ss;
      SetContainer(at, c);
      assert Slots() == WithEvent(ss, at);
    }

    /** Room for an event in the container at `at`, which doubles when it is full. */
    method MakeRoom(at: nat, ghost key: K)
      requires Resting() && deliverableSz < deliverableCap && at < |Slots()| && Slots()[at].key == key
      modifies arena, arena.bumpAllocator, arena.slots, keyEventMap
      ensures Poised(at, key)
      ensures |keyEventMap.bucketVec| == old(|keyEventMap.bucketVec|)
    {
      var c := keyEventMap.virtualStorageVec[at].second;
      if c.sz == c.cap {
        Grow(at, key);
      } else {
        ReadyHere(Slots(), at, arena.slots[..], arena.used, deliverableCap, deliverableSz, groups);
      }
    }

    /** The container of `key`, with room for an event. */
    method Acquire(key: K) returns (at: nat)
      requires Resting() && deliverableSz < deliverableCap
      modifies arena, arena.bumpAllocator, arena.slots, keyEventMap
      ensures Poised(at, key)
      ensures |keyEventMap.bucketVec| == old(|keyEventMap.bucketVec|)
    {
      at := keyEventMap.Find(key);
      if at == |keyEventMap.virtualStorageVec| {
        at := AddKey(key);
      } else {
        MakeRoom(at, key);
      }
    }

    /** `delvrsrv_kv_deliver_slow_path`: only here, and only at capacity, is anything pushed. */
    method DeliverSlowPath(key: K, event: E)
      requires Valid()
      modifies this`deliverableSz, this`delivered, this`pending, this`groups, arena, arena.bumpAllocator, arena.slots, keyEventMap, consumer
      ensures Valid() && delivered == old(delivered) + [(key, event)]
      ensures Served(deliverableCap, old(deliverableSz), old(pending), old(groups), old(consumer.batches), key, event,
                     consumer.batches, pending)
      ensures |keyEventMap.bucketVec| == old(|keyEventMap.bucketVec|)
    {
      if deliverableSz == deliverableCap {
        if deliverableCap == 0 {
          PassOn(key, event);
        } else {
          FlushAndDeliver(key, event);
        }
      } else {
        DeliverWithin(key, event);
      }
    }

    method FlushAndDeliver(key: K, event: E)
      requires Valid() && deliverableSz == deliverableCap > 0
      modifies this`deliverableSz, this`delivered, this`pending, this`groups, arena, arena.bumpAllocator, arena.slots, keyEventMap, consumer
      ensures Valid() && delivered == old(delivered) + [(key, event)]
      ensures Served(deliverableCap, old(deliverableSz), old(pending), old(groups), old(consumer.batches), key, event,
                     consumer.batches, pending)
      ensures |keyEventMap.bucketVec| == old(|keyEventMap.bucketVec|)
    {
      Clear();
      DeliverWithin(key, event);
    }

    /** The rest of the slow path, with room for one more event before the next flush. */
    method DeliverWithin(key: K, event: E)
      requires Valid() && deliverableSz < deliverableCap
      modifies this`deliverableSz, this`delivered, this`pending, this`groups, arena, arena.bumpAllocator, arena.slots, keyEventMap
      ensures Valid() && delivered == old(delivered) + [(key, event)]
      ensures Served(deliverableCap, old(deliverableSz), old(pending), old(groups), old(consumer.batches), key, event,
                     consumer.batches, pending)
      ensures |keyEventMap.bucketVec| == old(|keyEventMap.bucketVec|)
    {
      EventAccounted(consumer.batches, delivered, pending, key, event);
      GroupedOneMore(pending, key, event);
      var at := Acquire(key);
      PushEvent(at, key, event);
    }

    /** With a capacity of zero nothing is ever pending. */
    method PassOn(key: K, event: E)
      requires Valid() && deliverableCap == 0
      modifies this`delivered, consumer
      ensures Valid() && delivered == old(delivered) + [(key, event)]
      ensures Served(deliverableCap, old(deliverableSz), old(pending), old(groups), old(consumer.batches), key, event,
                     consumer.batches, pending)
    {
      assert pending == [];
      PhasePassedOn(key, event, consumer.batches, delivered);
      consumer.Push(key, [event]);
      delivered := delivered + [(key, event)];
    }

    /** `delvrsrv_kv_deliver` */
    method Deliver(key: K, event: E)
      requires Valid()
      modifies this`deliverableSz, this`delivered, this`pending, this`groups, arena, arena.bumpAllocator, arena.slots, keyEventMap, consumer
      ensures Valid() && delivered == old(delivered) + [(key, event)]
      ensures Served(deliverableCap, old(deliverableSz), old(pending), old(groups), old(consumer.batches), key, event,
                     consumer.batches, pending)
      ensures |keyEventMap.bucketVec| == old(|keyEventMap.bucketVec|)
    {
      var at := keyEventMap.Find(key);
      if deliverableSz == deliverableCap || at == |keyEventMap.virtualStorageVec|
        || keyEventMap.virtualStorageVec[at].second.sz == keyEventMap.virtualStorageVec[at].second.cap {
        DeliverSlowPath(key, event);
      } else {
        PushHere(at, key, event);
      }
    }

    /** The fast path. */
    method PushHere(at: nat, key: K, event: E)
      requires Valid() && deliverableSz < deliverableCap && at < |Slots()| && Slots()[at].key == key
      requires Slots()[at].c.sz != Slots()[at].c.cap
      modifies this`deliverableSz, this`delivered, this`pending, this`groups, arena.slots, keyEventMap
      ensures Valid() && delivered == old(delivered) + [(key, event)]
      ensures Served(deliverableCap, old(deliverableSz), old(pending), old(groups), old(consumer.batches), key, event,
                     consumer.batches, pending)
      ensures |keyEventMap.bucketVec| == old(|keyEventMap.bucketVec|)
    {
      EventAccounted(consumer.batches, delivered, pending, key, event);
      GroupedOneMore(pending, key, event);
      ReadyHere(Slots(), at, arena.slots[..], arena.used, deliverableCap, deliverableSz, groups);
      PushEvent(at, key, event);
    }

    /** `delvrsrv_kv_close_preallocated_handle`: the last flush. */
    method Close()
      requires Valid()
      modifies this`deliverableSz, this`pending, this`groups, arena, arena.bumpAllocator, keyEventMap, consumer
      ensures forall k :: Got(consumer.batches, k) == Sent(delivered, k) && delivered == old(delivered)
      ensures consumer.batches == old(consumer.batches) + Grouped(old(pending))
    {
      Clear();
    }
  }

  /** The map of a handle: sized for one key more than there can be. */
  method MakeMap<K(==)>(deliverableCap: nat, hasher: K -> nat, loadFactor: LoadFactor) returns (keyEventMap: UnorderedNodeMap<K, Container>)
    requires deliverableCap <= MAX_DELIVERABLE_CAP && ValidLoadFactor(loadFactor)
    ensures fresh(keyEventMap) && keyEventMap.Valid() && keyEventMap.virtualStorageVec == []
    ensures keyEventMap.storageCapacity > deliverableCap
  {
    var n := BucketCountForSizeOf(loadFactor, deliverableCap + 1);
    BucketsWithinMax(loadFactor, deliverableCap);
    BucketsCover(loadFactor, deliverableCap + 1);
    keyEventMap := new UnorderedNodeMap<K, Container>.Make(n, hasher, loadFactor);
  }

  lemma BucketsWithinMax(f: LoadFactor, deliverableCap: nat)
    requires ValidLoadFactor(f) && deliverableCap <= MAX_DELIVERABLE_CAP
    ensures BucketCount(BucketCountForSizeOf(f, deliverableCap + 1)) <= MAX_CAP
  {
    MaxCapIsPow2();
    var n := Upround(f, deliverableCap + 1);
    var g := deliverableCap / f.num + 1;
    GroupsCover(deliverableCap + 1, f.num);
    MulMonotone(1, f.num, deliverableCap + 1);
    DivBelow(deliverableCap, f.num, deliverableCap + 1);
    MulMonotone(g, deliverableCap + 1, f.den);
    MulMonotone(f.den, 8, deliverableCap + 1);
    Ceil2Least(RightSizeToCapacity(f, n), MAX_CAP);
    Ceil2Least(BucketCountForSizeOf(f, deliverableCap + 1), MAX_CAP);
  }

  lemma BucketsCover(f: LoadFactor, n: nat)
    requires ValidLoadFactor(f)
    ensures RightCapacityToSize(f, BucketCount(BucketCountForSizeOf(f, n))) >= n
  {
    BucketCountCoversSize(f, n);
    MoreBucketsMoreRoom(f, BucketCountForSizeOf(f, n), BucketCount(BucketCountForSizeOf(f, n)));
  }
}
