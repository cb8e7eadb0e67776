/** A key-value funnel from open to close. */
module FunnelRun {
  import opened DenseHashMap
  import opened FunnelStorage
  import opened FunnelChunks
  import opened BumpArena
  import opened KeyValueFunnel

  /** The whole life of a handle: for any deliveries and any capacity the consumer, whatever it held before, gets key by
      key exactly the delivered events, in order. */
  method Feed<K(==, !new), E>(consumer: KVConsumer<K, E>, events: seq<(K, E)>, deliverableCap: nat, buf: nat, eventSize: nat,
                              eventAlign: nat, blank: E, hasher: K -> nat, loadFactor: LoadFactor)
    requires deliverableCap <= MAX_DELIVERABLE_CAP && ValidLoadFactor(loadFactor)
    requires eventAlign > 0 && eventSize > 0 && eventSize % eventAlign == 0
    modifies consumer
    ensures forall k :: Got(consumer.batches, k) == Got(old(consumer.batches), k) + Sent(events, k)
    ensures consumer.batches == old(consumer.batches) + InChunks(events, deliverableCap)
  {
    ghost var before := consumer.batches;
    var handle := OpenHandle(consumer, deliverableCap, buf, eventSize, eventAlign, blank, hasher, loadFactor);
    DeliverAll(handle, events);
    handle.Close();
    AllPushed(before, events, deliverableCap);
  }

  lemma AllPushed<K(!new), E>(before: seq<Batch<K, E>>, events: seq<(K, E)>, cap: nat)
    ensures forall k :: Sent(Unbatched(before) + events, k) == Got(before, k) + Sent(events, k)
    ensures var (bs, last) := DeliveredAll(cap, [], events);
      before + bs + Grouped(last) == before + InChunks(events, cap)
  {
    var pushed := DeliveredAll(cap, [], events);
    PushedInChunks(cap, [], events);
    assert [] + events == events;
    Regrouped(before, pushed.0, Grouped(pushed.1));
    forall k ensures Sent(Unbatched(before) + events, k) == Got(before, k) + Sent(events, k) {
      SentUnbatched(before, k);
      SentAppend(Unbatched(before), events, k);
    }
  }

  lemma FirstThenRest<T, U>(before: seq<(T, U)>, events: seq<(T, U)>)
    requires events != []
    ensures before + [(events[0].0, events[0].1)] + events[1..] == before + events
  {}

  lemma OneDelivered<K, E>(cap: nat, pending: seq<(K, E)>, key: K, e: E, bs: seq<Batch<K, E>>, bs': seq<Batch<K, E>>, pending': seq<(K, E)>)
    requires |pending| <= cap && Served(cap, |pending|, pending, Grouped(pending), bs, key, e, bs', pending')
    ensures bs' == bs + Delivered(cap, pending, key, e).0 && pending' == Delivered(cap, pending, key, e).1
  {}

  method DeliverAll<K(==, !new), E>(handle: KVDeliveryHandle<K, E>, events: seq<(K, E)>)
    requires handle.Valid()
    modifies handle, handle.arena, handle.arena.bumpAllocator, handle.arena.slots, handle.keyEventMap, handle.consumer
    ensures handle.Valid() && handle.delivered == old(handle.delivered) + events
    ensures handle.consumer.batches == old(handle.consumer.batches) + DeliveredAll(handle.deliverableCap, old(handle.pending), events).0
    ensures handle.pending == DeliveredAll(handle.deliverableCap, old(handle.pending), events).1
    decreases |events|
  {
    if events != [] {
      ghost var before, batches := handle.delivered, handle.consumer.batches;
      ghost var pending, cap := handle.pending, handle.deliverableCap;
      ghost var one := Delivered(cap, pending, events[0].0, events[0].1);
      handle.Deliver(events[0].0, events[0].1);
      OneDelivered(cap, pending, events[0].0, events[0].1, batches, handle.consumer.batches, handle.pending);
      DeliverAll(handle, events[1..]);
      FirstThenRest(before, events);
      Regrouped(batches, one.0, DeliveredAll(cap, one.1, events[1..]).0);
    }
  }

  /** `delvrsrv_kv_open_preallocated_handle` on a buffer at `buf`. */
  method OpenHandle<K(==, !new), E>(consumer: KVConsumer<K, E>, deliverableCap: nat, buf: nat, eventSize: nat, eventAlign: nat, blank: E,
                                    hasher: K -> nat, loadFactor: LoadFactor) returns (handle: KVDeliveryHandle<K, E>)
    requires deliverableCap <= MAX_DELIVERABLE_CAP && ValidLoadFactor(loadFactor)
    requires eventAlign > 0 && eventSize > 0 && eventSize % eventAlign == 0
    ensures handle.Valid() && handle.delivered == Unbatched(consumer.batches) && handle.pending == [] && handle.consumer == consumer
    ensures handle.deliverableCap == deliverableCap
    ensures fresh({handle, handle.arena, handle.arena.bumpAllocator, handle.arena.slots, handle.keyEventMap})
  {
    var arena := new EventArena<E>(deliverableCap, buf, eventSize, eventAlign, blank);
    var keyEventMap := MakeMap<K>(deliverableCap, hasher, loadFactor);
    handle := new KVDeliveryHandle<K, E>(consumer, deliverableCap, arena, keyEventMap);
  }
}
