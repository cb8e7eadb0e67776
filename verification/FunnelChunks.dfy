/** What a funnel pushes, from the deliveries alone: one chunk of deliveries after the other, one batch per key of a chunk. */
module FunnelChunks {
  import opened FunnelStorage

  // ----- the batches of one chunk -----

  /** The place of the batch of `key`, or the number of batches if there is none. */
  ghost function Place<K, E>(bs: seq<Batch<K, E>>, key: K): (at: nat)
    ensures at <= |bs| && (at < |bs| ==> bs[at].key == key) && forall i :: 0 <= i < at ==> bs[i].key != key
  {
    if bs == [] then 0 else if bs[0].key == key then 0 else
      var at := Place(bs[1..], key);
      assert forall i :: 0 < i < at + 1 ==> bs[i] == bs[1..][i - 1];
      at + 1
  }

  /** One event more: at the end of its key's batch, or in a batch of its own behind the others. */
  ghost function Joined<K, E>(bs: seq<Batch<K, E>>, key: K, e: E): (bs': seq<Batch<K, E>>)
  {
    var at := Place(bs, key);
    if at < |bs| then Extended(bs, at, e) else bs + [Batch(key, [e])]
  }

  ghost function Grouped<K, E>(es: seq<(K, E)>): seq<Batch<K, E>>
  {
    if es == [] then [] else
      var n := |es| - 1;
      Joined(Grouped(es[..n]), es[n].0, es[n].1)
  }

  lemma GroupedOneMore<K, E>(es: seq<(K, E)>, key: K, e: E)
    ensures Grouped(es + [(key, e)]) == Joined(Grouped(es), key, e)
  {
    assert (es + [(key, e)])[..|es|] == es;
  }

  /** When the first event of `key` was delivered. */
  ghost function First<K, E>(es: seq<(K, E)>, key: K): (n: nat)
    ensures n <= |es| && (n < |es| ==> es[n].0 == key) && forall i :: 0 <= i < n ==> es[i].0 != key
    decreases |es|
  {
    if es == [] then 0 else
      var n := |es| - 1;
      var before := First(es[..n], key);
      if before < n then before else if es[n].0 == key then n else n + 1
  }

  ghost predicate BatchOf<K, E>(b: Batch<K, E>, es: seq<(K, E)>)
  {
    First(es, b.key) < |es| && b.events == Sent(es, b.key)
  }

  /** One batch for each key that has events, with exactly its events in order, the keys in the order of their first events. */
  ghost predicate OneBatchPerKey<K(!new), E>(bs: seq<Batch<K, E>>, es: seq<(K, E)>)
  {
    && (forall i :: 0 <= i < |bs| ==> BatchOf(bs[i], es))
    && (forall i, j :: 0 <= i < j < |bs| ==> First(es, bs[i].key) < First(es, bs[j].key))
    && (forall k :: First(es, k) < |es| ==> Place(bs, k) < |bs|)
  }

  lemma FirstOneMore<K, E>(es: seq<(K, E)>, key: K, e: E, k: K)
    ensures var n := First(es, k);
      First(es + [(key, e)], k) == if n < |es| then n else if k == key then n else n + 1
  {
    assert (es + [(key, e)])[..|es|] == es;
  }

  lemma {:induction false} BatchJoined<K(!new), E>(bs: seq<Batch<K, E>>, es: seq<(K, E)>, key: K, e: E, i: nat)
    requires OneBatchPerKey(bs, es) && i < |bs| && Place(bs, key) < |bs|
    ensures var b' := Extended(bs, Place(bs, key), e)[i];
      BatchOf(b', es + [(key, e)]) && b'.key == bs[i].key && First(es + [(key, e)], b'.key) == First(es, bs[i].key)
  {
    var at := Place(bs, key);
    assert BatchOf(bs[i], es);
    assert i > at ==> First(es, bs[at].key) < First(es, bs[i].key);
    FirstOneMore(es, key, e, bs[i].key);
    SentOneMore(es, key, e, bs[i].key);
  }

  lemma {:induction false} KeyJoined<K(!new), E>(bs: seq<Batch<K, E>>, es: seq<(K, E)>, key: K, e: E)
    requires OneBatchPerKey(bs, es) && Place(bs, key) < |bs|
    ensures OneBatchPerKey(Extended(bs, Place(bs, key), e), es + [(key, e)])
  {
    var bs', es' := Extended(bs, Place(bs, key), e), es + [(key, e)];
    forall i | 0 <= i < |bs| ensures BatchOf(bs'[i], es') && bs'[i].key == bs[i].key && First(es', bs'[i].key) == First(es, bs[i].key) {
      BatchJoined(bs, es, key, e, i);
    }
    forall k | First(es', k) < |es'| ensures Place(bs', k) < |bs'| {
      FirstOneMore(es, key, e, k);
      assert bs'[Place(bs, k)].key == k;
    }
  }

  lemma {:induction false} BatchOpened<K(!new), E>(bs: seq<Batch<K, E>>, es: seq<(K, E)>, key: K, e: E, i: nat)
    requires OneBatchPerKey(bs, es) && i <= |bs| && Place(bs, key) == |bs|
    ensures var b', es' := (bs + [Batch(key, [e])])[i], es + [(key, e)];
      BatchOf(b', es') && First(es', b'.key) == if i < |bs| then First(es, bs[i].key) else |es|
  {
    if i < |bs| {
      assert BatchOf(bs[i], es) && bs[i].key != key;
      FirstOneMore(es, key, e, bs[i].key);
      SentOneMore(es, key, e, bs[i].key);
    } else {
      assert First(es, key) == |es|;
      SentOnlyAfterFirst(es, key);
      FirstOneMore(es, key, e, key);
      SentOneMore(es, key, e, key);
    }
  }

  lemma {:induction false} KeyOpened<K(!new), E>(bs: seq<Batch<K, E>>, es: seq<(K, E)>, key: K, e: E)
    requires OneBatchPerKey(bs, es) && Place(bs, key) == |bs|
    ensures OneBatchPerKey(bs + [Batch(key, [e])], es + [(key, e)])
  {
    var bs', es' := bs + [Batch(key, [e])], es + [(key, e)];
    forall i | 0 <= i < |bs'| ensures BatchOf(bs'[i], es') && First(es', bs'[i].key) == if i < |bs| then First(es, bs[i].key) else |es| {
      BatchOpened(bs, es, key, e, i);
    }
    forall i | 0 <= i < |bs| ensures First(es, bs[i].key) < |es| {
      assert BatchOf(bs[i], es);
    }
    forall k | First(es', k) < |es'| ensures Place(bs', k) < |bs'| {
      FirstOneMore(es, key, e, k);
      assert k == key ==> bs'[|bs|].key == k;
      assert k != key ==> bs'[Place(bs, k)].key == k;
    }
  }

  lemma {:induction false} SentOnlyAfterFirst<K, E>(es: seq<(K, E)>, key: K)
    requires First(es, key) == |es|
    ensures Sent(es, key) == []
  {
    if es != [] {
      assert es[|es| - 1].0 != key;
      SentOnlyAfterFirst(es[..|es| - 1], key);
    }
  }

  lemma {:induction false} GroupedIsOneBatchPerKey<K(!new), E>(es: seq<(K, E)>)
    ensures OneBatchPerKey(Grouped(es), es)
    decreases |es|
  {
    if es != [] {
      var n := |es| - 1;
      GroupedIsOneBatchPerKey(es[..n]);
      var bs, key, e := Grouped(es[..n]), es[n].0, es[n].1;
      if Place(bs, key) < |bs| {
        KeyJoined(bs, es[..n], key, e);
      } else {
        KeyOpened(bs, es[..n], key, e);
      }
      assert es == es[..n] + [(key, e)];
    }
  }

  // ----- chunk by chunk -----

  /** All that is pushed for these deliveries: each chunk of `cap` of them, and what is left, as one batch per key; with no
      room at all, each delivery as a batch of its own. */
  ghost function InChunks<K, E>(es: seq<(K, E)>, cap: nat): seq<Batch<K, E>>
    decreases |es|
  {
    if cap == 0 then (if es == [] then [] else [Batch(es[0].0, [es[0].1])] + InChunks(es[1..], cap))
    else if |es| <= cap then Grouped(es)
    else Grouped(es[..cap]) + InChunks(es[cap..], cap)
  }

  /** What a delivery does when `n` others are pending, which make `groups`: below capacity nothing is pushed, at capacity
      exactly the batches of those pending, and with no room at all the delivery itself. */
  ghost predicate Served<K, E>(cap: nat, n: nat, pending: seq<(K, E)>, groups: seq<Batch<K, E>>, bs: seq<Batch<K, E>>, key: K, e: E,
                               bs': seq<Batch<K, E>>, pending': seq<(K, E)>)
  {
    && (n < cap ==> bs' == bs && pending' == pending + [(key, e)])
    && (n == cap > 0 ==> bs' == bs + groups && pending' == [(key, e)])
    && (cap == 0 ==> bs' == bs + [Batch(key, [e])] && pending' == [])
  }

  /** What one delivery pushes, and what is pending after it. */
  ghost function Delivered<K, E>(cap: nat, pending: seq<(K, E)>, key: K, e: E): (seq<Batch<K, E>>, seq<(K, E)>)
  {
    if cap == 0 then ([Batch(key, [e])], [])
    else if |pending| == cap then (Grouped(pending), [(key, e)])
    else ([], pending + [(key, e)])
  }

  ghost function DeliveredAll<K, E>(cap: nat, pending: seq<(K, E)>, es: seq<(K, E)>): (seq<Batch<K, E>>, seq<(K, E)>)
    decreases |es|
  {
    if es == [] then ([], pending) else
      var (bs, pending') := Delivered(cap, pending, es[0].0, es[0].1);
      var (rest, last) := DeliveredAll(cap, pending', es[1..]);
      (bs + rest, last)
  }

  lemma {:induction false} OneDelivery<K, E>(cap: nat, pending: seq<(K, E)>, key: K, e: E, rest: seq<(K, E)>)
    requires |pending| <= cap
    ensures var (bs, pending') := Delivered(cap, pending, key, e);
      |pending'| <= cap && bs + InChunks(pending' + rest, cap) == InChunks(pending + [(key, e)] + rest, cap)
  {
    var all, pending' := pending + [(key, e)] + rest, Delivered(cap, pending, key, e).1;
    if cap == 0 {
      assert all[0] == (key, e) && all[1..] == rest == pending' + rest;
    } else if |pending| == cap {
      assert all[..cap] == pending && all[cap..] == pending' + rest;
    } else {
      assert all == pending' + rest;
    }
  }

  lemma Regrouped<T>(a: seq<T>, b: seq<T>, c: seq<T>)
    ensures (a + b) + c == a + (b + c)
  {}

  lemma FirstApart<K, E>(pending: seq<(K, E)>, es: seq<(K, E)>)
    requires es != []
    ensures pending + [(es[0].0, es[0].1)] + es[1..] == pending + es
  {}

  /** Deliveries and the last flush push exactly the chunks. */
  lemma {:induction false} PushedInChunks<K, E>(cap: nat, pending: seq<(K, E)>, es: seq<(K, E)>)
    requires |pending| <= cap
    ensures DeliveredAll(cap, pending, es).0 + Grouped(DeliveredAll(cap, pending, es).1) == InChunks(pending + es, cap)
    decreases |es|
  {
    if es == [] {
      assert pending + es == pending;
    } else {
      var one := Delivered(cap, pending, es[0].0, es[0].1);
      var more := DeliveredAll(cap, one.1, es[1..]);
      OneDelivery(cap, pending, es[0].0, es[0].1, es[1..]);
      FirstApart(pending, es);
      PushedInChunks(cap, one.1, es[1..]);
      Regrouped(one.0, more.0, Grouped(more.1));
    }
  }

  // ----- key by key -----

  /** The batches of a chunk hold exactly its events. */
  lemma {:induction false} GroupedAccounts<K(!new), E>(es: seq<(K, E)>, k: K)
    ensures Got(Grouped(es), k) == Sent(es, k)
    decreases |es|
  {
    if es != [] {
      var n := |es| - 1;
      var bs, key, e := Grouped(es[..n]), es[n].0, es[n].1;
      var at := Place(bs, key);
      GroupedAccounts(es[..n], k);
      if at < |bs| {
        GroupedIsOneBatchPerKey(es[..n]);
        forall j | at < j < |bs| ensures bs[j].key != bs[at].key {
          assert First(es[..n], bs[at].key) < First(es[..n], bs[j].key);
        }
        GotExtended(bs, at, e, k);
      } else {
        GotOneMore(bs, Batch(key, [e]), k);
      }
    }
  }

  /** Every event delivered is either pending, behind all others, or was pushed, under its own key and in order. */
  ghost predicate Accounted<K(!new), E>(bs: seq<Batch<K, E>>, delivered: seq<(K, E)>, pending: seq<(K, E)>)
  {
    var n := |delivered| - |pending|;
    n >= 0 && delivered == delivered[..n] + pending && forall k :: Got(bs, k) == Sent(delivered[..n], k)
  }

  /** The handle opens with whatever the consumer was given before; its events count as delivered. */
  lemma {:induction false} AccountOpens<K(!new), E>(bs: seq<Batch<K, E>>)
    ensures Accounted(bs, Unbatched(bs), [])
  {
    var delivered := Unbatched(bs);
    assert delivered[..|delivered|] == delivered;
    forall k ensures Got(bs, k) == Sent(delivered, k) {
      SentUnbatched(bs, k);
    }
  }

  lemma {:induction false} EventAccounted<K(!new), E>(bs: seq<Batch<K, E>>, delivered: seq<(K, E)>, pending: seq<(K, E)>, key: K, e: E)
    requires Accounted(bs, delivered, pending)
    ensures Accounted(bs, delivered + [(key, e)], pending + [(key, e)])
  {
    var n := |delivered| - |pending|;
    assert (delivered + [(key, e)])[..n] == delivered[..n];
  }

  /** A flush accounts for every event delivered so far. */
  lemma {:induction false} PhaseFlushed<K(!new), E>(bs: seq<Batch<K, E>>, delivered: seq<(K, E)>, pending: seq<(K, E)>)
    requires Accounted(bs, delivered, pending)
    ensures Accounted(bs + Grouped(pending), delivered, [])
    ensures forall k :: Got(bs + Grouped(pending), k) == Sent(delivered, k)
  {
    var n := |delivered| - |pending|;
    forall k ensures Got(bs + Grouped(pending), k) == Sent(delivered, k) {
      GotAppend(bs, Grouped(pending), k);
      GroupedAccounts(pending, k);
      SentAppend(delivered[..n], pending, k);
    }
    assert delivered[..|delivered|] == delivered;
  }

  /** With no room for any event the event goes straight to the consumer. */
  lemma {:induction false} PhasePassedOn<K(!new), E>(key: K, e: E, bs: seq<Batch<K, E>>, delivered: seq<(K, E)>)
    requires Accounted(bs, delivered, [])
    ensures Accounted(bs + [Batch(key, [e])], delivered + [(key, e)], [])
  {
    var delivered' := delivered + [(key, e)];
    assert delivered[..|delivered|] == delivered && delivered'[..|delivered'|] == delivered';
    forall k ensures Got(bs + [Batch(key, [e])], k) == Sent(delivered', k) {
      GotOneMore(bs, Batch(key, [e]), k);
      SentOneMore(delivered, key, e, k);
    }
  }

  // ----- the containers of a chunk -----

  /** The containers lie apart in an arena for `cap` events, and have `sz` events. */
  ghost predicate Phase<K, E>(ss: seq<Slot<K>>, mem: seq<E>, used: nat, cap: nat, sz: nat)
  {
    Sound(ss, mem, used) && |mem| == 4 * cap && TotalEvents(ss) == sz <= cap
  }

  /** At rest they hold exactly the batches to be pushed at the next flush. */
  ghost predicate AtRest<K, E>(ss: seq<Slot<K>>, mem: seq<E>, used: nat, cap: nat, sz: nat, groups: seq<Batch<K, E>>)
  {
    Phase(ss, mem, used, cap, sz) && Resting(ss) && Drained(ss, mem) == groups
  }

  /** The container at `at`, which is perhaps a new one, has room for the next event of its key. */
  ghost predicate ReadyFor<K, E>(ss: seq<Slot<K>>, at: nat, mem: seq<E>, used: nat, cap: nat, sz: nat, groups: seq<Batch<K, E>>)
  {
    && Phase(ss, mem, used, cap, sz) && Ready(ss, at)
    && (Drained(ss, mem) == groups || (at == |groups| && Drained(ss, mem) == groups + [Batch(ss[at].key, [])]))
  }

  lemma {:induction false} ReadyHere<K, E>(ss: seq<Slot<K>>, at: nat, mem: seq<E>, used: nat, cap: nat, sz: nat, groups: seq<Batch<K, E>>)
    requires AtRest(ss, mem, used, cap, sz, groups) && at < |ss| && ss[at].c.sz != ss[at].c.cap
    ensures ReadyFor(ss, at, mem, used, cap, sz, groups)
  {
    assert Fitted(ss[at].c);
    Ceil2Below(ss[at].c.sz);
    PushFits(ss[at].c);
  }

  lemma {:induction false} RoomInPhase<K, E>(ss: seq<Slot<K>>, at: nat, mem: seq<E>, used: nat, cap: nat, sz: nat,
                                             groups: seq<Batch<K, E>>)
    requires AtRest(ss, mem, used, cap, sz, groups) && sz < cap && at < |ss| && ss[at].c.sz == ss[at].c.cap
    ensures InSlots(ss[at].c, used) && used + 2 * ss[at].c.cap <= 4 * cap
  {
    RoomForDouble(ss, at, cap);
  }

  lemma {:induction false} ReadyInNew<K, E>(ss: seq<Slot<K>>, key: K, mem: seq<E>, mem': seq<E>, used: nat, cap: nat, sz: nat,
                                            groups: seq<Batch<K, E>>)
    requires AtRest(ss, mem, used, cap, sz, groups) && sz < cap && forall i :: 0 <= i < |ss| ==> ss[i].key != key
    requires |mem'| == |mem| && mem'[..used] == mem[..used]
    ensures ReadyFor(WithKey(ss, key, used), |ss|, mem', used + 1, cap, sz, groups)
  {
    RoomForKey(ss, cap);
    KeyAdded(ss, key, used, mem, mem');
  }

  lemma {:induction false} ReadyInDouble<K, E>(ss: seq<Slot<K>>, at: nat, mem: seq<E>, mem': seq<E>, used: nat, cap: nat, sz: nat,
                                               groups: seq<Batch<K, E>>)
    requires AtRest(ss, mem, used, cap, sz, groups) && sz < cap && at < |ss| && ss[at].c.sz == ss[at].c.cap && InSlots(ss[at].c, used)
    requires |mem'| == |mem| && mem'[..used] == mem[..used]
    requires used + 2 * ss[at].c.cap <= |mem| && mem'[used..used + ss[at].c.sz] == Held(ss[at].c, mem)
    ensures ReadyFor(WithDouble(ss, at, used), at, mem', used + 2 * ss[at].c.cap, cap, sz, groups)
  {
    Doubled(ss, at, used, mem, mem');
  }

  lemma {:induction false} RestsWithEvent<K, E>(ss: seq<Slot<K>>, at: nat, mem: seq<E>, e: E, used: nat, cap: nat, sz: nat,
                                                groups: seq<Batch<K, E>>)
    requires ReadyFor(ss, at, mem, used, cap, sz, groups) && sz < cap
    ensures InSlots(ss[at].c, |mem|)
    ensures AtRest(WithEvent(ss, at), mem[ss[at].c.ptr + ss[at].c.sz := e], used, cap, sz + 1, Joined(groups, ss[at].key, e))
  {
    EventPushed(ss, at, used, mem, e);
    JoinedThere(ss, mem, at, e, groups);
  }

  lemma {:induction false} JoinedThere<K, E>(ss: seq<Slot<K>>, mem: seq<E>, at: nat, e: E, groups: seq<Batch<K, E>>)
    requires Distinct(ss) && at < |ss| && forall i :: 0 <= i < |ss| ==> InSlots(ss[i].c, |mem|)
    requires Drained(ss, mem) == groups || (at == |groups| && Drained(ss, mem) == groups + [Batch(ss[at].key, [])])
    ensures Extended(Drained(ss, mem), at, e) == Joined(groups, ss[at].key, e)
  {
    var bs := Drained(ss, mem);
    assert forall i :: 0 <= i < |bs| ==> bs[i].key == ss[i].key;
    assert forall i :: 0 <= i < |groups| ==> groups[i].key == bs[i].key;
    assert at == |groups| ==> [] + [e] == [e];
  }
}
