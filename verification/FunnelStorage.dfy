/** The key-value funnel on values: the containers of one accumulation phase, what a flush hands to the
    consumer, and how much of the arena the containers take. */
module FunnelStorage {
  import opened PowersOfTwo

  /** `KVEventContainer`; `ptr` is the place of its first event among the event slots of the arena. */
  datatype Container = Container(ptr: nat, sz: nat, cap: nat)

  datatype Slot<K> = Slot(key: K, c: Container)

  /** One `push` to the consumer. */
  datatype Batch<K, E> = Batch(key: K, events: seq<E>)

  // ----- events of one key -----

  /** What `key` received from the pushes, in order. */
  ghost function Got<K, E>(bs: seq<Batch<K, E>>, key: K): seq<E>
  {
    if bs == [] then []
    else Got(bs[..|bs| - 1], key) + if bs[|bs| - 1].key == key then bs[|bs| - 1].events else []
  }

  /** What was delivered for `key`, in order. */
  ghost function Sent<K, E>(delivered: seq<(K, E)>, key: K): seq<E>
  {
    if delivered == [] then []
    else Sent(delivered[..|delivered| - 1], key) + if delivered[|delivered| - 1].0 == key then [delivered[|delivered| - 1].1] else []
  }

  lemma SentOneMore<K, E>(delivered: seq<(K, E)>, k: K, e: E, key: K)
    ensures Sent(delivered + [(k, e)], key) == Sent(delivered, key) + if k == key then [e] else []
  {
    assert (delivered + [(k, e)])[..|delivered|] == delivered;
  }

  lemma {:induction false} SentAppend<K, E>(delivered: seq<(K, E)>, more: seq<(K, E)>, key: K)
    ensures Sent(delivered + more, key) == Sent(delivered, key) + Sent(more, key)
    decreases |more|
  {
    if more == [] {
      assert delivered + more == delivered;
    } else {
      var n := |more| - 1;
      SentAppend(delivered, more[..n], key);
      SentOneMore(delivered + more[..n], more[n].0, more[n].1, key);
      assert delivered + more == delivered + more[..n] + [(more[n].0, more[n].1)];
      var last := if more[n].0 == key then [more[n].1] else [];
      assert Sent(delivered, key) + Sent(more[..n], key) + last == Sent(delivered, key) + (Sent(more[..n], key) + last);
    }
  }

  /** The events of pushes made before, one by one. */
  ghost function Unbatched<K, E>(bs: seq<Batch<K, E>>): seq<(K, E)>
  {
    if bs == [] then [] else Unbatched(bs[..|bs| - 1]) + Tagged(bs[|bs| - 1].key, bs[|bs| - 1].events)
  }

  ghost function Tagged<K, E>(key: K, events: seq<E>): seq<(K, E)>
  {
    if events == [] then [] else Tagged(key, events[..|events| - 1]) + [(key, events[|events| - 1])]
  }

  lemma {:induction false} SentTagged<K, E>(key: K, events: seq<E>, k: K)
    ensures Sent(Tagged(key, events), k) == if key == k then events else []
    decreases |events|
  {
    if events != [] {
      var n := |events| - 1;
      SentTagged(key, events[..n], k);
      SentOneMore(Tagged(key, events[..n]), key, events[n], k);
      assert events == events[..n] + [events[n]];
    }
  }

  lemma {:induction false} SentUnbatched<K, E>(bs: seq<Batch<K, E>>, k: K)
    ensures Sent(Unbatched(bs), k) == Got(bs, k)
    decreases |bs|
  {
    if bs != [] {
      var before, b := bs[..|bs| - 1], bs[|bs| - 1];
      SentUnbatched(before, k);
      SentTagged(b.key, b.events, k);
      SentAppend(Unbatched(before), Tagged(b.key, b.events), k);
    }
  }

  lemma GotOneMore<K, E>(bs: seq<Batch<K, E>>, b: Batch<K, E>, key: K)
    ensures Got(bs + [b], key) == Got(bs, key) + if b.key == key then b.events else []
  {
    assert (bs + [b])[..|bs|] == bs;
  }

  lemma {:induction false} GotAppend<K, E>(bs: seq<Batch<K, E>>, cs: seq<Batch<K, E>>, key: K)
    ensures Got(bs + cs, key) == Got(bs, key) + Got(cs, key)
    decreases |cs|
  {
    if cs == [] {
      assert bs + cs == bs;
    } else {
      var n := |cs| - 1;
      GotAppend(bs, cs[..n], key);
      assert (bs + cs)[..|bs + cs| - 1] == bs + cs[..n];
      var last := if cs[n].key == key then cs[n].events else [];
      assert Got(bs, key) + (Got(cs[..n], key) + last) == (Got(bs, key) + Got(cs[..n], key)) + last;
    }
  }

  /** One event more at the end of the batch at `at`. */
  ghost function Extended<K, E>(bs: seq<Batch<K, E>>, at: nat, e: E): seq<Batch<K, E>>
    requires at < |bs|
  {
    bs[at := Batch(bs[at].key, bs[at].events + [e])]
  }

  /** Where that is the last batch of its key. */
  lemma {:induction false} GotExtended<K, E>(bs: seq<Batch<K, E>>, at: nat, e: E, key: K)
    requires at < |bs| && forall j :: at < j < |bs| ==> bs[j].key != bs[at].key
    ensures Got(Extended(bs, at, e), key) == Got(bs, key) + if bs[at].key == key then [e] else []
    decreases |bs|
  {
    var n := |bs| - 1;
    var bs' := Extended(bs, at, e);
    if at == n {
      assert bs'[..n] == bs[..n];
    } else {
      GotExtended(bs[..n], at, e, key);
      assert bs'[..n] == Extended(bs[..n], at, e);
    }
  }

  // ----- the layout of the containers -----

  predicate InSlots(c: Container, n: nat)
  {
    c.sz <= c.cap && c.ptr + c.cap <= n
  }

  predicate Disjoint(c: Container, d: Container)
  {
    c.ptr + c.cap <= d.ptr || d.ptr + d.cap <= c.ptr
  }

  /** Every container lies below `used` and no two share an event slot. */
  ghost predicate Placed<K>(ss: seq<Slot<K>>, used: nat)
  {
    && (forall i :: 0 <= i < |ss| ==> InSlots(ss[i].c, used))
    && (forall i, j :: 0 <= i < j < |ss| ==> Disjoint(ss[i].c, ss[j].c))
  }

  ghost predicate Distinct<K>(ss: seq<Slot<K>>)
  {
    forall i, j :: 0 <= i < j < |ss| ==> ss[i].key != ss[j].key
  }

  /** A container at rest: doubled from one just until its events fit. */
  ghost predicate Fitted(c: Container)
  {
    c.sz > 0 && c.cap == Ceil2(c.sz)
  }

  /** The events a flush pushes, one batch per key in storage order. */
  ghost function Drained<K, E>(ss: seq<Slot<K>>, mem: seq<E>): (bs: seq<Batch<K, E>>)
    requires forall i :: 0 <= i < |ss| ==> InSlots(ss[i].c, |mem|)
    ensures |bs| == |ss| && forall i {:trigger bs[i]} :: 0 <= i < |bs| ==> bs[i] == Batch(ss[i].key, Held(ss[i].c, mem))
  {
    seq(|ss|, i requires 0 <= i < |ss| => Batch(ss[i].key, Held(ss[i].c, mem)))
  }

  ghost function Held<E>(c: Container, mem: seq<E>): seq<E>
    requires InSlots(c, |mem|)
  {
    mem[c.ptr..c.ptr + c.sz]
  }

  // ----- how much the containers take -----

  /** The arena slots ever taken for a container of capacity `cap`: `1 + 2 + ... + cap`. */
  function Taken(cap: nat): int { 2 * cap - 1 }

  ghost function TotalTaken<K>(ss: seq<Slot<K>>): int
  {
    if ss == [] then 0 else TotalTaken(ss[..|ss| - 1]) + Taken(ss[|ss| - 1].c.cap)
  }

  ghost function TotalEvents<K>(ss: seq<Slot<K>>): nat
  {
    if ss == [] then 0 else TotalEvents(ss[..|ss| - 1]) + ss[|ss| - 1].c.sz
  }

  lemma TotalsOneMore<K>(ss: seq<Slot<K>>, s: Slot<K>)
    ensures TotalTaken(ss + [s]) == TotalTaken(ss) + Taken(s.c.cap)
    ensures TotalEvents(ss + [s]) == TotalEvents(ss) + s.c.sz
  {
    assert (ss + [s])[..|ss|] == ss;
  }

  lemma {:induction false} TotalsReplaced<K>(ss: seq<Slot<K>>, at: nat, s: Slot<K>)
    requires at < |ss|
    ensures TotalTaken(ss[at := s]) == TotalTaken(ss) - Taken(ss[at].c.cap) + Taken(s.c.cap)
    ensures TotalEvents(ss[at := s]) == TotalEvents(ss) - ss[at].c.sz + s.c.sz
    decreases |ss|
  {
    var n := |ss| - 1;
    if at == n {
      assert ss[at := s][..n] == ss[..n];
    } else {
      TotalsReplaced(ss[..n], at, s);
      assert ss[at := s][..n] == ss[..n][at := s];
    }
  }

  lemma Ceil2Below(n: nat)
    requires n > 0
    ensures n <= Ceil2(n) < 2 * n
  {
    Ceil2Least(1, Pow2(0));
  }

  /** Pushing keeps a container at rest: into a fresh one, into one with room, or into one just doubled. */
  lemma PushFits(c: Container)
    requires (c.sz == 0 && c.cap == 1) || (Fitted(c) && c.sz < c.cap)
    ensures Ceil2(c.sz + 1) == c.cap
  {
    Ceil2Below(c.sz + 1);
    if c.sz > 0 {
      Ceil2Least(c.sz + 1, c.cap);
      Ceil2Least(c.sz, Ceil2(c.sz + 1));
    }
  }

  lemma DoubleFits(c: Container)
    requires Fitted(c) && c.sz == c.cap
    ensures Ceil2(c.sz + 1) == 2 * c.cap
  {
    Pow2Doubles(c.cap);
    Ceil2Least(c.sz + 1, 2 * c.cap);
    var m: nat :| c.cap == Pow2(m);
    var n: nat :| Ceil2(c.sz + 1) == Pow2(n);
    if n <= m {
      Pow2Monotone(n, m);
    } else {
      Pow2Monotone(m, n);
    }
  }

  /** Containers at rest take at most four slots an event, less three a key. */
  lemma {:induction false} TakenByRest<K>(ss: seq<Slot<K>>)
    requires forall i :: 0 <= i < |ss| ==> Fitted(ss[i].c)
    ensures TotalTaken(ss) <= 4 * TotalEvents(ss) - 3 * |ss|
    ensures |ss| <= TotalEvents(ss)
  {
    if ss != [] {
      var n := |ss| - 1;
      TakenByRest(ss[..n]);
      assert Fitted(ss[n].c);
      Ceil2Below(ss[n].c.sz);
    }
  }

  /** A first container for one more key fits before the last event of the phase. */
  lemma RoomForKey<K>(ss: seq<Slot<K>>, deliverableCap: nat)
    requires forall i :: 0 <= i < |ss| ==> Fitted(ss[i].c)
    requires TotalEvents(ss) < deliverableCap
    ensures TotalTaken(ss) + Taken(1) <= 4 * deliverableCap
    ensures |ss| + 1 <= deliverableCap
  {
    TakenByRest(ss);
  }

  /** Doubling a full container fits before the last event of the phase. */
  lemma RoomForDouble<K>(ss: seq<Slot<K>>, at: nat, deliverableCap: nat)
    requires forall i :: 0 <= i < |ss| ==> Fitted(ss[i].c)
    requires at < |ss| && ss[at].c.sz == ss[at].c.cap
    requires TotalEvents(ss) < deliverableCap
    ensures TotalTaken(ss) + 2 * ss[at].c.cap <= 4 * deliverableCap
  {
    var sz := ss[at].c.sz;
    var rest := ss[at := ss[at].(c := Container(0, 1, 1))];
    TotalsReplaced(ss, at, rest[at]);
    Ceil2Below(1);
    assert forall i :: 0 <= i < |rest| ==> Fitted(rest[i].c);
    TakenByRest(rest);
  }

  // ----- one phase, step by step -----

  ghost predicate Resting<K>(ss: seq<Slot<K>>)
  {
    forall i :: 0 <= i < |ss| ==> Fitted(ss[i].c)
  }

  /** The arena below `used` is exactly what the containers took. */
  ghost predicate Sound<K, E>(ss: seq<Slot<K>>, mem: seq<E>, used: nat)
  {
    used <= |mem| && Placed(ss, used) && Distinct(ss) && TotalTaken(ss) == used
  }

  /** All at rest but `at`, which has room for one more event and then is at rest. */
  ghost predicate Ready<K>(ss: seq<Slot<K>>, at: nat)
  {
    && at < |ss|
    && ss[at].c.sz < ss[at].c.cap == Ceil2(ss[at].c.sz + 1)
    && forall i :: 0 <= i < |ss| && i != at ==> Fitted(ss[i].c)
  }

  function WithKey<K>(ss: seq<Slot<K>>, key: K, used: nat): seq<Slot<K>>
  {
    ss + [Slot(key, Container(used, 0, 1))]
  }

  lemma {:induction false} KeyDrained<K, E>(ss: seq<Slot<K>>, key: K, used: nat, mem: seq<E>, mem': seq<E>)
    requires Placed(ss, used) && used < |mem| == |mem'| && mem'[..used] == mem[..used]
    ensures Placed(WithKey(ss, key, used), used + 1)
    ensures Drained(WithKey(ss, key, used), mem') == Drained(ss, mem) + [Batch(key, [])]
  {
    SameHeld(ss, used, mem, mem');
    var ss' := WithKey(ss, key, used);
    forall i | 0 <= i <= |ss| ensures InSlots(ss'[i].c, used + 1) {
      assert i < |ss| ==> InSlots(ss[i].c, used);
    }
    assert Held(ss'[|ss|].c, mem') == [];
  }

  /** A fresh container shares no slot, and what is pending in the others stays. */
  lemma {:induction false} KeyAdded<K, E>(ss: seq<Slot<K>>, key: K, used: nat, mem: seq<E>, mem': seq<E>)
    requires Sound(ss, mem, used) && Resting(ss) && forall i :: 0 <= i < |ss| ==> ss[i].key != key
    requires |mem'| == |mem| && mem'[..used] == mem[..used] && used < |mem|
    ensures Sound(WithKey(ss, key, used), mem', used + 1) && Ready(WithKey(ss, key, used), |ss|)
    ensures TotalEvents(WithKey(ss, key, used)) == TotalEvents(ss)
    ensures Drained(WithKey(ss, key, used), mem') == Drained(ss, mem) + [Batch(key, [])]
  {
    var s := Slot(key, Container(used, 0, 1));
    TotalsOneMore(ss, s);
    PushFits(s.c);
    KeyDrained(ss, key, used, mem, mem');
  }

  /** Containers below `used` do not see writes at or above it. */
  lemma {:induction false} SameHeld<K, E>(ss: seq<Slot<K>>, used: nat, mem: seq<E>, mem': seq<E>)
    requires |mem'| == |mem| && used <= |mem| && mem'[..used] == mem[..used]
    requires forall i :: 0 <= i < |ss| ==> InSlots(ss[i].c, used)
    ensures forall i :: 0 <= i < |ss| ==> InSlots(ss[i].c, used) && Held(ss[i].c, mem') == Held(ss[i].c, mem)
  {
    forall i | 0 <= i < |ss| ensures InSlots(ss[i].c, used) && Held(ss[i].c, mem') == Held(ss[i].c, mem) {
      var c := ss[i].c;
      assert mem[c.ptr..c.ptr + c.sz] == mem[..used][c.ptr..c.ptr + c.sz];
      assert mem'[c.ptr..c.ptr + c.sz] == mem'[..used][c.ptr..c.ptr + c.sz];
    }
  }

  function WithDouble<K>(ss: seq<Slot<K>>, at: nat, used: nat): seq<Slot<K>>
    requires at < |ss|
  {
    ss[at := Slot(ss[at].key, Container(used, ss[at].c.sz, 2 * ss[at].c.cap))]
  }

  lemma {:induction false} DoublePlaced<K>(ss: seq<Slot<K>>, at: nat, used: nat)
    requires Placed(ss, used) && at < |ss| && ss[at].c.sz <= ss[at].c.cap
    ensures Placed(WithDouble(ss, at, used), used + 2 * ss[at].c.cap)
  {
    var ss' := WithDouble(ss, at, used);
    forall i | 0 <= i < |ss| ensures InSlots(ss'[i].c, used + 2 * ss[at].c.cap) {
      assert InSlots(ss[i].c, used);
    }
    forall i, j | 0 <= i < j < |ss| ensures Disjoint(ss'[i].c, ss'[j].c) {
      assert InSlots(ss[i].c, used) && InSlots(ss[j].c, used) && Disjoint(ss[i].c, ss[j].c);
    }
  }

  lemma {:induction false} DoubleDrained<K, E>(ss: seq<Slot<K>>, at: nat, used: nat, mem: seq<E>, mem': seq<E>)
    requires Placed(ss, used) && at < |ss| && used + 2 * ss[at].c.cap <= |mem| == |mem'| && mem'[..used] == mem[..used]
    requires InSlots(ss[at].c, used) && mem'[used..used + ss[at].c.sz] == Held(ss[at].c, mem)
    ensures Placed(WithDouble(ss, at, used), used + 2 * ss[at].c.cap)
    ensures Drained(WithDouble(ss, at, used), mem') == Drained(ss, mem)
  {
    var ss' := WithDouble(ss, at, used);
    DoublePlaced(ss, at, used);
    SameHeld(ss, used, mem, mem');
    forall i | 0 <= i < |ss| ensures Held(ss'[i].c, mem') == Held(ss[i].c, mem) {
      assert InSlots(ss[i].c, used) && InSlots(ss'[i].c, used + 2 * ss[at].c.cap);
    }
  }

  /** Growth moves a key's events without changing what is pending. */
  lemma {:induction false} Doubled<K, E>(ss: seq<Slot<K>>, at: nat, used: nat, mem: seq<E>, mem': seq<E>)
    requires Sound(ss, mem, used) && Resting(ss) && at < |ss| && ss[at].c.sz == ss[at].c.cap
    requires |mem'| == |mem| && used + 2 * ss[at].c.cap <= |mem| && mem'[..used] == mem[..used]
    requires InSlots(ss[at].c, used) && mem'[used..used + ss[at].c.sz] == Held(ss[at].c, mem)
    ensures Sound(WithDouble(ss, at, used), mem', used + 2 * ss[at].c.cap) && Ready(WithDouble(ss, at, used), at)
    ensures TotalEvents(WithDouble(ss, at, used)) == TotalEvents(ss)
    ensures Drained(WithDouble(ss, at, used), mem') == Drained(ss, mem)
  {
    var ss' := WithDouble(ss, at, used);
    TotalsReplaced(ss, at, ss'[at]);
    assert Fitted(ss[at].c);
    DoubleFits(ss[at].c);
    DoubleDrained(ss, at, used, mem, mem');
    forall i | 0 <= i < |ss| && i != at ensures Fitted(ss'[i].c) {
      assert Fitted(ss[i].c);
    }
  }

  function WithEvent<K>(ss: seq<Slot<K>>, at: nat): seq<Slot<K>>
    requires at < |ss|
  {
    ss[at := Slot(ss[at].key, Container(ss[at].c.ptr, ss[at].c.sz + 1, ss[at].c.cap))]
  }

  lemma {:induction false} EventWritten<K, E>(ss: seq<Slot<K>>, at: nat, used: nat, mem: seq<E>, e: E)
    requires used <= |mem| && Placed(ss, used) && at < |ss| && ss[at].c.sz < ss[at].c.cap
    ensures Placed(WithEvent(ss, at), used)
    ensures ss[at].c.ptr + ss[at].c.sz < |mem|
    ensures forall i :: 0 <= i < |ss| ==> InSlots(ss[i].c, used) && InSlots(WithEvent(ss, at)[i].c, used)
    ensures var mem' := mem[ss[at].c.ptr + ss[at].c.sz := e];
      forall i :: 0 <= i < |ss| ==>
        Held(WithEvent(ss, at)[i].c, mem') == Held(ss[i].c, mem) + if i == at then [e] else []
  {
    var c := ss[at].c;
    assert InSlots(c, used);
    var ss', mem' := WithEvent(ss, at), mem[c.ptr + c.sz := e];
    forall i | 0 <= i < |ss|
      ensures InSlots(ss[i].c, used) && InSlots(ss'[i].c, used)
      ensures Held(ss'[i].c, mem') == Held(ss[i].c, mem) + if i == at then [e] else []
    {
      var d := ss[i].c;
      assert i != at ==> Disjoint(d, c) || Disjoint(c, d);
    }
    forall i, j | 0 <= i < j < |ss| ensures Disjoint(ss'[i].c, ss'[j].c) {
      assert Disjoint(ss[i].c, ss[j].c);
    }
  }

  lemma {:induction false} EventDrained<K, E>(ss: seq<Slot<K>>, at: nat, used: nat, mem: seq<E>, e: E)
    requires used <= |mem| && Placed(ss, used) && at < |ss| && ss[at].c.sz < ss[at].c.cap
    ensures Placed(WithEvent(ss, at), used) && InSlots(ss[at].c, used)
    ensures Drained(WithEvent(ss, at), mem[ss[at].c.ptr + ss[at].c.sz := e]) == Extended(Drained(ss, mem), at, e)
  {
    EventWritten(ss, at, used, mem, e);
  }

  /** One event more pending for its key, none for others. */
  lemma {:induction false} EventPushed<K, E>(ss: seq<Slot<K>>, at: nat, used: nat, mem: seq<E>, e: E)
    requires Sound(ss, mem, used) && Ready(ss, at)
    ensures InSlots(ss[at].c, used)
    ensures Sound(WithEvent(ss, at), mem[ss[at].c.ptr + ss[at].c.sz := e], used) && Resting(WithEvent(ss, at))
    ensures TotalEvents(WithEvent(ss, at)) == TotalEvents(ss) + 1
    ensures Drained(WithEvent(ss, at), mem[ss[at].c.ptr + ss[at].c.sz := e]) == Extended(Drained(ss, mem), at, e)
  {
    EventDrained(ss, at, used, mem, e);
    var ss' := WithEvent(ss, at);
    TotalsReplaced(ss, at, ss'[at]);
    forall i | 0 <= i < |ss| ensures Fitted(ss'[i].c) {
      assert i != at ==> Fitted(ss[i].c);
    }
  }
}
