/** The blocking bounded queue, one critical section at a time: the steps, what every run keeps, order and poison. */
module QueueSteps {
  import opened Options

  /** A pushed value and the number of its push; calls are numbered in the order of their critical sections. */
  datatype Item<T> = Item(id: nat, value: T)

  datatype Place = Buffered | Parked | Given(popper: nat)

  /** The queue's fields, and what the calls so far came to: the pushes accepted and where their items are, the
      slots of the poppers that have their answer, the calls told to wait, and the calls woken up. */
  datatype Queue<T> = Queue(work: seq<Item<T>>, cap: nat, waiting: seq<nat>, pushing: seq<Item<T>>, poisoned: bool,
                            clock: nat, accepted: map<nat, T>, place: map<nat, Place>,
                            slots: map<nat, Option<Item<T>>>, blocked: set<nat>, released: set<nat>)

  datatype Op<T> = Push(value: T) | Pop | Poison

  function Fresh<T>(cap: nat): Queue<T>
  {
    Queue([], cap, [], [], false, 0, map[], map[], map[], {}, {})
  }

  // ----- the critical sections -----

  function Pushed<T>(q: Queue<T>, value: T): Queue<T>
  {
    var item := Item(q.clock, value);
    if q.poisoned then q.(clock := q.clock + 1)
    else if q.waiting != [] then
      var w := q.waiting[0];
      q.(waiting := q.waiting[1..], slots := q.slots[w := Some(item)], released := q.released + {w},
         accepted := q.accepted[q.clock := value], place := q.place[q.clock := Given(w)], clock := q.clock + 1)
    else if |q.work| == q.cap then
      q.(pushing := q.pushing + [item], blocked := q.blocked + {q.clock},
         accepted := q.accepted[q.clock := value], place := q.place[q.clock := Parked], clock := q.clock + 1)
    else
      q.(work := q.work + [item], accepted := q.accepted[q.clock := value], place := q.place[q.clock := Buffered], clock := q.clock + 1)
  }

  function Popped<T>(q: Queue<T>): Queue<T>
  {
    if q.poisoned then q.(slots := q.slots[q.clock := None], clock := q.clock + 1)
    else if q.pushing != [] then
      var item := q.pushing[0];
      q.(pushing := q.pushing[1..], released := q.released + {item.id}, slots := q.slots[q.clock := Some(item)],
         place := q.place[item.id := Given(q.clock)], clock := q.clock + 1)
    else if q.work != [] then
      var item := q.work[0];
      q.(work := q.work[1..], slots := q.slots[q.clock := Some(item)], place := q.place[item.id := Given(q.clock)], clock := q.clock + 1)
    else q.(waiting := q.waiting + [q.clock], blocked := q.blocked + {q.clock}, clock := q.clock + 1)
  }

  function Ids<T>(items: seq<Item<T>>): set<nat>
  {
    set k | 0 <= k < |items| :: items[k].id
  }

  function Members(vs: seq<nat>): set<nat>
  {
    set v | v in vs
  }

  function AnsweredNone<T>(slots: map<nat, Option<Item<T>>>, waiting: seq<nat>): map<nat, Option<Item<T>>>
  {
    map w | w in slots.Keys + Members(waiting) :: if w in waiting then None else slots[w]
  }

  /** The lists are not emptied; everybody in them is woken, the poppers with nothing. */
  function Poisoned<T>(q: Queue<T>): Queue<T>
  {
    q.(slots := AnsweredNone(q.slots, q.waiting), released := q.released + Members(q.waiting) + Ids(q.pushing),
       poisoned := true, clock := q.clock + 1)
  }

  function Step<T>(q: Queue<T>, op: Op<T>): Queue<T>
  {
    match op
    case Push(value) => Pushed(q, value)
    case Pop => Popped(q)
    case Poison => Poisoned(q)
  }

  // ----- the invariant -----

  ghost predicate Increasing<T>(items: seq<Item<T>>, below: nat)
  {
    && (forall i, j :: 0 <= i < j < |items| ==> items[i].id < items[j].id)
    && (forall i :: 0 <= i < |items| ==> items[i].id < below)
  }

  /** The items of a list are exactly the accepted ones whose place it is, with their values. */
  ghost predicate KeptAt<T>(items: seq<Item<T>>, place: map<nat, Place>, accepted: map<nat, T>, l: Place)
  {
    && (forall k :: 0 <= k < |items| ==>
         items[k].id in place && place[items[k].id] == l && items[k].id in accepted && items[k].value == accepted[items[k].id])
    && (forall p :: p in place && place[p] == l ==> p in Ids(items))
  }

  /** The items given away are exactly those in the slots of the poppers they were given to. */
  ghost predicate KeptInSlots<T>(slots: map<nat, Option<Item<T>>>, place: map<nat, Place>, accepted: map<nat, T>)
  {
    && (forall w :: w in slots && slots[w].Some? ==>
         var i := slots[w].value; i.id in place && place[i.id] == Given(w) && i.id in accepted && i.value == accepted[i.id])
    && (forall p :: p in place && place[p].Given? ==>
         place[p].popper in slots && slots[place[p].popper].Some? && slots[place[p].popper].value.id == p)
  }

  /** Every accepted item is in exactly one place: the buffer, the parked pushers, or one popper's slot. */
  ghost predicate Kept<T>(q: Queue<T>)
  {
    && q.place.Keys == q.accepted.Keys
    && KeptAt(q.work, q.place, q.accepted, Buffered)
    && KeptAt(q.pushing, q.place, q.accepted, Parked)
    && KeptInSlots(q.slots, q.place, q.accepted)
  }

  /** Arrival order in both lists of items, with the parked ones behind the buffered ones. */
  ghost predicate ItemsOrdered<T>(q: Queue<T>)
  {
    && Increasing(q.work, q.clock) && Increasing(q.pushing, q.clock)
    && (forall i, j :: 0 <= i < |q.work| && 0 <= j < |q.pushing| ==> q.work[i].id < q.pushing[j].id)
  }

  /** Arrival order of the waiting poppers; all calls so far have their numbers. */
  ghost predicate CallsOrdered<T>(q: Queue<T>)
  {
    && (forall i, j :: 0 <= i < j < |q.waiting| ==> q.waiting[i] < q.waiting[j])
    && (forall i :: 0 <= i < |q.waiting| ==> q.waiting[i] < q.clock)
    && (forall p :: p in q.accepted ==> p < q.clock)
    && (forall w :: w in q.slots ==> w < q.clock)
  }

  ghost predicate Ordered<T>(q: Queue<T>)
  {
    ItemsOrdered(q) && CallsOrdered(q)
  }

  /** Poppers wait only on an empty queue, pushers are parked only behind a full buffer. */
  ghost predicate Shaped<T>(q: Queue<T>)
  {
    |q.work| <= q.cap && (q.waiting != [] ==> q.work == [] && q.pushing == []) && (q.pushing != [] ==> |q.work| == q.cap)
  }

  /** The calls that were told to wait and have not been woken are exactly those in the lists; they have no answer. */
  ghost predicate Blocking<T>(q: Queue<T>)
  {
    && q.released <= q.blocked && q.blocked - q.released == Members(q.waiting) + Ids(q.pushing)
    && (forall b :: b in q.blocked ==> b < q.clock)
    && (forall w :: w in q.waiting ==> w !in q.slots)
  }

  ghost predicate Sound<T>(q: Queue<T>)
  {
    !q.poisoned && Ordered(q) && Shaped(q) && Kept(q) && Blocking(q)
  }

  // ----- one list at a time -----

  lemma {:induction false} KeptElsewhere<T>(items: seq<Item<T>>, place: map<nat, Place>, accepted: map<nat, T>, l: Place,
                                            p: nat, to: Place, value: T)
    requires KeptAt(items, place, accepted, l) && to != l && (p in place ==> place[p] != l)
    ensures KeptAt(items, place[p := to], accepted[p := value], l)
  {}

  lemma {:induction false} KeptAppended<T>(items: seq<Item<T>>, place: map<nat, Place>, accepted: map<nat, T>, l: Place, item: Item<T>)
    requires KeptAt(items, place, accepted, l) && item.id !in place
    ensures KeptAt(items + [item], place[item.id := l], accepted[item.id := item.value], l)
  {
    var items' := items + [item];
    assert items'[|items|] == item;
    forall p | p in Ids(items) ensures p in Ids(items') {
      var k :| 0 <= k < |items| && items[k].id == p;
      assert items'[k].id == p;
    }
    assert item.id in Ids(items');
  }

  lemma {:induction false} KeptFrontGone<T>(items: seq<Item<T>>, place: map<nat, Place>, accepted: map<nat, T>, l: Place, to: Place, below: nat)
    requires KeptAt(items, place, accepted, l) && items != [] && Increasing(items, below) && to != l
    ensures KeptAt(items[1..], place[items[0].id := to], accepted, l)
  {
    forall p | p in Ids(items) && p != items[0].id ensures p in Ids(items[1..]) {
      var k :| 0 <= k < |items| && items[k].id == p;
      assert items[1..][k - 1].id == p;
    }
  }

  lemma {:induction false} GivenAway<T>(slots: map<nat, Option<Item<T>>>, place: map<nat, Place>, accepted: map<nat, T>, w: nat, item: Item<T>)
    requires KeptInSlots(slots, place, accepted) && w !in slots && (item.id in place ==> !place[item.id].Given?)
    ensures KeptInSlots(slots[w := Some(item)], place[item.id := Given(w)], accepted[item.id := item.value])
  {}

  lemma {:induction false} GivenElsewhere<T>(slots: map<nat, Option<Item<T>>>, place: map<nat, Place>, accepted: map<nat, T>,
                                             p: nat, to: Place, value: T)
    requires KeptInSlots(slots, place, accepted) && !to.Given? && (p in place ==> !place[p].Given?)
    ensures KeptInSlots(slots, place[p := to], accepted[p := value])
  {}

  lemma {:induction false} FrontGone<T>(items: seq<Item<T>>, below: nat)
    requires Increasing(items, below) && items != []
    ensures Increasing(items[1..], below + 1)
    ensures forall k :: 0 <= k < |items| - 1 ==> items[1..][k].id > items[0].id
  {}

  // ----- the critical sections keep the invariant -----

  lemma {:induction false} PushKeeps<T>(q: Queue<T>, value: T)
    requires Sound(q)
    ensures Kept(Pushed(q, value))
  {
    var item := Item(q.clock, value);
    if q.waiting != [] {
      KeptElsewhere(q.work, q.place, q.accepted, Buffered, q.clock, Given(q.waiting[0]), value);
      KeptElsewhere(q.pushing, q.place, q.accepted, Parked, q.clock, Given(q.waiting[0]), value);
      assert q.waiting[0] in q.waiting;
      GivenAway(q.slots, q.place, q.accepted, q.waiting[0], item);
    } else if |q.work| == q.cap {
      KeptElsewhere(q.work, q.place, q.accepted, Buffered, q.clock, Parked, value);
      KeptAppended(q.pushing, q.place, q.accepted, Parked, item);
      GivenElsewhere(q.slots, q.place, q.accepted, q.clock, Parked, value);
    } else {
      KeptAppended(q.work, q.place, q.accepted, Buffered, item);
      KeptElsewhere(q.pushing, q.place, q.accepted, Parked, q.clock, Buffered, value);
      GivenElsewhere(q.slots, q.place, q.accepted, q.clock, Buffered, value);
    }
  }

  lemma {:induction false} PopParkedKeeps<T>(q: Queue<T>)
    requires Sound(q) && q.pushing != []
    ensures Kept(Popped(q))
  {
    var item := q.pushing[0];
    SameValue(q.accepted, item);
    KeptElsewhere(q.work, q.place, q.accepted, Buffered, item.id, Given(q.clock), item.value);
    KeptFrontGone(q.pushing, q.place, q.accepted, Parked, Given(q.clock), q.clock);
    GivenAway(q.slots, q.place, q.accepted, q.clock, item);
  }

  lemma {:induction false} PopBufferedKeeps<T>(q: Queue<T>)
    requires Sound(q) && q.pushing == [] && q.work != []
    ensures Kept(Popped(q))
  {
    var item := q.work[0];
    SameValue(q.accepted, item);
    KeptFrontGone(q.work, q.place, q.accepted, Buffered, Given(q.clock), q.clock);
    KeptElsewhere(q.pushing, q.place, q.accepted, Parked, item.id, Given(q.clock), item.value);
    GivenAway(q.slots, q.place, q.accepted, q.clock, item);
  }

  lemma {:induction false} PopKeeps<T>(q: Queue<T>)
    requires Sound(q)
    ensures Kept(Popped(q))
  {
    if q.pushing != [] {
      PopParkedKeeps(q);
    } else if q.work != [] {
      PopBufferedKeeps(q);
    }
  }

  lemma SameValue<T>(accepted: map<nat, T>, item: Item<T>)
    requires item.id in accepted && accepted[item.id] == item.value
    ensures accepted[item.id := item.value] == accepted
  {}

  lemma {:induction false} PushShapes<T>(q: Queue<T>, value: T)
    requires !q.poisoned && Shaped(q)
    ensures Shaped(Pushed(q, value))
  {}

  lemma {:induction false} PushOrders<T>(q: Queue<T>, value: T)
    requires !q.poisoned && Ordered(q) && Shaped(q)
    ensures Ordered(Pushed(q, value))
  {
    PushOrdersItems(q, value);
    PushOrdersCalls(q, value);
  }

  lemma {:induction false} PushOrdersItems<T>(q: Queue<T>, value: T)
    requires !q.poisoned && ItemsOrdered(q) && Shaped(q)
    ensures ItemsOrdered(Pushed(q, value))
  {
    IncreasingAppended(q.work, q.clock, value);
    IncreasingAppended(q.pushing, q.clock, value);
  }

  lemma {:induction false} PushOrdersCalls<T>(q: Queue<T>, value: T)
    requires !q.poisoned && CallsOrdered(q)
    ensures CallsOrdered(Pushed(q, value))
  {}

  lemma {:induction false} IncreasingAppended<T>(items: seq<Item<T>>, below: nat, value: T)
    requires Increasing(items, below)
    ensures Increasing(items, below + 1) && Increasing(items + [Item(below, value)], below + 1)
  {}

  lemma {:induction false} MembersFrontGone(vs: seq<nat>)
    requires vs != [] && forall i, j :: 0 <= i < j < |vs| ==> vs[i] < vs[j]
    ensures vs[0] in Members(vs) && Members(vs[1..]) == Members(vs) - {vs[0]}
  {
    forall v ensures v in vs[1..] <==> v in vs && v != vs[0] {
      assert vs == [vs[0]] + vs[1..];
    }
  }

  lemma {:induction false} IdsFrontGone<T>(items: seq<Item<T>>, below: nat)
    requires items != [] && Increasing(items, below)
    ensures items[0].id in Ids(items) && Ids(items[1..]) == Ids(items) - {items[0].id}
  {
    var rest := items[1..];
    forall p ensures p in Ids(rest) <==> p in Ids(items) && p != items[0].id {
      if p in Ids(items) && p != items[0].id {
        var k :| 0 <= k < |items| && items[k].id == p;
        assert rest[k - 1].id == p;
      }
    }
  }

  lemma {:induction false} ItemAppended<T>(items: seq<Item<T>>, item: Item<T>)
    ensures Ids(items + [item]) == Ids(items) + {item.id}
  {
    var items' := items + [item];
    IdsOneMore(items', |items|);
    assert items'[..|items| + 1] == items' && items'[..|items|] == items;
  }

  lemma {:induction false} CallAppended(vs: seq<nat>, v: nat)
    ensures Members(vs + [v]) == Members(vs) + {v}
  {}

  lemma {:induction false} PushBlocks<T>(q: Queue<T>, value: T)
    requires !q.poisoned && Ordered(q) && Shaped(q) && Blocking(q)
    ensures Blocking(Pushed(q, value))
  {
    if q.waiting != [] {
      MembersFrontGone(q.waiting);
      var q' := Pushed(q, value);
      assert q.waiting[0] in Members(q.waiting) + Ids(q.pushing);
      assert q'.blocked - q'.released == Members(q'.waiting) + Ids(q'.pushing);
    } else if |q.work| == q.cap {
      ItemAppended(q.pushing, Item(q.clock, value));
    }
  }

  lemma {:induction false} PopOrders<T>(q: Queue<T>)
    requires !q.poisoned && Ordered(q) && Shaped(q)
    ensures Ordered(Popped(q)) && Shaped(Popped(q))
  {
    if q.pushing != [] {
      FrontGone(q.pushing, q.clock);
    } else if q.work != [] {
      FrontGone(q.work, q.clock);
    }
  }

  lemma {:induction false} PopBlocks<T>(q: Queue<T>)
    requires !q.poisoned && Ordered(q) && Shaped(q) && Blocking(q)
    ensures Blocking(Popped(q))
  {
    var q' := Popped(q);
    if q.pushing != [] {
      IdsFrontGone(q.pushing, q.clock);
      assert q.pushing[0].id in Members(q.waiting) + Ids(q.pushing);
      assert q'.blocked - q'.released == Members(q'.waiting) + Ids(q'.pushing);
    } else if q.work == [] {
      CallAppended(q.waiting, q.clock);
      assert q'.blocked - q'.released == Members(q'.waiting) + Ids(q'.pushing);
    }
  }

  lemma {:induction false} StepIsSound<T>(q: Queue<T>, op: Op<T>)
    requires Sound(q) && !op.Poison?
    ensures Sound(Step(q, op))
  {
    match op
    case Push(value) =>
      PushKeeps(q, value);
      PushOrders(q, value);
      PushShapes(q, value);
      PushBlocks(q, value);
    case Pop =>
      PopKeeps(q);
      PopOrders(q);
      PopBlocks(q);
  }

  // ----- runs -----

  ghost predicate IsRun<T>(cap: nat, ops: seq<Op<T>>, states: seq<Queue<T>>)
  {
    && |states| == |ops| + 1 && states[0] == Fresh(cap)
    && forall i :: 0 <= i < |ops| ==> states[i + 1] == Step(states[i], ops[i])
  }

  /** Every run before a poison: each accepted item in exactly one place, lists in arrival order, waiting only when
      there is nothing, parking only when there is no room, and exactly those in the lists blocked. */
  lemma {:induction false} RunIsSound<T>(cap: nat, ops: seq<Op<T>>, states: seq<Queue<T>>, i: nat)
    requires IsRun(cap, ops, states) && i <= |ops| && forall k :: 0 <= k < i ==> !ops[k].Poison?
    ensures Sound(states[i]) && states[i].cap == cap
    decreases i
  {
    if i > 0 {
      RunIsSound(cap, ops, states, i - 1);
      StepIsSound(states[i - 1], ops[i - 1]);
      assert states[i] == Step(states[i - 1], ops[i - 1]);
    }
  }

  /** What became of the calls so far: every push is accepted, and every pop has its answer or stands in the list. */
  ghost predicate Accounted<T>(q: Queue<T>, ops: seq<Op<T>>)
  {
    && !q.poisoned && q.clock == |ops|
    && (forall k :: 0 <= k < |ops| && ops[k].Push? ==> k in q.accepted && q.accepted[k] == ops[k].value)
    && (forall k :: 0 <= k < |ops| && ops[k].Pop? ==> k in q.slots || k in q.waiting)
    && (forall p :: p in q.accepted ==> p < |ops| && ops[p].Push?)
    && (forall w :: w in q.slots || w in q.waiting ==> w < |ops| && ops[w].Pop?)
  }

  lemma {:induction false} FrontOrRest(vs: seq<nat>)
    requires vs != []
    ensures forall v :: v in vs <==> v == vs[0] || v in vs[1..]
  {
    assert vs == [vs[0]] + vs[1..];
  }

  lemma {:induction false} PushIsAccounted<T>(q: Queue<T>, ops: seq<Op<T>>, value: T)
    requires Accounted(q, ops)
    ensures Accounted(Pushed(q, value), ops + [Push(value)])
  {
    var ops' := ops + [Push(value)];
    assert forall k :: 0 <= k < |ops| ==> ops'[k] == ops[k];
    if q.waiting != [] {
      FrontOrRest(q.waiting);
    }
  }

  lemma {:induction false} PopIsAccounted<T>(q: Queue<T>, ops: seq<Op<T>>)
    requires Accounted(q, ops)
    ensures Accounted(Popped(q), ops + [Pop])
  {
    var ops' := ops + [Pop];
    assert forall k :: 0 <= k < |ops| ==> ops'[k] == ops[k];
    assert forall v :: v in q.waiting + [q.clock] <==> v in q.waiting || v == q.clock;
  }

  lemma {:induction false} StepIsAccounted<T>(q: Queue<T>, ops: seq<Op<T>>, op: Op<T>)
    requires Accounted(q, ops) && !op.Poison?
    ensures Accounted(Step(q, op), ops + [op])
  {
    if op.Push? {
      PushIsAccounted(q, ops, op.value);
    } else {
      PopIsAccounted(q, ops);
    }
  }

  lemma {:induction false} RunIsAccounted<T>(cap: nat, ops: seq<Op<T>>, states: seq<Queue<T>>, i: nat)
    requires IsRun(cap, ops, states) && i <= |ops| && forall k :: 0 <= k < i ==> !ops[k].Poison?
    ensures Accounted(states[i], ops[..i])
    decreases i
  {
    if i > 0 {
      RunIsAccounted(cap, ops, states, i - 1);
      assert states[i] == Step(states[i - 1], ops[i - 1]) && ops[..i] == ops[..i - 1] + [ops[i - 1]];
      StepIsAccounted(states[i - 1], ops[..i - 1], ops[i - 1]);
    }
  }

  /** No wake-up is lost: before a poison every pop so far has its answer, or is one of the calls still told to wait. */
  lemma {:induction false} AnsweredOrBlocked<T>(cap: nat, ops: seq<Op<T>>, states: seq<Queue<T>>, i: nat, k: nat)
    requires IsRun(cap, ops, states) && k < i <= |ops| && ops[k].Pop? && forall j :: 0 <= j < i ==> !ops[j].Poison?
    ensures k in states[i].slots <==> k !in states[i].blocked - states[i].released
    ensures k in states[i].slots <==> k !in states[i].waiting
  {
    RunIsSound(cap, ops, states, i);
    RunIsAccounted(cap, ops, states, i);
    assert ops[..i][k] == ops[k];
    var q := states[i];
    assert k in q.blocked - q.released <==> k in Members(q.waiting) + Ids(q.pushing);
    assert forall p :: p in Ids(q.pushing) ==> p in q.accepted;
    assert k !in q.accepted;
  }

  // ----- order -----

  /** The item a pop would hand out. */
  function Served<T>(q: Queue<T>): Item<T>
    requires q.pushing != [] || q.work != []
  {
    if q.pushing != [] then q.pushing[0] else q.work[0]
  }

  /** `item` is the oldest of those in the buffer and with parked pushers. */
  ghost predicate Oldest<T>(q: Queue<T>, item: Item<T>)
  {
    && (forall k :: 0 <= k < |q.work| ==> item.id <= q.work[k].id)
    && (forall k :: 0 <= k < |q.pushing| ==> item.id <= q.pushing[k].id)
  }

  /** A pop hands out the oldest item exactly when no pusher is parked behind a buffer with something in it. */
  lemma PopServesOldest<T>(q: Queue<T>)
    requires Sound(q) && (q.pushing != [] || q.work != [])
    ensures Popped(q).slots[q.clock] == Some(Served(q))
    ensures Oldest(q, Served(q)) <==> q.pushing == [] || q.work == []
  {
    if q.pushing != [] && q.work != [] {
      assert q.work[0].id < q.pushing[0].id;
    }
  }

  /** So the queue is not first in, first out: with room for one, the second value pushed comes out first. */
  lemma ParkedOvertakes() returns (ops: seq<Op<int>>, states: seq<Queue<int>>)
    ensures IsRun(1, ops, states) && ops == [Push(10), Push(20), Pop, Pop]
    ensures states[4].slots == map[2 := Some(Item(1, 20)), 3 := Some(Item(0, 10))]
  {
    ops := [Push(10), Push(20), Pop, Pop];
    var s1 := Step(Fresh(1), ops[0]);
    var s2 := Step(s1, ops[1]);
    var s3 := Step(s2, ops[2]);
    var s4 := Step(s3, ops[3]);
    states := [Fresh(1), s1, s2, s3, s4];
  }

  // ----- who is served first -----

  /** Of the poppers told to wait only earlier ones than those still waiting have an answer, and of the pushers parked only
      earlier ones than those still parked have been released. */
  ghost predicate InTurn<T>(q: Queue<T>)
  {
    PoppersInTurn(q) && PushersInTurn(q)
  }

  ghost predicate PoppersInTurn<T>(q: Queue<T>)
  {
    forall v, w :: v in q.waiting && w in q.blocked && w in q.slots ==> w < v
  }

  ghost predicate PushersInTurn<T>(q: Queue<T>)
  {
    forall p, r :: p in Ids(q.pushing) && r in q.released && r in q.accepted ==> r < p
  }

  lemma {:induction false} PushKeepsPoppers<T>(q: Queue<T>, value: T)
    requires Sound(q) && PoppersInTurn(q)
    ensures PoppersInTurn(Pushed(q, value))
  {
    if q.waiting != [] {
      FrontOrRest(q.waiting);
    }
  }

  lemma {:induction false} PushKeepsPushers<T>(q: Queue<T>, value: T)
    requires Sound(q) && PushersInTurn(q)
    ensures PushersInTurn(Pushed(q, value))
  {
    if q.waiting == [] && |q.work| == q.cap {
      ItemAppended(q.pushing, Item(q.clock, value));
    }
  }

  lemma {:induction false} PopKeepsPoppers<T>(q: Queue<T>)
    requires Sound(q) && PoppersInTurn(q)
    ensures PoppersInTurn(Popped(q))
  {}

  lemma {:induction false} PopKeepsPushers<T>(q: Queue<T>)
    requires Sound(q) && PushersInTurn(q)
    ensures PushersInTurn(Popped(q))
  {
    if q.pushing != [] {
      FrontGone(q.pushing, q.clock);
    }
  }

  lemma {:induction false} RunInTurn<T>(cap: nat, ops: seq<Op<T>>, states: seq<Queue<T>>, i: nat)
    requires IsRun(cap, ops, states) && i <= |ops| && forall k :: 0 <= k < i ==> !ops[k].Poison?
    ensures InTurn(states[i])
    decreases i
  {
    if i > 0 {
      RunInTurn(cap, ops, states, i - 1);
      RunIsSound(cap, ops, states, i - 1);
      assert states[i] == Step(states[i - 1], ops[i - 1]);
      match ops[i - 1]
      case Push(value) =>
        PushKeepsPoppers(states[i - 1], value);
        PushKeepsPushers(states[i - 1], value);
      case Pop =>
        PopKeepsPoppers(states[i - 1]);
        PopKeepsPushers(states[i - 1]);
    }
  }

  /** No popper is overtaken: of two pops told to wait, the later has its answer only if the earlier has. */
  lemma {:induction false} PoppersServedInTurn<T>(cap: nat, ops: seq<Op<T>>, states: seq<Queue<T>>, i: nat, v: nat, w: nat)
    requires IsRun(cap, ops, states) && i <= |ops| && forall k :: 0 <= k < i ==> !ops[k].Poison?
    requires v < w < i && ops[v].Pop? && ops[w].Pop? && v in states[i].blocked && w in states[i].blocked
    ensures w in states[i].slots ==> v in states[i].slots
  {
    RunInTurn(cap, ops, states, i);
    RunIsAccounted(cap, ops, states, i);
    assert ops[..i][v] == ops[v];
  }

  /** Nor is a parked pusher: of two, the later goes on only if the earlier does. */
  lemma {:induction false} PushersReleasedInTurn<T>(cap: nat, ops: seq<Op<T>>, states: seq<Queue<T>>, i: nat, p: nat, r: nat)
    requires IsRun(cap, ops, states) && i <= |ops| && forall k :: 0 <= k < i ==> !ops[k].Poison?
    requires p < r < i && ops[p].Push? && ops[r].Push? && p in states[i].blocked && r in states[i].blocked
    ensures r in states[i].released ==> p in states[i].released
  {
    var q := states[i];
    RunInTurn(cap, ops, states, i);
    RunIsSound(cap, ops, states, i);
    RunIsAccounted(cap, ops, states, i);
    assert ops[..i][p] == ops[p] && ops[..i][r] == ops[r];
    if p !in q.released {
      assert p in q.blocked - q.released;
      assert p in Ids(q.pushing);
    }
  }

  // ----- poison -----

  /** Every call that was ever told to wait has been woken. */
  ghost predicate NobodyBlocked<T>(q: Queue<T>)
  {
    q.blocked <= q.released
  }

  /** A poison wakes every call that was told to wait and had not been woken, answers the waiting poppers with
      nothing, and takes nothing back. */
  lemma {:induction false} PoisonFreesAll<T>(q: Queue<T>)
    requires Sound(q)
    ensures NobodyBlocked(Poisoned(q)) && Poisoned(q).accepted == q.accepted
    ensures forall w :: w in q.waiting ==> w in Poisoned(q).slots && Poisoned(q).slots[w] == None
    ensures forall w :: w in q.slots ==> w in Poisoned(q).slots && Poisoned(q).slots[w] == q.slots[w]
  {
    forall b | b in q.blocked ensures b in Poisoned(q).released {
      assert b !in q.released ==> b in q.blocked - q.released;
    }
  }

  /** After a poison: every call ever told to wait is woken, every pop ever called has its answer, nothing more is
      accepted than `before` it, and no item comes out that had not come out then. */
  ghost predicate Settled<T>(q: Queue<T>, before: Queue<T>, ops: seq<Op<T>>)
  {
    && q.poisoned && NobodyBlocked(q) && q.accepted == before.accepted && q.clock == |ops|
    && (forall k :: 0 <= k < |ops| && ops[k].Pop? ==> k in q.slots)
    && (forall w :: w in q.slots && q.slots[w].Some? ==> w in before.slots && before.slots[w] == q.slots[w])
  }

  lemma {:induction false} PoisonSettles<T>(q: Queue<T>, ops: seq<Op<T>>)
    requires Sound(q) && Accounted(q, ops)
    ensures Settled(Poisoned(q), q, ops + [Poison])
  {
    PoisonFreesAll(q);
    var ops' := ops + [Poison];
    assert forall k :: 0 <= k < |ops| ==> ops'[k] == ops[k];
  }

  lemma {:induction false} StaysSettled<T>(q: Queue<T>, before: Queue<T>, ops: seq<Op<T>>, op: Op<T>)
    requires Settled(q, before, ops) && !op.Poison?
    ensures Settled(Step(q, op), before, ops + [op])
  {
    var ops' := ops + [op];
    assert ops'[|ops|] == op && forall k :: 0 <= k < |ops| ==> ops'[k] == ops[k];
  }

  lemma {:induction false} PoisonSettlesRun<T>(cap: nat, ops: seq<Op<T>>, states: seq<Queue<T>>, p: nat)
    requires IsRun(cap, ops, states) && p < |ops| && ops[p].Poison? && forall k :: 0 <= k < p ==> !ops[k].Poison?
    ensures Settled(states[p + 1], states[p], ops[..p + 1])
  {
    assert states[p + 1] == Step(states[p], ops[p]) && ops[..p + 1] == ops[..p] + [Poison];
    RunIsSound(cap, ops, states, p);
    RunIsAccounted(cap, ops, states, p);
    PoisonSettles(states[p], ops[..p]);
  }

  /** Every run with one poison, the `p`th call. */
  lemma {:induction false} PoisonedRun<T>(cap: nat, ops: seq<Op<T>>, states: seq<Queue<T>>, p: nat, i: nat)
    requires IsRun(cap, ops, states) && p < i <= |ops|
    requires forall k :: 0 <= k < |ops| ==> (ops[k].Poison? <==> k == p)
    ensures Settled(states[i], states[p], ops[..i])
    decreases i
  {
    if i - 1 == p {
      PoisonSettlesRun(cap, ops, states, p);
    } else {
      assert states[i] == Step(states[i - 1], ops[i - 1]) && ops[..i] == ops[..i - 1] + [ops[i - 1]];
      PoisonedRun(cap, ops, states, p, i - 1);
      StaysSettled(states[i - 1], states[p], ops[..i - 1], ops[i - 1]);
    }
  }

  // ----- what the loops of a poison come to -----

  lemma {:induction false} AnsweredOneMore<T>(slots: map<nat, Option<Item<T>>>, waiting: seq<nat>, i: nat)
    requires i < |waiting|
    ensures AnsweredNone(slots, waiting[..i + 1]) == AnsweredNone(slots, waiting[..i])[waiting[i] := None]
  {
    var upTo := waiting[..i + 1];
    assert upTo == waiting[..i] + [waiting[i]];
  }

  lemma {:induction false} WokenOneMore(waiting: seq<nat>, i: nat)
    requires i < |waiting|
    ensures Members(waiting[..i + 1]) == Members(waiting[..i]) + {waiting[i]}
  {
    var upTo := waiting[..i + 1];
    assert upTo == waiting[..i] + [waiting[i]];
  }

  lemma {:induction false} IdsOneMore<T>(items: seq<Item<T>>, i: nat)
    requires i < |items|
    ensures Ids(items[..i + 1]) == Ids(items[..i]) + {items[i].id}
  {
    var upTo, before := items[..i + 1], items[..i];
    forall p ensures p in Ids(upTo) <==> p in Ids(before) || p == items[i].id {
      if p in Ids(before) {
        var k :| 0 <= k < i && before[k].id == p;
        assert upTo[k].id == p;
      }
      if p in Ids(upTo) {
        var k :| 0 <= k < i + 1 && upTo[k].id == p;
        assert k < i ==> before[k].id == p;
      }
      assert upTo[i] == items[i];
    }
  }
}
