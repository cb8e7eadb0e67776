/** Whole runs of the calls of an expiry queue: what a queue holds and answers, from the calls so far alone. */
module TimedRuns {
  import opened Options
  import opened TimedMap

  /** A call with its answer. */
  datatype Call<T, Id> =
    | Add(item: T, time: int, status: Status)
    | Update(id: Id, time: int, status: Status)
    | AddOrUpdate(item: T, time: int, status: Status)
    | Erase(id: Id)
    | Expire(bar: int, taken: Option<T>)

  ghost predicate Moves<T, Id>(idOf: T -> Id, cap: nat, m: map<Id, Entry<T>>, c: Call<T, Id>, m': map<Id, Entry<T>>)
  {
    match c
    case Add(item, time, status) => Adds(idOf, cap, m, item, time, status, m')
    case Update(id, time, status) => Updates(m, id, time, status, m')
    case AddOrUpdate(item, time, status) => AddsOrUpdates(idOf, cap, m, item, time, status, m')
    case Erase(id) => m' == m - {id}
    case Expire(bar, taken) => Expires(idOf, m, bar, taken, m')
  }

  ghost predicate IsRun<T(!new), Id(!new)>(idOf: T -> Id, cap: nat, calls: seq<Call<T, Id>>, states: seq<map<Id, Entry<T>>>)
  {
    && |states| == |calls| + 1 && states[0] == map[]
    && forall i :: 0 <= i < |calls| ==> Moves(idOf, cap, states[i], calls[i], states[i + 1])
  }

  // ----- what the calls say -----

  /** The call set a time for the id. */
  ghost predicate Sets<T, Id>(idOf: T -> Id, c: Call<T, Id>, id: Id)
  {
    match c
    case Add(item, _, status) => idOf(item) == id && status == SUCCESS
    case Update(who, _, status) => who == id && status == SUCCESS
    case AddOrUpdate(item, _, status) => idOf(item) == id && status == SUCCESS
    case _ => false
  }

  /** The call took the id out. */
  ghost predicate Drops<T, Id>(idOf: T -> Id, c: Call<T, Id>, id: Id)
  {
    match c
    case Erase(who) => who == id
    case Expire(_, taken) => taken.Some? && idOf(taken.value) == id
    case _ => false
  }

  /** The time last set for an id and not taken out since. */
  ghost function Scheduled<T, Id>(idOf: T -> Id, calls: seq<Call<T, Id>>, id: Id): Option<int>
  {
    if calls == [] then None else
      var c := calls[|calls| - 1];
      if Sets(idOf, c, id) then Some(c.time)
      else if Drops(idOf, c, id) then None
      else Scheduled(idOf, calls[..|calls| - 1], id)
  }

  /** The item with which an id last came in. */
  ghost function Stored<T, Id>(idOf: T -> Id, calls: seq<Call<T, Id>>, id: Id): Option<T>
  {
    if calls == [] then None else
      var c, before := calls[|calls| - 1], calls[..|calls| - 1];
      if Sets(idOf, c, id) && !c.Update? && Scheduled(idOf, before, id).None? then Some(c.item) else Stored(idOf, before, id)
  }

  // ----- what the queue does -----

  ghost predicate Agrees<T, Id>(idOf: T -> Id, m: map<Id, Entry<T>>, calls: seq<Call<T, Id>>, id: Id)
  {
    && (id in m <==> Scheduled(idOf, calls, id).Some?)
    && (id in m ==> Some(m[id].time) == Scheduled(idOf, calls, id) && Some(m[id].item) == Stored(idOf, calls, id))
  }

  lemma {:induction false} TimeStep<T, Id>(idOf: T -> Id, cap: nat, m: map<Id, Entry<T>>, calls: seq<Call<T, Id>>, c: Call<T, Id>,
                                           m': map<Id, Entry<T>>, id: Id)
    requires Agrees(idOf, m, calls, id) && Moves(idOf, cap, m, c, m')
    ensures id in m' <==> Scheduled(idOf, calls + [c], id).Some?
    ensures id in m' ==> Some(m'[id].time) == Scheduled(idOf, calls + [c], id)
  {
    assert (calls + [c])[..|calls|] == calls;
  }

  lemma {:induction false} ItemStep<T, Id>(idOf: T -> Id, cap: nat, m: map<Id, Entry<T>>, calls: seq<Call<T, Id>>, c: Call<T, Id>,
                                           m': map<Id, Entry<T>>, id: Id)
    requires Agrees(idOf, m, calls, id) && Moves(idOf, cap, m, c, m')
    ensures id in m' ==> Some(m'[id].item) == Stored(idOf, calls + [c], id)
  {
    assert (calls + [c])[..|calls|] == calls;
  }

  lemma {:induction false} KeptWithin<T, Id>(idOf: T -> Id, cap: nat, m: map<Id, Entry<T>>, c: Call<T, Id>, m': map<Id, Entry<T>>)
    requires |m| <= cap && Moves(idOf, cap, m, c, m')
    ensures |m'| <= cap
  {
    match c
    case Add(item, time, _) => AssignedSize(m, idOf(item), Entry(item, time));
    case Update(id, time, status) => UpdateKeepsSize(m, id, time, status, m');
    case AddOrUpdate(item, time, status) =>
      if idOf(item) in m {
        UpdateKeepsSize(m, idOf(item), time, status, m');
      } else {
        AssignedSize(m, idOf(item), Entry(item, time));
      }
    case Erase(id) => FewerWithout(m, {id});
    case Expire(_, taken) =>
      if taken.Some? {
        FewerWithout(m, {idOf(taken.value)});
      }
  }

  lemma UpdateKeepsSize<T, Id>(m: map<Id, Entry<T>>, id: Id, time: int, status: Status, m': map<Id, Entry<T>>)
    requires Updates(m, id, time, status, m')
    ensures |m'| == |m|
  {
    if id in m {
      AssignedSize(m, id, m'[id]);
    }
  }

  lemma AssignedSize<K, V>(m: map<K, V>, k: K, v: V)
    ensures |m[k := v]| == |m| + if k in m then 0 else 1
  {
    assert m[k := v].Keys == m.Keys + {k};
  }

  lemma FewerWithout<K, V>(m: map<K, V>, ks: set<K>)
    ensures |m - ks| <= |m|
  {
    assert (m - ks).Keys == m.Keys - ks && m.Keys == (m.Keys - ks) + (m.Keys * ks);
  }

  /** Over every run the queue holds exactly the ids that were scheduled and not taken out since, each with the time last set
      for it and the item it came in with, and never more than it has room for. */
  lemma {:induction false} HoldsScheduled<T(!new), Id(!new)>(idOf: T -> Id, cap: nat, calls: seq<Call<T, Id>>,
                                                             states: seq<map<Id, Entry<T>>>, i: nat)
    requires IsRun(idOf, cap, calls, states) && i <= |calls|
    ensures |states[i]| <= cap && forall id :: Agrees(idOf, states[i], calls[..i], id)
    decreases i
  {
    if i > 0 {
      HoldsScheduled(idOf, cap, calls, states, i - 1);
      assert Moves(idOf, cap, states[i - 1], calls[i - 1], states[i]);
      assert calls[..i] == calls[..i - 1] + [calls[i - 1]];
      KeptWithin(idOf, cap, states[i - 1], calls[i - 1], states[i]);
      forall id ensures Agrees(idOf, states[i], calls[..i], id) {
        TimeStep(idOf, cap, states[i - 1], calls[..i - 1], calls[i - 1], states[i], id);
        ItemStep(idOf, cap, states[i - 1], calls[..i - 1], calls[i - 1], states[i], id);
      }
    }
  }

  /** So every answer is as the calls before it demand: an id is added iff it is not there and there is room, its time changed
      iff it is there; what expires has the earliest time set, below the bar, and nothing does iff no time set is below it. */
  lemma {:induction false} AnswersFollowCalls<T(!new), Id(!new)>(idOf: T -> Id, cap: nat, calls: seq<Call<T, Id>>,
                                                                 states: seq<map<Id, Entry<T>>>, i: nat)
    requires IsRun(idOf, cap, calls, states) && i < |calls|
    ensures var c, before := calls[i], calls[..i];
      && (c.Add? ==> (c.status == SUCCESS <==> Scheduled(idOf, before, idOf(c.item)).None? && |states[i]| < cap))
      && (c.Add? ==> (c.status == DUPLICATED_ENTRY <==> Scheduled(idOf, before, idOf(c.item)).Some?))
      && (c.Update? ==> c.status == if Scheduled(idOf, before, c.id).Some? then SUCCESS else INVALID_DICTIONARY_KEY)
      && (c.AddOrUpdate? ==> (c.status != SUCCESS <==> Scheduled(idOf, before, idOf(c.item)).None? && |states[i]| == cap))
      && (c.Expire? && c.taken.Some? ==> Earliest(idOf, before, idOf(c.taken.value), c.bar))
      && (c.Expire? && c.taken.Some? ==> Stored(idOf, before, idOf(c.taken.value)) == c.taken)
      && (c.Expire? ==> (c.taken.None? <==> NoneBefore(idOf, before, c.bar)))
  {
    HoldsScheduled(idOf, cap, calls, states, i);
    var c, m := calls[i], states[i];
    assert Moves(idOf, cap, m, c, states[i + 1]);
    match c
    case Add(item, _, _) => assert Agrees(idOf, m, calls[..i], idOf(item));
    case Update(id, _, _) => assert Agrees(idOf, m, calls[..i], id);
    case AddOrUpdate(item, _, _) => assert Agrees(idOf, m, calls[..i], idOf(item));
    case Erase(_) =>
    case Expire(bar, taken) => ExpiryFollowsCalls(idOf, m, calls[..i], bar, taken);
  }

  /** The id's time is below the bar, and none set is earlier. */
  ghost predicate Earliest<T(!new), Id(!new)>(idOf: T -> Id, calls: seq<Call<T, Id>>, id: Id, bar: int)
  {
    && Scheduled(idOf, calls, id).Some? && Scheduled(idOf, calls, id).value < bar
    && forall other :: Scheduled(idOf, calls, other).Some? ==> Scheduled(idOf, calls, id).value <= Scheduled(idOf, calls, other).value
  }

  ghost predicate NoneBefore<T(!new), Id(!new)>(idOf: T -> Id, calls: seq<Call<T, Id>>, bar: int)
  {
    forall id :: Scheduled(idOf, calls, id).Some? ==> Scheduled(idOf, calls, id).value >= bar
  }

  lemma {:induction false} ExpiryFollowsCalls<T(!new), Id(!new)>(idOf: T -> Id, m: map<Id, Entry<T>>, calls: seq<Call<T, Id>>, bar: int,
                                                                 taken: Option<T>)
    requires (exists m' :: Expires(idOf, m, bar, taken, m')) && forall id :: Agrees(idOf, m, calls, id)
    ensures taken.Some? ==> Earliest(idOf, calls, idOf(taken.value), bar) && Stored(idOf, calls, idOf(taken.value)) == taken
    ensures taken.None? <==> NoneBefore(idOf, calls, bar)
  {
    forall id ensures id in m <==> Scheduled(idOf, calls, id).Some?
              ensures id in m ==> Some(m[id].time) == Scheduled(idOf, calls, id) {
      assert Agrees(idOf, m, calls, id);
    }
    if taken.Some? {
      assert Agrees(idOf, m, calls, idOf(taken.value));
    }
  }
}
