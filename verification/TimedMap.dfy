/** What both expiry queues are for: a bounded map from ids to items with a time, from which expired items are taken
    earliest first. */
module TimedMap {
  import opened Options
  import opened HeapOrder
  import opened Rearranging

  /** The comparison of scheduled times by which both heaps are ordered. */
  predicate Earlier(x: int, y: int)
  {
    x <= y
  }

  lemma EarlierIsTotal()
    ensures TotalPreorder(Earlier)
  {}

  datatype Entry<T> = Entry(item: T, time: int)

  datatype Status = SUCCESS | DUPLICATED_ENTRY | INVALID_DICTIONARY_KEY | RESOURCE_EXHAUSTION

  /** `add` on the abstract map. */
  ghost predicate Adds<T, Id>(idOf: T -> Id, cap: nat, m: map<Id, Entry<T>>, item: T, time: int, status: Status, m': map<Id, Entry<T>>)
  {
    if idOf(item) in m then status == DUPLICATED_ENTRY && m' == m
    else if |m| == cap then status == RESOURCE_EXHAUSTION && m' == m
    else status == SUCCESS && m' == m[idOf(item) := Entry(item, time)]
  }

  /** `update` on the abstract map. */
  ghost predicate Updates<T, Id>(m: map<Id, Entry<T>>, id: Id, time: int, status: Status, m': map<Id, Entry<T>>)
  {
    if id in m then status == SUCCESS && m' == m[id := Entry(m[id].item, time)]
    else status == INVALID_DICTIONARY_KEY && m' == m
  }

  /** `add_or_update` on the abstract map; an update keeps the stored item. */
  ghost predicate AddsOrUpdates<T, Id>(idOf: T -> Id, cap: nat, m: map<Id, Entry<T>>, item: T, time: int, status: Status, m': map<Id, Entry<T>>)
  {
    if idOf(item) in m then Updates(m, idOf(item), time, status, m') else Adds(idOf, cap, m, item, time, status, m')
  }

  /** `get_expired_item` on the abstract map: an earliest item before the bar, or none if there is no such item. */
  ghost predicate Expires<T, Id>(idOf: T -> Id, m: map<Id, Entry<T>>, bar: int, r: Option<T>, m': map<Id, Entry<T>>)
  {
    match r
    case None => m' == m && forall id :: id in m ==> m[id].time >= bar
    case Some(x) =>
      && idOf(x) in m && m[idOf(x)].item == x && m[idOf(x)].time < bar
      && (forall id :: id in m ==> m[idOf(x)].time <= m[id].time)
      && m' == m - {idOf(x)}
  }

  // ----- taking expired items one after the other -----

  /** `x` is the item of an entry of `m` before the bar. */
  ghost predicate Due<T, Id>(idOf: T -> Id, bar: int, m: map<Id, Entry<T>>, x: T)
  {
    idOf(x) in m && m[idOf(x)].item == x && m[idOf(x)].time < bar
  }

  /** `rs` are exactly the items of `m` before the bar, each once, in nondecreasing time order. */
  ghost predicate DueInOrder<T, Id>(idOf: T -> Id, bar: int, m: map<Id, Entry<T>>, rs: seq<T>)
  {
    && (forall i :: 0 <= i < |rs| ==> Due(idOf, bar, m, rs[i]))
    && (forall i, j :: 0 <= i < j < |rs| ==> idOf(rs[i]) != idOf(rs[j]) && m[idOf(rs[i])].time <= m[idOf(rs[j])].time)
    && (forall id :: id in m && m[id].time < bar ==> exists i :: 0 <= i < |rs| && idOf(rs[i]) == id)
  }

  /** `rs` were taken from `m`, earliest first, and `m'` is left: the rest of `m`, with nothing earlier than what was taken. */
  ghost predicate Taken<T, Id>(idOf: T -> Id, bar: int, m: map<Id, Entry<T>>, rs: seq<T>, m': map<Id, Entry<T>>)
  {
    && (forall i :: 0 <= i < |rs| ==> Due(idOf, bar, m, rs[i]))
    && (forall i, j :: 0 <= i < j < |rs| ==> idOf(rs[i]) != idOf(rs[j]) && m[idOf(rs[i])].time <= m[idOf(rs[j])].time)
    && (forall i :: 0 <= i < |rs| ==> idOf(rs[i]) !in m' && forall id :: id in m' ==> m[idOf(rs[i])].time <= m'[id].time)
    && (forall id :: id in m' ==> id in m && m'[id] == m[id])
    && (forall id :: id in m ==> id in m' || exists i :: 0 <= i < |rs| && idOf(rs[i]) == id)
  }

  /** One more expiry after those before. */
  lemma {:induction false} TakenOneMore<T, Id>(idOf: T -> Id, bar: int, m: map<Id, Entry<T>>, rs: seq<T>, m': map<Id, Entry<T>>,
                                               x: T, m'': map<Id, Entry<T>>)
    requires Taken(idOf, bar, m, rs, m') && Expires(idOf, m', bar, Some(x), m'')
    ensures Taken(idOf, bar, m, rs + [x], m'')
  {
    var all := rs + [x];
    forall i | 0 <= i < |all| ensures Due(idOf, bar, m, all[i]) {
      assert i < |rs| ==> Due(idOf, bar, m, rs[i]);
    }
    forall id | id in m ensures id in m'' || exists i :: 0 <= i < |all| && idOf(all[i]) == id {
      if id !in m' {
        var i :| 0 <= i < |rs| && idOf(rs[i]) == id;
        assert idOf(all[i]) == id;
      } else if id == idOf(x) {
        assert idOf(all[|rs|]) == id;
      }
    }
  }

  /** A drain that found nothing more to take returned exactly the items before the bar, each once, in nondecreasing
      time order, and left every other entry as it was. */
  lemma {:induction false} DrainReturnsDue<T, Id>(idOf: T -> Id, bar: int, m: map<Id, Entry<T>>, rs: seq<T>, m': map<Id, Entry<T>>)
    requires Taken(idOf, bar, m, rs, m') && Expires(idOf, m', bar, None, m')
    ensures DueInOrder(idOf, bar, m, rs)
    ensures m' == map id | id in m && m[id].time >= bar :: m[id]
  {
    forall id | id in m ensures id in m' <==> m[id].time >= bar {
      if id !in m' {
        var i :| 0 <= i < |rs| && idOf(rs[i]) == id;
        assert Due(idOf, bar, m, rs[i]);
      }
    }
  }

  /** A drain into room for `cap` items: full, with the earliest of the due items, or all of the due items. */
  ghost predicate Drained<T, Id>(idOf: T -> Id, bar: int, cap: nat, m: map<Id, Entry<T>>, rs: seq<T>, m': map<Id, Entry<T>>)
  {
    && |rs| <= cap && Taken(idOf, bar, m, rs, m')
    && (|rs| < cap ==> DueInOrder(idOf, bar, m, rs) && m' == map id | id in m && m[id].time >= bar :: m[id])
  }

  /** A set listed without repetition has as many elements as the list. */
  lemma {:induction false} DistinctSize<A>(xs: seq<A>, s: set<A>)
    requires forall i, j :: 0 <= i < j < |xs| ==> xs[i] != xs[j]
    requires forall x :: x in s <==> x in xs
    ensures |s| == |xs|
  {
    if xs == [] {
      assert s == {};
    } else {
      var n := |xs| - 1;
      assert xs == xs[..n] + [xs[n]];
      DistinctSize(xs[..n], s - {xs[n]});
    }
  }

  // ----- a timed map listed entry by entry -----

  /** `es` lists the entries of `m`, each once. */
  ghost predicate Lists<T, Id>(idOf: T -> Id, es: seq<Entry<T>>, m: map<Id, Entry<T>>)
  {
    && |es| == |m|
    && (forall i :: 0 <= i < |es| ==> idOf(es[i].item) in m && m[idOf(es[i].item)] == es[i])
    && (forall i, j :: 0 <= i < j < |es| ==> idOf(es[i].item) != idOf(es[j].item))
  }

  /** Every id of the map is listed. */
  lemma ListsAll<T, Id>(idOf: T -> Id, es: seq<Entry<T>>, m: map<Id, Entry<T>>, id: Id) returns (k: nat)
    requires Lists(idOf, es, m) && id in m
    ensures k < |es| && idOf(es[k].item) == id
  {
    var keys := seq(|es|, i requires 0 <= i < |es| => idOf(es[i].item));
    var listed := set i | 0 <= i < |keys| :: keys[i];
    DistinctSize(keys, listed);
    assert listed <= m.Keys && |listed| == |m.Keys|;
    SubsetOfSameSize(listed, m.Keys);
    var i :| 0 <= i < |keys| && keys[i] == id;
    k := i;
  }

  lemma SubsetOfSameSize<A>(s: set<A>, t: set<A>)
    requires s <= t && |s| == |t|
    ensures s == t
  {
    assert t == s + (t - s);
    assert |t - s| == 0;
  }

  lemma SwapLists<T, Id>(idOf: T -> Id, es: seq<Entry<T>>, m: map<Id, Entry<T>>, i: nat, j: nat)
    requires Lists(idOf, es, m) && i < |es| && j < |es|
    ensures Lists(idOf, Swapped(es, i, j), m)
  {}

  lemma AppendLists<T, Id>(idOf: T -> Id, es: seq<Entry<T>>, m: map<Id, Entry<T>>, e: Entry<T>)
    requires Lists(idOf, es, m) && idOf(e.item) !in m
    ensures Lists(idOf, es + [e], m[idOf(e.item) := e])
  {}

  lemma RetimeLists<T, Id>(idOf: T -> Id, es: seq<Entry<T>>, m: map<Id, Entry<T>>, k: nat, time: int)
    requires Lists(idOf, es, m) && k < |es|
    ensures Lists(idOf, es[k := es[k].(time := time)], m[idOf(es[k].item) := es[k].(time := time)])
  {
    assert m[idOf(es[k].item) := es[k].(time := time)].Keys == m.Keys;
  }

  lemma DropLastLists<T, Id>(idOf: T -> Id, es: seq<Entry<T>>, m: map<Id, Entry<T>>, n: nat)
    requires Lists(idOf, es, m) && |es| == n + 1
    ensures Lists(idOf, es[..n], m - {idOf(es[n].item)})
  {
    var id := idOf(es[n].item);
    assert (m - {id}).Keys == m.Keys - {id};
  }
}
