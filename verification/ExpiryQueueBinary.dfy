/** `temporal_ordered_item_map`: a binary heap of pointers to nodes that know their own place. */
module ExpiryQueueBinary {
  import opened Options
  import opened Rearranging
  import opened HeapOrder
  import opened TimedMap

  class HeapNode<T> {
    var item: T
    var schedTime: int
    var heapIdx: nat

    constructor (item: T)
      ensures this.item == item && schedTime == 0 && heapIdx == 0
    {
      this.item, schedTime, heapIdx := item, 0, 0;
    }
  }

  function Times<T>(es: seq<Entry<T>>): (t: seq<int>)
    ensures |t| == |es|
    ensures forall i :: 0 <= i < |es| ==> t[i] == es[i].time
  {
    seq(|es|, i requires 0 <= i < |es| => es[i].time)
  }

  ghost predicate InTimeOrder<T>(es: seq<Entry<T>>)
  {
    HeapOrdered(Times(es), |es|, 2, Earlier)
  }

  /** The entries once the one at `idx` is swapped to the back and dropped. */
  ghost function Removed<T>(es: seq<Entry<T>>, idx: nat): seq<Entry<T>>
    requires idx < |es|
  {
    Swapped(es, idx, |es| - 1)[..|es| - 1]
  }

  lemma RemovedLists<T, Id>(idOf: T -> Id, es: seq<Entry<T>>, m: map<Id, Entry<T>>, idx: nat)
    requires Lists(idOf, es, m) && idx < |es|
    ensures Lists(idOf, Removed(es, idx), m - {idOf(es[idx].item)})
  {
    SwapLists(idOf, es, m, idx, |es| - 1);
    DropLastLists(idOf, Swapped(es, idx, |es| - 1), m, |es| - 1);
  }

  lemma RemovedOrder<T>(es: seq<Entry<T>>, idx: nat)
    requires InTimeOrder(es) && idx < |es|
    ensures HeapButAt(Times(Removed(es, idx)), |es| - 1, 2, Earlier, idx)
    ensures idx == |es| - 1 ==> InTimeOrder(Removed(es, idx))
  {
    EarlierIsTotal();
    var t := Times(Removed(es, idx));
    ReplacedOne(Times(es), |es|, t, |es| - 1, 2, Earlier, idx);
    if idx == |es| - 1 {
      forall i | 0 < i < |es| - 1 ensures t[Parent(i, 2)] <= t[i] {}
    }
  }

  lemma RetimedOrder<T>(es: seq<Entry<T>>, idx: nat, time: int)
    requires InTimeOrder(es) && idx < |es|
    ensures HeapButAt(Times(es[idx := es[idx].(time := time)]), |es|, 2, Earlier, idx)
  {
    EarlierIsTotal();
    ReplacedOne(Times(es), |es|, Times(es[idx := es[idx].(time := time)]), |es|, 2, Earlier, idx);
  }

  class TemporalOrderedItemMap<T, Id(==)> {
    const idOf: T -> Id
    const emptyItem: T                       // T{}
    var idHeapMap: map<Id, HeapNode<T>>
    var temporalHeap: seq<HeapNode<T>>
    var temporalHeapSz: nat
    ghost const nodes: set<HeapNode<T>>      // the nodes made by the constructor
    ghost var entries: seq<Entry<T>>         // what the live nodes hold, in heap order
    ghost var items: map<Id, Entry<T>>       // the timed map

    /** The node vector holds each node once, and live nodes know their place. */
    ghost predicate Placed()
      reads this`temporalHeap, this`temporalHeapSz, nodes`heapIdx
    {
      && temporalHeapSz <= |temporalHeap|
      && (forall i :: 0 <= i < |temporalHeap| ==> temporalHeap[i] in nodes)
      && (forall i, j :: 0 <= i < j < |temporalHeap| ==> temporalHeap[i] != temporalHeap[j])
      && (forall i :: 0 <= i < temporalHeapSz ==> temporalHeap[i].heapIdx == i)
    }

    ghost predicate Mirrors()
      reads this`temporalHeap, this`temporalHeapSz, this`entries, nodes
    {
      && Placed()
      && |entries| == temporalHeapSz
      && (forall i :: 0 <= i < temporalHeapSz ==> Entry(temporalHeap[i].item, temporalHeap[i].schedTime) == entries[i])
    }

    /** `ids` maps the id of each live node to that node. */
    ghost predicate Indexed(ids: map<Id, HeapNode<T>>)
      reads this`temporalHeap, this`temporalHeapSz, this`entries, nodes
    {
      && Mirrors()
      && forall i :: 0 <= i < temporalHeapSz ==> idOf(entries[i].item) in ids && ids[idOf(entries[i].item)] == temporalHeap[i]
    }

    ghost predicate Valid()
      reads this, nodes
    {
      Indexed(idHeapMap) && idHeapMap.Keys == items.Keys && Lists(idOf, entries, items) && InTimeOrder(entries)
    }

    constructor (cap: nat, idOf: T -> Id, emptyItem: T)
      ensures Valid() && items == map[] && |temporalHeap| == cap && fresh(nodes)
      ensures this.idOf == idOf
    {
      var heap: seq<HeapNode<T>> := [];
      ghost var made: set<HeapNode<T>> := {};
      for i := 0 to cap
        invariant |heap| == i && fresh(made)
        invariant forall k :: 0 <= k < i ==> heap[k] in made
        invariant forall j, k :: 0 <= j < k < i ==> heap[j] != heap[k]
      {
        var node := new HeapNode<T>(emptyItem);
        heap := heap + [node];
        made := made + {node};
      }
      this.idOf, this.emptyItem := idOf, emptyItem;
      idHeapMap, temporalHeap, temporalHeapSz := map[], heap, 0;
      nodes, entries, items := made, [], map[];
    }

    // ----- heap repair -----

    method SwapHeapNode(i: nat, j: nat, ghost ids: map<Id, HeapNode<T>>)
      requires i < temporalHeapSz && j < temporalHeapSz && i != j && Indexed(ids)
      modifies this`temporalHeap, this`entries, nodes`heapIdx
      ensures Indexed(ids)
      ensures entries == Swapped(old(entries), i, j) && |temporalHeap| == old(|temporalHeap|)
      ensures Times(entries) == Swapped(old(Times(entries)), i, j)
    {
      var l, r := temporalHeap[i], temporalHeap[j];
      l.heapIdx, r.heapIdx := r.heapIdx, l.heapIdx;
      temporalHeap := temporalHeap[i := r][j := l];
      entries := Swapped(entries, i, j);
    }

    method CorrectHeapNodeUpAt(idx: nat, ghost ids: map<Id, HeapNode<T>>, ghost m: map<Id, Entry<T>>)
      requires Indexed(ids) && idx < temporalHeapSz && Lists(idOf, entries, m)
      requires HeapButAt(Times(entries), |entries|, 2, Earlier, idx)
      modifies this`temporalHeap, this`entries, nodes`heapIdx
      ensures Indexed(ids) && |temporalHeap| == old(|temporalHeap|) && Lists(idOf, entries, m)
      ensures HeapButDown(Times(entries), |entries|, 2, Earlier, 0, idx)
      ensures old(HeapButUp(Times(entries), |entries|, 2, Earlier, idx)) ==> InTimeOrder(entries)
      decreases idx
    {
      EarlierIsTotal();
      if idx == 0 {
        AtToDown(Times(entries), |entries|, 2, Earlier, idx);
        return;
      }
      var parentIdx := Parent(idx, 2);
      if !(temporalHeap[idx].schedTime < temporalHeap[parentIdx].schedTime) {
        AtToDown(Times(entries), |entries|, 2, Earlier, idx);
        return;
      }
      AtToUp(Times(entries), |entries|, 2, Earlier, idx);
      SwapLists(idOf, entries, m, parentIdx, idx);
      SwapHeapNode(parentIdx, idx, ids);
      ButUpIsButAt(Times(entries), |entries|, 2, Earlier, parentIdx);
      CorrectHeapNodeUpAt(parentIdx, ids, m);
      OrderedIsButDown(Times(entries), |entries|, 2, Earlier, idx);
    }

    /** The smaller of two children, the left one on a tie. */
    lemma SmallerChild(t: seq<int>, idx: nat, c: nat)
      requires idx * 2 + 1 < |t|
      requires c == if idx * 2 + 2 < |t| && t[idx * 2 + 2] < t[idx * 2 + 1] then idx * 2 + 2 else idx * 2 + 1
      ensures IsBestChild(t, |t|, 2, Earlier, idx, c)
    {}

    method CorrectHeapNodeDownAt(idx: nat, ghost ids: map<Id, HeapNode<T>>, ghost m: map<Id, Entry<T>>)
      requires Indexed(ids) && idx < temporalHeapSz && Lists(idOf, entries, m)
      requires HeapButDown(Times(entries), |entries|, 2, Earlier, 0, idx)
      modifies this`temporalHeap, this`entries, nodes`heapIdx
      ensures Indexed(ids) && |temporalHeap| == old(|temporalHeap|) && Lists(idOf, entries, m)
      ensures InTimeOrder(entries)
      decreases temporalHeapSz - idx
    {
      EarlierIsTotal();
      var candIdx := idx * 2 + 1;
      if candIdx >= temporalHeapSz {
        PushDownLeaf(Times(entries), idx, |entries|, 2, Earlier, 0);
        return;
      }
      if candIdx + 1 < temporalHeapSz && temporalHeap[candIdx + 1].schedTime < temporalHeap[candIdx].schedTime {
        candIdx := candIdx + 1;
      }
      SmallerChild(Times(entries), idx, candIdx);
      if !(temporalHeap[candIdx].schedTime < temporalHeap[idx].schedTime) {
        PushDownStop(Times(entries), idx, |entries|, 2, Earlier, 0, candIdx);
        return;
      }
      PushDownStep(Times(entries), idx, |entries|, 2, Earlier, 0, candIdx);
      SwapLists(idOf, entries, m, idx, candIdx);
      SwapHeapNode(idx, candIdx, ids);
      CorrectHeapNodeDownAt(candIdx, ids, m);
    }

    method CorrectHeapNodeAt(idx: nat, ghost ids: map<Id, HeapNode<T>>, ghost m: map<Id, Entry<T>>)
      requires Indexed(ids) && idx < temporalHeapSz && Lists(idOf, entries, m)
      requires HeapButAt(Times(entries), |entries|, 2, Earlier, idx)
      modifies this`temporalHeap, this`entries, nodes`heapIdx
      ensures Indexed(ids) && |temporalHeap| == old(|temporalHeap|) && Lists(idOf, entries, m)
      ensures InTimeOrder(entries)
    {
      CorrectHeapNodeUpAt(idx, ids, m);
      CorrectHeapNodeDownAt(idx, ids, m);
    }

    /** Clears the last live node and drops it; the id map has already lost its id. */
    method DropBackNode(ghost ids: map<Id, HeapNode<T>>, ghost m: map<Id, Entry<T>>)
      requires Indexed(ids) && temporalHeapSz > 0 && Lists(idOf, entries, m)
      modifies this`temporalHeapSz, this`entries, nodes
      ensures Indexed(ids - {idOf(old(entries)[old(temporalHeapSz) - 1].item)})
      ensures entries == old(entries[..temporalHeapSz - 1])
    {
      var n := temporalHeapSz - 1;
      var node := temporalHeap[n];
      node.item, node.schedTime, node.heapIdx := emptyItem, 0, 0;
      temporalHeapSz := n;
      entries := entries[..n];
    }

    /** Swaps the node to the back, unless it is there, and drops it. */
    method RemoveNode(idx: nat, ghost ids: map<Id, HeapNode<T>>, ghost m: map<Id, Entry<T>>)
      requires Indexed(ids) && Lists(idOf, entries, m) && idx < temporalHeapSz
      modifies this`temporalHeap, this`temporalHeapSz, this`entries, nodes
      ensures Indexed(ids - {idOf(old(entries)[idx].item)}) && |temporalHeap| == old(|temporalHeap|)
      ensures entries == Removed(old(entries), idx)
    {
      var backNodeIdx := temporalHeapSz - 1;
      if backNodeIdx != idx {
        SwapLists(idOf, entries, m, idx, backNodeIdx);
        SwapHeapNode(idx, backNodeIdx, ids);
      }
      DropBackNode(ids, m);
    }

    method EraseHeapNodeAt(idx: nat, ghost id: Id, ghost ids: map<Id, HeapNode<T>>, ghost m: map<Id, Entry<T>>)
      requires Indexed(ids) && Lists(idOf, entries, m) && InTimeOrder(entries)
      requires idx < temporalHeapSz && idOf(entries[idx].item) == id
      modifies this`temporalHeap, this`temporalHeapSz, this`entries, nodes
      ensures Indexed(ids - {id}) && Lists(idOf, entries, m - {id}) && InTimeOrder(entries)
      ensures |temporalHeap| == old(|temporalHeap|)
    {
      RemovedLists(idOf, entries, m, idx);
      RemovedOrder(entries, idx);
      RemoveNode(idx, ids, m);
      if idx < temporalHeapSz {
        CorrectHeapNodeAt(idx, ids - {id}, m - {id});
      }
    }

    /** `pop_heap_node` only pushes down: the front has no parent. */
    method PopHeapNode(ghost id: Id, ghost ids: map<Id, HeapNode<T>>, ghost m: map<Id, Entry<T>>)
      requires Indexed(ids) && Lists(idOf, entries, m) && InTimeOrder(entries)
      requires temporalHeapSz > 0 && idOf(entries[0].item) == id
      modifies this`temporalHeap, this`temporalHeapSz, this`entries, nodes
      ensures Indexed(ids - {id}) && Lists(idOf, entries, m - {id}) && InTimeOrder(entries)
      ensures |temporalHeap| == old(|temporalHeap|)
    {
      RemovedLists(idOf, entries, m, 0);
      RemovedOrder(entries, 0);
      RemoveNode(0, ids, m);
      if temporalHeapSz > 0 {
        AtToDown(Times(entries), |entries|, 2, Earlier, 0);
        CorrectHeapNodeDownAt(0, ids - {id}, m - {id});
      }
    }

    // ----- the queue operations -----

    /** The assignments of `add_heap_node` where there is room. */
    method FillBackNode(item: T, schedTime: int) returns (operatingNode: HeapNode<T>)
      requires Indexed(idHeapMap) && temporalHeapSz < |temporalHeap| && idOf(item) !in idHeapMap
      modifies this`temporalHeapSz, this`entries, nodes
      ensures operatingNode in nodes && Indexed(idHeapMap[idOf(item) := operatingNode])
      ensures entries == old(entries) + [Entry(item, schedTime)]
    {
      operatingNode := temporalHeap[temporalHeapSz];
      operatingNode.item := item;
      operatingNode.schedTime := schedTime;
      operatingNode.heapIdx := temporalHeapSz;
      temporalHeapSz := temporalHeapSz + 1;
      entries := entries + [Entry(item, schedTime)];
    }

    /** `add_heap_node` where there is room. */
    method AddHeapNode(item: T, schedTime: int) returns (operatingNode: HeapNode<T>)
      requires Valid() && temporalHeapSz < |temporalHeap| && idOf(item) !in idHeapMap
      modifies this`temporalHeap, this`temporalHeapSz, this`entries, nodes
      ensures operatingNode in nodes && Indexed(idHeapMap[idOf(item) := operatingNode])
      ensures Lists(idOf, entries, items[idOf(item) := Entry(item, schedTime)]) && InTimeOrder(entries)
      ensures |temporalHeap| == old(|temporalHeap|)
    {
      AppendLists(idOf, entries, items, Entry(item, schedTime));
      operatingNode := FillBackNode(item, schedTime);
      AppendedOne(old(Times(entries)), Times(entries), |entries| - 1, 2, Earlier);
      ButUpIsButAt(Times(entries), |entries|, 2, Earlier, |entries| - 1);
      CorrectHeapNodeUpAt(temporalHeapSz - 1, idHeapMap[idOf(item) := operatingNode], items[idOf(item) := Entry(item, schedTime)]);
    }

    method Add(item: T, expiryTime: int) returns (status: Status)
      requires Valid()
      modifies this, nodes
      ensures Valid() && |temporalHeap| == old(|temporalHeap|)
      ensures Adds(idOf, |temporalHeap|, old(items), item, expiryTime, status, items)
    {
      if idOf(item) in idHeapMap {
        return DUPLICATED_ENTRY;
      }
      if temporalHeapSz == |temporalHeap| {
        return RESOURCE_EXHAUSTION;
      }
      var referenceNode := AddHeapNode(item, expiryTime);
      idHeapMap := idHeapMap[idOf(item) := referenceNode];
      items := items[idOf(item) := Entry(item, expiryTime)];
      return SUCCESS;
    }

    /** `map_ptr->second->sched_time = expiry_time`. */
    method Retime(node: HeapNode<T>, expiryTime: int)
      requires Indexed(idHeapMap) && node in nodes && node.heapIdx < temporalHeapSz && temporalHeap[node.heapIdx] == node
      modifies this`entries, nodes`schedTime
      ensures Indexed(idHeapMap)
      ensures entries == old(entries[node.heapIdx := entries[node.heapIdx].(time := expiryTime)])
    {
      node.schedTime := expiryTime;
      entries := entries[node.heapIdx := entries[node.heapIdx].(time := expiryTime)];
    }

    /** The node an id maps to is the live node with that id. */
    lemma NodeOf(id: Id)
      requires Valid() && id in idHeapMap
      ensures idHeapMap[id] in nodes && idHeapMap[id].heapIdx < temporalHeapSz
      ensures temporalHeap[idHeapMap[id].heapIdx] == idHeapMap[id]
      ensures idOf(entries[idHeapMap[id].heapIdx].item) == id
    {
      var i := ListsAll(idOf, entries, items, id);
    }

    method Update(itemId: Id, expiryTime: int) returns (status: Status)
      requires Valid()
      modifies this, nodes
      ensures Valid() && |temporalHeap| == old(|temporalHeap|)
      ensures Updates(old(items), itemId, expiryTime, status, items)
    {
      if itemId !in idHeapMap {
        return INVALID_DICTIONARY_KEY;
      }
      NodeOf(itemId);
      ghost var m := items[itemId := Entry(items[itemId].item, expiryTime)];
      UpdateNode(idHeapMap[itemId], itemId, expiryTime, m);
      items := m;
      return SUCCESS;
    }

    method UpdateNode(node: HeapNode<T>, ghost id: Id, expiryTime: int, ghost m: map<Id, Entry<T>>)
      requires Valid() && node in nodes && node.heapIdx < temporalHeapSz && temporalHeap[node.heapIdx] == node
      requires idOf(entries[node.heapIdx].item) == id && id in items && m == items[id := Entry(items[id].item, expiryTime)]
      modifies this`temporalHeap, this`entries, nodes`schedTime, nodes`heapIdx
      ensures Indexed(idHeapMap) && Lists(idOf, entries, m) && InTimeOrder(entries)
      ensures |temporalHeap| == old(|temporalHeap|)
    {
      var idx := node.heapIdx;
      RetimeLists(idOf, entries, items, idx, expiryTime);
      RetimedOrder(entries, idx, expiryTime);
      Retime(node, expiryTime);
      CorrectHeapNodeAt(idx, idHeapMap, m);
    }

    method AddOrUpdate(item: T, expiryTime: int) returns (status: Status)
      requires Valid()
      modifies this, nodes
      ensures Valid() && |temporalHeap| == old(|temporalHeap|)
      ensures AddsOrUpdates(idOf, |temporalHeap|, old(items), item, expiryTime, status, items)
    {
      if idOf(item) in idHeapMap {
        status := Update(idOf(item), expiryTime);
      } else {
        status := Add(item, expiryTime);
      }
    }

    method Erase(itemId: Id)
      requires Valid()
      modifies this, nodes
      ensures Valid() && |temporalHeap| == old(|temporalHeap|)
      ensures items == old(items) - {itemId}
    {
      if itemId !in idHeapMap {
        return;
      }
      NodeOf(itemId);
      ErasePresent(itemId, idHeapMap[itemId].heapIdx);
    }

    method ErasePresent(itemId: Id, idx: nat)
      requires Valid() && idx < temporalHeapSz && idOf(entries[idx].item) == itemId
      modifies this, nodes
      ensures Valid() && |temporalHeap| == old(|temporalHeap|)
      ensures items == old(items) - {itemId}
    {
      ghost var ids, m := idHeapMap, items;
      idHeapMap := idHeapMap - {itemId};
      items := items - {itemId};
      EraseHeapNodeAt(idx, itemId, ids, m);
    }

    method GetExpiredItem(timeBar: int) returns (r: Option<T>)
      requires Valid()
      modifies this, nodes
      ensures Valid() && |temporalHeap| == old(|temporalHeap|)
      ensures Expires(idOf, old(items), timeBar, r, items)
    {
      FrontIsEarliest();
      if temporalHeapSz == 0 {
        return None;
      }
      if temporalHeap[0].schedTime >= timeBar {
        return None;
      }
      var x := temporalHeap[0].item;
      ghost var ids, m := idHeapMap, items;
      idHeapMap := idHeapMap - {idOf(x)};
      items := items - {idOf(x)};
      PopHeapNode(idOf(x), ids, m);
      return Some(x);
    }

    /** The loop by which the retransmission controller empties the queue into an array with room for `cap` items. */
    method DrainExpired(timeBar: int, cap: nat) returns (rs: seq<T>)
      requires Valid()
      modifies this, nodes
      ensures Valid() && |temporalHeap| == old(|temporalHeap|)
      ensures Drained(idOf, timeBar, cap, old(items), rs, items)
    {
      rs := [];
      while |rs| < cap
        invariant Valid() && |temporalHeap| == old(|temporalHeap|)
        invariant |rs| <= cap && Taken(idOf, timeBar, old(items), rs, items)
        decreases cap - |rs|
      {
        ghost var before := items;
        var nxt := GetExpiredItem(timeBar);
        if nxt.None? {
          DrainReturnsDue(idOf, timeBar, old(items), rs, items);
          return;
        }
        TakenOneMore(idOf, timeBar, old(items), rs, before, nxt.value, items);
        rs := rs + [nxt.value];
      }
    }

    method HasExpiredItem(timeBar: int) returns (b: bool)
      requires Valid()
      ensures b <==> exists id :: id in items && items[id].time < timeBar
    {
      FrontIsEarliest();
      if temporalHeapSz == 0 {
        return false;
      }
      assert idOf(entries[0].item) in items;
      return temporalHeap[0].schedTime < timeBar;
    }

    lemma FrontIsEarliest()
      requires Valid()
      ensures temporalHeapSz == 0 ==> items == map[]
      ensures temporalHeapSz > 0 ==> forall id :: id in items ==> temporalHeap[0].schedTime <= items[id].time
    {
      EarlierIsTotal();
      if temporalHeapSz > 0 {
        forall id | id in items ensures temporalHeap[0].schedTime <= items[id].time {
          var k := ListsAll(idOf, entries, items, id);
          RootIsBest(Times(entries), |entries|, 2, Earlier, k);
        }
      }
    }
  }
}
