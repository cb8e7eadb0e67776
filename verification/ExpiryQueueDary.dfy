/** `temporal_ordered_item_map_2`: heap nodes and id map meet in back-index cells that both point at. */
module ExpiryQueueDary {
  import opened Options
  import opened Rearranging
  import opened HeapOrder
  import opened TimedMap

  /** `heap_idx` is a pointer into the cell array, here the position of the cell. */
  datatype HeapNode<T> = HeapNode(schedTime: int, heapIdx: nat, item: Option<T>)

  function Times<T>(heap: seq<HeapNode<T>>): (t: seq<int>)
    ensures |t| == |heap|
    ensures forall i :: 0 <= i < |heap| ==> t[i] == heap[i].schedTime
  {
    seq(|heap|, i requires 0 <= i < |heap| => heap[i].schedTime)
  }

  /** The four fields a queue is made of. */
  datatype State<T, Id> = State(cells: seq<nat>, heap: seq<HeapNode<T>>, sz: nat, ids: map<Id, nat>)

  ghost predicate CellsPointBack<T>(cells: seq<nat>, heap: seq<HeapNode<T>>)
  {
    && |cells| == |heap|
    && forall i :: 0 <= i < |heap| ==> heap[i].heapIdx < |cells| && cells[heap[i].heapIdx] == i
  }

  /** The id map is a bijection onto the live prefix, through the cells. */
  ghost predicate IdsMatch<T, Id>(idOf: T -> Id, s: State<T, Id>)
  {
    && s.sz <= |s.heap|
    && (forall i :: 0 <= i < s.sz ==>
          s.heap[i].item.Some? && idOf(s.heap[i].item.value) in s.ids && s.ids[idOf(s.heap[i].item.value)] == s.heap[i].heapIdx)
    && (forall i :: s.sz <= i < |s.heap| ==> s.heap[i].item.None?)
    && (forall id :: id in s.ids ==>
          && s.ids[id] < |s.cells| && s.cells[s.ids[id]] < s.sz
          && s.heap[s.cells[s.ids[id]]].item.Some?
          && idOf(s.heap[s.cells[s.ids[id]]].item.value) == id)
  }

  ghost predicate Indexed<T, Id>(idOf: T -> Id, s: State<T, Id>)
  {
    CellsPointBack(s.cells, s.heap) && IdsMatch(idOf, s)
  }

  /** The timed map a state stands for. */
  ghost function Contents<T, Id>(idOf: T -> Id, s: State<T, Id>): map<Id, Entry<T>>
    requires Indexed(idOf, s)
  {
    map id | id in s.ids :: Entry(s.heap[s.cells[s.ids[id]]].item.value, s.heap[s.cells[s.ids[id]]].schedTime)
  }

  /** `swap_heap_node`: the two cells are exchanged, then the two nodes. */
  ghost function SwapNodes<T, Id>(s: State<T, Id>, i: nat, j: nat): State<T, Id>
    requires i < |s.heap| && j < |s.heap| && CellsPointBack(s.cells, s.heap)
  {
    s.(cells := Swapped(s.cells, s.heap[i].heapIdx, s.heap[j].heapIdx), heap := Swapped(s.heap, i, j))
  }

  lemma SwapKeepsCells<T, Id>(s: State<T, Id>, i: nat, j: nat)
    requires i < |s.heap| && j < |s.heap| && CellsPointBack(s.cells, s.heap)
    ensures CellsPointBack(SwapNodes(s, i, j).cells, SwapNodes(s, i, j).heap)
    ensures Times(SwapNodes(s, i, j).heap) == Swapped(Times(s.heap), i, j)
  {
    var t := SwapNodes(s, i, j);
    forall k | 0 <= k < |t.heap| ensures t.heap[k].heapIdx < |t.cells| && t.cells[t.heap[k].heapIdx] == k {
      assert s.cells[s.heap[k].heapIdx] == k;
    }
  }

  lemma SwapKeepsContents<T, Id>(idOf: T -> Id, s: State<T, Id>, i: nat, j: nat)
    requires Indexed(idOf, s) && i < s.sz && j < s.sz
    ensures Indexed(idOf, SwapNodes(s, i, j))
    ensures Contents(idOf, SwapNodes(s, i, j)) == Contents(idOf, s)
  {
    SwapKeepsCells(s, i, j);
    var t := SwapNodes(s, i, j);
    forall id | id in s.ids
      ensures t.cells[t.ids[id]] < t.sz && t.heap[t.cells[t.ids[id]]] == s.heap[s.cells[s.ids[id]]] {
      var k := s.cells[s.ids[id]];
      assert s.ids[id] == s.heap[k].heapIdx;
      assert s.cells[s.heap[i].heapIdx] == i && s.cells[s.heap[j].heapIdx] == j;
    }
  }

  /** The map has one entry per live place. */
  lemma ContentsSize<T, Id>(idOf: T -> Id, s: State<T, Id>)
    requires Indexed(idOf, s)
    ensures |Contents(idOf, s)| == s.sz
  {
    var keys := seq(s.sz, i requires 0 <= i < s.sz => idOf(s.heap[i].item.value));
    var m := Contents(idOf, s);
    forall id ensures id in m.Keys <==> id in keys {
      if id in m.Keys {
        assert keys[s.cells[s.ids[id]]] == id;
      }
    }
    forall i, j | 0 <= i < j < s.sz ensures keys[i] != keys[j] {
      assert s.cells[s.heap[i].heapIdx] == i && s.cells[s.heap[j].heapIdx] == j;
    }
    DistinctSize(keys, m.Keys);
  }

  // ----- what one heap operation does to the state -----

  lemma AppendNode<T, Id>(idOf: T -> Id, s: State<T, Id>, item: T, time: int)
    requires Indexed(idOf, s) && s.sz < |s.heap| && idOf(item) !in s.ids
    ensures var heap := s.heap[s.sz := HeapNode(time, s.heap[s.sz].heapIdx, Some(item))];
      var t := State(s.cells, heap, s.sz + 1, s.ids[idOf(item) := s.heap[s.sz].heapIdx]);
      Indexed(idOf, t) && Contents(idOf, t) == Contents(idOf, s)[idOf(item) := Entry(item, time)]
  {
    assert s.cells[s.heap[s.sz].heapIdx] == s.sz;
  }

  lemma Reschedule<T, Id>(idOf: T -> Id, s: State<T, Id>, id: Id, time: int)
    requires Indexed(idOf, s) && id in s.ids
    ensures var k := s.cells[s.ids[id]];
      var t := s.(heap := s.heap[k := s.heap[k].(schedTime := time)]);
      Indexed(idOf, t) && Contents(idOf, t) == Contents(idOf, s)[id := Entry(Contents(idOf, s)[id].item, time)]
  {
    var k := s.cells[s.ids[id]];
    assert s.ids[id] == s.heap[k].heapIdx;
    forall id' | id' in s.ids && s.cells[s.ids[id']] == k ensures id' == id {}
  }

  /** Dropping the last live node together with its id. */
  lemma DropLastNode<T, Id>(idOf: T -> Id, s: State<T, Id>, id: Id)
    requires Indexed(idOf, s) && id in s.ids && s.cells[s.ids[id]] == s.sz - 1
    ensures var n := s.sz - 1;
      var t := State(s.cells, s.heap[n := HeapNode(0, s.heap[n].heapIdx, None)], n, s.ids - {id});
      Indexed(idOf, t) && Contents(idOf, t) == Contents(idOf, s) - {id}
  {
    var n := s.sz - 1;
    forall id' | id' in s.ids && s.cells[s.ids[id']] == n ensures id' == id {}
    forall i | 0 <= i < n ensures idOf(s.heap[i].item.value) != id {
      assert s.cells[s.heap[i].heapIdx] == i;
    }
  }

  class TemporalOrderedItemMap2<T, Id(==)> {
    const idOf: T -> Id
    const outdegreeSz: nat
    const heapIdxContainer: array<nat>
    var idHeapMap: map<Id, nat>
    var temporalHeap: seq<HeapNode<T>>
    var temporalHeapSz: nat

    /** The state, with `ids` for the id map. */
    ghost function StateWith(ids: map<Id, nat>): State<T, Id>
      reads this, heapIdxContainer
    {
      State(heapIdxContainer[..], temporalHeap, temporalHeapSz, ids)
    }

    ghost predicate Ordered()
      reads this
    {
      && outdegreeSz > 0 && temporalHeapSz <= |temporalHeap|
      && HeapOrdered(Times(temporalHeap), temporalHeapSz, outdegreeSz, Earlier)
    }

    ghost predicate Valid()
      reads this, heapIdxContainer
    {
      Indexed(idOf, StateWith(idHeapMap)) && Ordered()
    }

    ghost function Items(): map<Id, Entry<T>>
      requires Valid()
      reads this, heapIdxContainer
    {
      Contents(idOf, StateWith(idHeapMap))
    }

    constructor (cap: nat, idOf: T -> Id, outdegreeSz: nat)
      requires outdegreeSz > 0
      ensures Valid() && Items() == map[] && |temporalHeap| == cap
      ensures fresh(heapIdxContainer) && this.idOf == idOf
    {
      this.idOf, this.outdegreeSz := idOf, outdegreeSz;
      heapIdxContainer := new nat[cap](i => i);
      temporalHeap := seq(cap, i requires 0 <= i < cap => HeapNode(0, i, None));
      idHeapMap, temporalHeapSz := map[], 0;
    }

    // ----- heap repair -----

    method SwapHeapNode(i: nat, j: nat, ghost ids: map<Id, nat>)
      requires i < |temporalHeap| && j < |temporalHeap|
      requires CellsPointBack(heapIdxContainer[..], temporalHeap)
      modifies this`temporalHeap, heapIdxContainer
      ensures StateWith(ids) == SwapNodes(old(StateWith(ids)), i, j)
    {
      var p, q := temporalHeap[i].heapIdx, temporalHeap[j].heapIdx;
      heapIdxContainer[p], heapIdxContainer[q] := heapIdxContainer[q], heapIdxContainer[p];
      temporalHeap := temporalHeap[i := temporalHeap[j]][j := temporalHeap[i]];
      assert heapIdxContainer[..] == Swapped(old(heapIdxContainer[..]), p, q);
    }

    /** `correct_heap_node_up_at`; `ids` is the id map the nodes belong to while it is being changed. */
    method CorrectHeapNodeUpAt(idx: nat, ghost ids: map<Id, nat>)
      requires Indexed(idOf, StateWith(ids)) && idx < temporalHeapSz && outdegreeSz > 0
      requires HeapButAt(Times(temporalHeap), temporalHeapSz, outdegreeSz, Earlier, idx)
      modifies this`temporalHeap, heapIdxContainer
      ensures Indexed(idOf, StateWith(ids)) && Contents(idOf, StateWith(ids)) == old(Contents(idOf, StateWith(ids)))
      ensures |temporalHeap| == old(|temporalHeap|)
      ensures HeapButDown(Times(temporalHeap), temporalHeapSz, outdegreeSz, Earlier, 0, idx)
      ensures old(HeapButUp(Times(temporalHeap), temporalHeapSz, outdegreeSz, Earlier, idx)) ==> Ordered()
      decreases idx
    {
      EarlierIsTotal();
      if idx == 0 {
        AtToDown(Times(temporalHeap), temporalHeapSz, outdegreeSz, Earlier, idx);
        return;
      }
      var parentIdx := Parent(idx, outdegreeSz);
      if Earlier(temporalHeap[parentIdx].schedTime, temporalHeap[idx].schedTime) {
        AtToDown(Times(temporalHeap), temporalHeapSz, outdegreeSz, Earlier, idx);
        return;
      }
      AtToUp(Times(temporalHeap), temporalHeapSz, outdegreeSz, Earlier, idx);
      SwapKeepsContents(idOf, StateWith(ids), parentIdx, idx);
      SwapKeepsCells(StateWith(ids), parentIdx, idx);
      SwapHeapNode(parentIdx, idx, ids);
      ButUpIsButAt(Times(temporalHeap), temporalHeapSz, outdegreeSz, Earlier, parentIdx);
      CorrectHeapNodeUpAt(parentIdx, ids);
      OrderedIsButDown(Times(temporalHeap), temporalHeapSz, outdegreeSz, Earlier, idx);
    }

    /** The child scan of `correct_heap_node_down_at`. */
    method FindCandidate(idx: nat) returns (candIdx: Option<nat>)
      requires idx < temporalHeapSz <= |temporalHeap| && outdegreeSz > 0
      ensures candIdx.None? ==> idx * outdegreeSz + 1 >= temporalHeapSz
      ensures candIdx.Some? ==> IsBestChild(Times(temporalHeap), temporalHeapSz, outdegreeSz, Earlier, idx, candIdx.value)
    {
      candIdx := None;
      var i := 0;
      while i < outdegreeSz
        invariant i <= outdegreeSz && (candIdx.None? <==> i == 0)
        invariant candIdx.Some? ==> idx * outdegreeSz + 1 < temporalHeapSz
        invariant candIdx.Some? ==> candIdx.value == BestChild(Times(temporalHeap), temporalHeapSz, outdegreeSz, Earlier, idx, i)
      {
        var childIdx := idx * outdegreeSz + (i + 1);
        if childIdx >= temporalHeapSz {
          if i > 0 {
            NoMoreChildren(Times(temporalHeap), temporalHeapSz, outdegreeSz, Earlier, idx, i, outdegreeSz);
          }
          break;
        }
        if candIdx.None? || Earlier(temporalHeap[childIdx].schedTime, temporalHeap[candIdx.value].schedTime) {
          candIdx := Some(childIdx);
        }
        i := i + 1;
      }
      if candIdx.Some? {
        EarlierIsTotal();
        ScanFindsBestChild(Times(temporalHeap), temporalHeapSz, outdegreeSz, Earlier, idx);
      }
    }

    method CorrectHeapNodeDownAt(idx: nat, ghost ids: map<Id, nat>)
      requires Indexed(idOf, StateWith(ids)) && idx < temporalHeapSz && outdegreeSz > 0
      requires HeapButDown(Times(temporalHeap), temporalHeapSz, outdegreeSz, Earlier, 0, idx)
      modifies this`temporalHeap, heapIdxContainer
      ensures Indexed(idOf, StateWith(ids)) && Contents(idOf, StateWith(ids)) == old(Contents(idOf, StateWith(ids)))
      ensures |temporalHeap| == old(|temporalHeap|)
      ensures Ordered()
      decreases temporalHeapSz - idx
    {
      EarlierIsTotal();
      var candIdx := FindCandidate(idx);
      if candIdx.None? {
        PushDownLeaf(Times(temporalHeap), idx, temporalHeapSz, outdegreeSz, Earlier, 0);
        return;
      }
      var cand := candIdx.value;
      if Earlier(temporalHeap[idx].schedTime, temporalHeap[cand].schedTime) {
        PushDownStop(Times(temporalHeap), idx, temporalHeapSz, outdegreeSz, Earlier, 0, cand);
        return;
      }
      PushDownStep(Times(temporalHeap), idx, temporalHeapSz, outdegreeSz, Earlier, 0, cand);
      SwapKeepsContents(idOf, StateWith(ids), idx, cand);
      SwapKeepsCells(StateWith(ids), idx, cand);
      SwapHeapNode(idx, cand, ids);
      CorrectHeapNodeDownAt(cand, ids);
    }

    method CorrectHeapNodeAt(idx: nat, ghost ids: map<Id, nat>)
      requires Indexed(idOf, StateWith(ids)) && idx < temporalHeapSz && outdegreeSz > 0
      requires HeapButAt(Times(temporalHeap), temporalHeapSz, outdegreeSz, Earlier, idx)
      modifies this`temporalHeap, heapIdxContainer
      ensures Indexed(idOf, StateWith(ids)) && Contents(idOf, StateWith(ids)) == old(Contents(idOf, StateWith(ids)))
      ensures |temporalHeap| == old(|temporalHeap|)
      ensures Ordered()
    {
      CorrectHeapNodeUpAt(idx, ids);
      CorrectHeapNodeDownAt(idx, ids);
    }

    /** `decomission_back_heap_node`; the id map has already lost its id. */
    method DecommissionBackHeapNode(ghost id: Id, ghost ids: map<Id, nat>)
      requires Indexed(idOf, StateWith(ids)) && id in ids
      requires heapIdxContainer[..][ids[id]] == temporalHeapSz - 1
      modifies this`temporalHeap, this`temporalHeapSz
      ensures Indexed(idOf, StateWith(ids - {id}))
      ensures Contents(idOf, StateWith(ids - {id})) == old(Contents(idOf, StateWith(ids))) - {id}
      ensures |temporalHeap| == old(|temporalHeap|) && temporalHeapSz == old(temporalHeapSz) - 1
      ensures forall i :: 0 <= i < temporalHeapSz ==> Times(temporalHeap)[i] == old(Times(temporalHeap))[i]
    {
      DropLastNode(idOf, StateWith(ids), id);
      var n := temporalHeapSz - 1;
      temporalHeap := temporalHeap[n := HeapNode(0, temporalHeap[n].heapIdx, None)];
      temporalHeapSz := n;
    }

    method EraseHeapNodeAt(idx: nat, ghost id: Id, ghost ids: map<Id, nat>)
      requires Indexed(idOf, StateWith(ids)) && Ordered()
      requires id in ids && heapIdxContainer[..][ids[id]] == idx
      modifies this`temporalHeap, this`temporalHeapSz, heapIdxContainer
      ensures Indexed(idOf, StateWith(ids - {id})) && Ordered()
      ensures Contents(idOf, StateWith(ids - {id})) == old(Contents(idOf, StateWith(ids))) - {id}
      ensures |temporalHeap| == old(|temporalHeap|)
    {
      RemoveThroughBack(idx, id, ids);
      if idx < temporalHeapSz {
        CorrectHeapNodeAt(idx, ids - {id});
      }
    }

    /** The node changes places with the last live one, which is then dropped: order can fail at `idx` only. */
    method RemoveThroughBack(idx: nat, ghost id: Id, ghost ids: map<Id, nat>)
      requires Indexed(idOf, StateWith(ids)) && Ordered()
      requires id in ids && heapIdxContainer[..][ids[id]] == idx
      modifies this`temporalHeap, this`temporalHeapSz, heapIdxContainer
      ensures Indexed(idOf, StateWith(ids - {id})) && |temporalHeap| == old(|temporalHeap|) && temporalHeapSz == old(temporalHeapSz) - 1
      ensures Contents(idOf, StateWith(ids - {id})) == old(Contents(idOf, StateWith(ids))) - {id}
      ensures outdegreeSz > 0 && temporalHeapSz <= |temporalHeap|
      ensures HeapButAt(Times(temporalHeap), temporalHeapSz, outdegreeSz, Earlier, idx)
    {
      var backNodeIdx := temporalHeapSz - 1;
      SwapToBack(idx, id, ids);
      DecommissionBackHeapNode(id, ids);
      EarlierIsTotal();
      ReplacedOne(old(Times(temporalHeap)), backNodeIdx + 1, Times(temporalHeap), backNodeIdx, outdegreeSz, Earlier, idx);
    }

    method SwapToBack(idx: nat, ghost id: Id, ghost ids: map<Id, nat>)
      requires Indexed(idOf, StateWith(ids))
      requires id in ids && heapIdxContainer[..][ids[id]] == idx
      modifies this`temporalHeap, heapIdxContainer
      ensures Indexed(idOf, StateWith(ids)) && Contents(idOf, StateWith(ids)) == old(Contents(idOf, StateWith(ids)))
      ensures heapIdxContainer[..][ids[id]] == temporalHeapSz - 1
      ensures |temporalHeap| == old(|temporalHeap|)
      ensures forall i :: 0 <= i < temporalHeapSz - 1 && i != idx ==> Times(temporalHeap)[i] == old(Times(temporalHeap))[i]
    {
      ghost var s := StateWith(ids);
      assert ids[id] == temporalHeap[idx].heapIdx;
      SwapKeepsContents(idOf, s, idx, temporalHeapSz - 1);
      SwapHeapNode(idx, temporalHeapSz - 1, ids);
    }

    /** `enqueue_back_heap_node` where there is room, and the cell of the new node. */
    method EnqueueBackHeapNode(item: T, schedTime: int) returns (addrReference: nat)
      requires Valid() && temporalHeapSz < |temporalHeap| && idOf(item) !in idHeapMap
      modifies this`temporalHeap, this`temporalHeapSz
      ensures var ids := idHeapMap[idOf(item) := addrReference];
        Indexed(idOf, StateWith(ids)) && Contents(idOf, StateWith(ids)) == old(Items())[idOf(item) := Entry(item, schedTime)]
      ensures |temporalHeap| == old(|temporalHeap|) && temporalHeapSz == old(temporalHeapSz) + 1
      ensures HeapButUp(Times(temporalHeap), temporalHeapSz, outdegreeSz, Earlier, temporalHeapSz - 1)
      ensures HeapButAt(Times(temporalHeap), temporalHeapSz, outdegreeSz, Earlier, temporalHeapSz - 1)
    {
      AppendNode(idOf, StateWith(idHeapMap), item, schedTime);
      addrReference := temporalHeap[temporalHeapSz].heapIdx;
      temporalHeap := temporalHeap[temporalHeapSz := HeapNode(schedTime, addrReference, Some(item))];
      temporalHeapSz := temporalHeapSz + 1;
      AppendedOne(old(Times(temporalHeap)), Times(temporalHeap), temporalHeapSz - 1, outdegreeSz, Earlier);
      ButUpIsButAt(Times(temporalHeap), temporalHeapSz, outdegreeSz, Earlier, temporalHeapSz - 1);
    }

    // ----- the queue operations -----

    method Add(item: T, expiryTime: int) returns (status: Status)
      requires Valid()
      modifies this, heapIdxContainer
      ensures Valid() && |temporalHeap| == old(|temporalHeap|)
      ensures Adds(idOf, |temporalHeap|, old(Items()), item, expiryTime, status, Items())
    {
      ContentsSize(idOf, StateWith(idHeapMap));
      var id := idOf(item);
      if id in idHeapMap {
        return DUPLICATED_ENTRY;
      }
      if temporalHeapSz == |temporalHeap| {
        return RESOURCE_EXHAUSTION;
      }
      var addrReference := EnqueueBackHeapNode(item, expiryTime);
      CorrectHeapNodeUpAt(temporalHeapSz - 1, idHeapMap[id := addrReference]);
      idHeapMap := idHeapMap[id := addrReference];
      return SUCCESS;
    }

    method Update(itemId: Id, expiryTime: int) returns (status: Status)
      requires Valid()
      modifies this, heapIdxContainer
      ensures Valid() && |temporalHeap| == old(|temporalHeap|)
      ensures Updates(old(Items()), itemId, expiryTime, status, Items())
    {
      if itemId !in idHeapMap {
        return INVALID_DICTIONARY_KEY;
      }
      EarlierIsTotal();
      Reschedule(idOf, StateWith(idHeapMap), itemId, expiryTime);
      var idx := heapIdxContainer[idHeapMap[itemId]];
      ghost var times := Times(temporalHeap);
      temporalHeap := temporalHeap[idx := temporalHeap[idx].(schedTime := expiryTime)];
      ReplacedOne(times, temporalHeapSz, Times(temporalHeap), temporalHeapSz, outdegreeSz, Earlier, idx);
      CorrectHeapNodeAt(idx, idHeapMap);
      return SUCCESS;
    }

    method AddOrUpdate(item: T, expiryTime: int) returns (status: Status)
      requires Valid()
      modifies this, heapIdxContainer
      ensures Valid() && |temporalHeap| == old(|temporalHeap|)
      ensures AddsOrUpdates(idOf, |temporalHeap|, old(Items()), item, expiryTime, status, Items())
    {
      if idOf(item) in idHeapMap {
        status := Update(idOf(item), expiryTime);
      } else {
        status := Add(item, expiryTime);
      }
    }

    method Erase(itemId: Id)
      requires Valid()
      modifies this, heapIdxContainer
      ensures Valid() && |temporalHeap| == old(|temporalHeap|)
      ensures Items() == old(Items()) - {itemId}
    {
      if itemId !in idHeapMap {
        return;
      }
      var idx := heapIdxContainer[idHeapMap[itemId]];
      ghost var ids := idHeapMap;
      idHeapMap := idHeapMap - {itemId};
      EraseHeapNodeAt(idx, itemId, ids);
    }

    method GetExpiredItem(timeBar: int) returns (r: Option<T>)
      requires Valid()
      modifies this, heapIdxContainer
      ensures Valid() && |temporalHeap| == old(|temporalHeap|)
      ensures Expires(idOf, old(Items()), timeBar, r, Items())
    {
      FrontIsEarliest();
      if temporalHeapSz == 0 {
        return None;
      }
      if temporalHeap[0].schedTime >= timeBar {
        return None;
      }
      var x := temporalHeap[0].item.value;
      ghost var id, ids := idOf(x), idHeapMap;
      assert heapIdxContainer[..][temporalHeap[0].heapIdx] == 0;
      idHeapMap := idHeapMap - {idOf(x)};
      EraseHeapNodeAt(0, id, ids);
      return Some(x);
    }

    /** The loop by which the retransmission controller empties the queue into an array with room for `cap` items. */
    method DrainExpired(timeBar: int, cap: nat) returns (rs: seq<T>)
      requires Valid()
      modifies this, heapIdxContainer
      ensures Valid() && |temporalHeap| == old(|temporalHeap|)
      ensures Drained(idOf, timeBar, cap, old(Items()), rs, Items())
    {
      rs := [];
      while |rs| < cap
        invariant Valid() && |temporalHeap| == old(|temporalHeap|)
        invariant |rs| <= cap && Taken(idOf, timeBar, old(Items()), rs, Items())
        decreases cap - |rs|
      {
        ghost var before := Items();
        var nxt := GetExpiredItem(timeBar);
        if nxt.None? {
          DrainReturnsDue(idOf, timeBar, old(Items()), rs, Items());
          return;
        }
        TakenOneMore(idOf, timeBar, old(Items()), rs, before, nxt.value, Items());
        rs := rs + [nxt.value];
      }
    }

    method HasExpiredItem(timeBar: int) returns (b: bool)
      requires Valid()
      ensures b <==> exists id :: id in Items() && Items()[id].time < timeBar
    {
      FrontIsEarliest();
      if temporalHeapSz == 0 {
        return false;
      }
      assert heapIdxContainer[..][temporalHeap[0].heapIdx] == 0;
      assert idOf(temporalHeap[0].item.value) in Items();
      return temporalHeap[0].schedTime < timeBar;
    }

    lemma FrontIsEarliest()
      requires Valid()
      ensures temporalHeapSz == 0 ==> Items() == map[]
      ensures temporalHeapSz > 0 ==> forall id :: id in Items() ==> temporalHeap[0].schedTime <= Items()[id].time
    {
      EarlierIsTotal();
      if temporalHeapSz > 0 {
        forall id | id in Items() ensures temporalHeap[0].schedTime <= Items()[id].time {
          var k := heapIdxContainer[..][idHeapMap[id]];
          RootIsBest(Times(temporalHeap), temporalHeapSz, outdegreeSz, Earlier, k);
        }
      }
    }
  }
}
