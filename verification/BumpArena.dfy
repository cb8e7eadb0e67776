/** The bump arena of the key-value funnel: bytes, their alignment, and the event slots they make up. */
module BumpArena {
  import opened Options
  import opened FunnelStorage
  import opened PowersOfTwo

  const INITIAL_CAP: nat := 1
  const GROWTH_FACTOR: nat := 2
  const MAX_DELIVERABLE_CAP: nat := 0x4000_0000

  // ----- the bump allocator -----

  class BumpAllocatorResource {
    const head: nat       // address
    const cap: nat        // bytes
    var sz: nat

    constructor (head: nat, cap: nat)
      ensures this.head == head && this.cap == cap && sz == 0
    {
      this.head, this.cap, sz := head, cap, 0;
    }

    method Allocate(n: nat) returns (r: Option<nat>)
      modifies this
      ensures old(sz) + n > cap ==> r == None && sz == old(sz)
      ensures old(sz) + n <= cap ==> r == Some(head + old(sz)) && sz == old(sz) + n
    {
      var nxtSz := sz + n;
      if nxtSz > cap {
        return None;
      }
      r := Some(head + sz);
      sz := sz + n;
    }

    /** Moves the cursor by what the head, not the cursor, lacks to an aligned address. */
    method Align(alignment: nat) returns (ok: bool)
      requires alignment > 0
      modifies this
      ensures ok <==> old(sz) + AlignUp(head, alignment) - head <= cap
      ensures sz == old(sz) + if ok then AlignUp(head, alignment) - head else 0
    {
      var displacement := AlignUp(head, alignment) - head;
      if sz + displacement > cap {
        return false;
      }
      sz := sz + displacement;
      return true;
    }

    method Reset()
      modifies this
      ensures sz == 0
    {
      sz := 0;
    }
  }

  // ----- byte budget -----

  /** `delvrsrv_kv_get_event_container_memory_total_bcap` */
  function TotalBytes(eventSize: nat, eventAlign: nat, deliverableCap: nat): nat
  {
    if deliverableCap == 0 then 0 else
      var worstCaseCap := deliverableCap * (GROWTH_FACTOR * GROWTH_FACTOR);
      var cap := if worstCaseCap < INITIAL_CAP then INITIAL_CAP else worstCaseCap;
      eventAlign + cap * eventSize
  }

  /** Byte place of event slot `slot` in the arena. */
  function Cursor(head: nat, eventSize: nat, eventAlign: nat, slot: nat): nat
    requires eventAlign > 0
  {
    AlignUp(head, eventAlign) - head + slot * eventSize
  }

  /** Slots up to four per deliverable event lie in the byte budget, after alignment, and start at aligned addresses. */
  lemma SlotsFit(head: nat, eventSize: nat, eventAlign: nat, deliverableCap: nat, slot: nat)
    requires eventAlign > 0 && eventSize % eventAlign == 0
    requires 0 < deliverableCap && slot <= 4 * deliverableCap
    ensures Cursor(head, eventSize, eventAlign, slot) <= TotalBytes(eventSize, eventAlign, deliverableCap)
    ensures (head + Cursor(head, eventSize, eventAlign, slot)) % eventAlign == 0
  {
    var base, n := AlignUp(head, eventAlign), 4 * deliverableCap;
    SlotsWithin(slot, n, eventSize);
    MultiplesOfMultiple(slot, eventSize, eventAlign);
    assert head + Cursor(head, eventSize, eventAlign, slot) == base + slot * eventSize;
    SumOfMultiples(base, slot * eventSize, eventAlign);
  }

  lemma SlotsWithin(slot: nat, n: nat, size: nat)
    requires slot <= n
    ensures slot * size <= n * size
  {}

  lemma MultiplesOfMultiple(k: nat, x: nat, a: nat)
    requires a > 0 && x % a == 0
    ensures k * x % a == 0
  {
    var q := x / a;
    assert k * x == k * q * a;
    MultipleOf(k * q, a);
  }

  lemma SumOfMultiples(x: nat, y: nat, a: nat)
    requires a > 0 && x % a == 0 && y % a == 0
    ensures (x + y) % a == 0
  {
    var p, q := x / a, y / a;
    assert x + y == (p + q) * a;
    MultipleOf(p + q, a);
  }

  /** The bytes of a bump allocator seen as event slots, from its first aligned address on. */
  class EventArena<E> {
    const bumpAllocator: BumpAllocatorResource
    const slots: array<E>
    const eventSize: nat
    const eventAlign: nat
    const deliverableCap: nat
    const blank: E                  // a default-constructed event
    ghost var used: nat

    ghost predicate Valid()
      reads this, bumpAllocator
    {
      && eventAlign > 0 && eventSize > 0 && eventSize % eventAlign == 0
      && bumpAllocator.cap == TotalBytes(eventSize, eventAlign, deliverableCap)
      && (deliverableCap == 0 ==> bumpAllocator.head == 0)
      && slots.Length == 4 * deliverableCap
      && used <= slots.Length
      && bumpAllocator.sz == Cursor(bumpAllocator.head, eventSize, eventAlign, used)
    }

    constructor (deliverableCap: nat, buf: nat, eventSize: nat, eventAlign: nat, blank: E)
      requires eventAlign > 0 && eventSize > 0 && eventSize % eventAlign == 0
      ensures Valid() && used == 0 && this.deliverableCap == deliverableCap
      ensures fresh(bumpAllocator) && fresh(slots)
    {
      this.deliverableCap, this.eventSize, this.eventAlign, this.blank, used := deliverableCap, eventSize, eventAlign, blank, 0;
      bumpAllocator := new BumpAllocatorResource(if deliverableCap == 0 then 0 else buf, TotalBytes(eventSize, eventAlign, deliverableCap));
      slots := new E[4 * deliverableCap](_ => blank);
      new;
      StartFits(bumpAllocator.head, eventSize, eventAlign, deliverableCap);
      var ok := bumpAllocator.Align(eventAlign);
      assert ok;
    }

    /** `bump_allocator_reset` and the alignment of the cursor, which cannot fail. */
    method Reset()
      requires Valid()
      modifies this, bumpAllocator
      ensures Valid() && used == 0
    {
      StartFits(bumpAllocator.head, eventSize, eventAlign, deliverableCap);
      used := 0;
      bumpAllocator.Reset();
      var ok := bumpAllocator.Align(eventAlign);
      assert ok;
    }

    /** `bump_allocator_allocate` for `cap` events: with at most four slots an event it is never exhausted. */
    method Allocate(cap: nat) returns (slot: nat)
      requires Valid() && deliverableCap > 0 && used + cap <= 4 * deliverableCap
      modifies this, bumpAllocator
      ensures Valid() && slot == old(used) && used == old(used) + cap
    {
      var head := bumpAllocator.head;
      SlotsFit(head, eventSize, eventAlign, deliverableCap, used + cap);
      assert (used + cap) * eventSize == used * eventSize + cap * eventSize;
      MultipleOf(used, eventSize);
      var buf := bumpAllocator.Allocate(cap * eventSize);
      if buf == None {
        assert false;
      }
      slot := (buf.value - AlignUp(head, eventAlign)) / eventSize;
      used := used + cap;
    }

    /** An array of `cap` default-constructed events. */
    method MakeContainer(cap: nat) returns (c: Container)
      requires Valid() && deliverableCap > 0 && used + cap <= 4 * deliverableCap
      modifies this, bumpAllocator, slots
      ensures Valid() && c == Container(old(used), 0, cap) && used == old(used) + cap
      ensures slots[..][..old(used)] == old(slots[..])[..old(used)]
    {
      ghost var first := used;
      var slot := Allocate(cap);
      for i := 0 to cap
        invariant forall j :: 0 <= j < first ==> slots[j] == old(slots[j])
        modifies slots
      {
        slots[slot + i] := blank;
      }
      c := Container(slot, 0, cap);
    }

    /** The move of the events of `c` into the front of a container above `u`. */
    method MoveEvents(c: Container, req: Container, ghost u: nat)
      requires InSlots(c, u) && u <= req.ptr && c.sz <= req.cap && req.ptr + req.cap <= slots.Length
      modifies slots
      ensures slots[..][..u] == old(slots[..])[..u]
      ensures slots[..][req.ptr..req.ptr + c.sz] == old(slots[..])[c.ptr..c.ptr + c.sz]
    {
      ghost var held := slots[c.ptr..c.ptr + c.sz];
      for i := 0 to c.sz
        invariant slots[..u] == old(slots[..u])
        invariant slots[req.ptr..req.ptr + i] == held[..i]
      {
        assert slots[c.ptr + i] == slots[..u][c.ptr + i] == old(slots[..u])[c.ptr + i] == held[i];
        slots[req.ptr + i] := slots[c.ptr + i];
        assert slots[req.ptr..req.ptr + (i + 1)] == slots[req.ptr..req.ptr + i] + [held[i]];
      }
      assert slots[..][req.ptr..req.ptr + c.sz] == slots[req.ptr..req.ptr + c.sz];
    }

    /** A container of twice the capacity with the events of `c` moved into it. */
    method DoubleContainer(c: Container) returns (req: Container)
      requires Valid() && deliverableCap > 0 && InSlots(c, used) && used + 2 * c.cap <= 4 * deliverableCap
      modifies this, bumpAllocator, slots
      ensures Valid() && req == Container(old(used), c.sz, 2 * c.cap) && used == old(used) + 2 * c.cap
      ensures slots[..][..old(used)] == old(slots[..])[..old(used)]
      ensures slots[..][old(used)..old(used) + c.sz] == Held(c, old(slots[..]))
    {
      ghost var u, mem := used, slots[..];
      req := MakeContainer(c.cap * GROWTH_FACTOR);
      ghost var mid := slots[..];
      MoveEvents(c, req, u);
      SameSlice(mem, mid, u, c.ptr, c.ptr + c.sz);
      req := Container(req.ptr, c.sz, req.cap);
    }
  }

  lemma SameSlice<E>(a: seq<E>, b: seq<E>, u: nat, lo: nat, hi: nat)
    requires lo <= hi <= u <= |a| && u <= |b| && a[..u] == b[..u]
    ensures a[lo..hi] == b[lo..hi]
  {
    assert a[lo..hi] == a[..u][lo..hi] && b[lo..hi] == b[..u][lo..hi];
  }

  lemma StartFits(head: nat, eventSize: nat, eventAlign: nat, deliverableCap: nat)
    requires eventAlign > 0 && eventSize % eventAlign == 0
    ensures deliverableCap > 0 || head == 0 ==>
      Cursor(head, eventSize, eventAlign, 0) <= TotalBytes(eventSize, eventAlign, deliverableCap)
  {
    if deliverableCap > 0 {
      SlotsFit(head, eventSize, eventAlign, deliverableCap, 0);
    } else {
      assert (0 + eventAlign - 1) / eventAlign == 0;
    }
  }
}
