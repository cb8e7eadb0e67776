/** The layered allocator as a step machine: the moves of every thread, in any order, and what every run of them keeps. */
module AllocatorSteps {
  import opened Options
  import opened BufferLedger

  /** What a thread does in one go: `TakeListed`, `MakeBuffer` and `GiveBack` in a shard's critical section, the header
      writes, the moves of its own cache, and the moment a buffer passes to a user or comes back from one. */
  datatype Op =
    | TakeListed(k: nat, b: nat)
    | MakeBuffer(k: nat, b: nat)
    | WriteField(p: Ptr, f: Field)
    | GiveBack(p: Ptr)
    | PopFront(s: nat)
    | PopBack(s: nat)
    | PushBack(s: nat, p: Ptr)
    | PopFree
    | PushFree(p: Ptr)
    | OpenQueue(s: nat)
    | CloseQueue(s: nat)
    | HandOut(p: Ptr)
    | TakeBack(p: Ptr)

  /** `op` by thread `t` */
  datatype Event = Event(t: nat, op: Op)

  // ----- the steps -----

  predicate InHand(st: State, t: nat, p: Ptr)
  {
    p in st.place && st.place[p] == Busy(t) && p in st.header && p in st.home
  }

  /** A buffer in a call's hands: what its header says, and where it came from. */
  datatype Held = Held(header: Header, home: Home)

  /** The header leads the buffer home. */
  predicate Homing(x: Held) { x.header.shard == Some(x.home.k) }

  predicate HasQueue(st: State, t: nat, s: nat)
  {
    t < |st.caches| && s in st.caches[t].cacheMap
  }

  /** The free buffers of a bucket. */
  ghost function ListOf(st: State, k: nat, b: nat): seq<Ptr> { SeqAt(st.shards, st.caches, Listed(k, b)) }

  /** When the code of thread `t` takes a step; a buffer is made only when the bucket has no free one. */
  ghost predicate Enabled(st: State, e: Event)
  {
    var t := e.t;
    t < |st.caches| &&
    match e.op
    case TakeListed(k, b) => k < SHARDS && k < |st.shards| && b in st.shards[k].unitMap && st.shards[k].unitMap[b] != []
    case MakeBuffer(k, b) => k < SHARDS && k < |st.shards| && MIN_POW2_VALUE <= b && ListOf(st, k, b) == []
    case WriteField(p, f) => InHand(st, t, p) && Fitting(Rewritten(st.header[p], f))
    case GiveBack(p) =>
      && InHand(st, t, p) && Homing(Held(st.header[p], st.home[p]))
      && st.header[p].shard.value < |st.shards| && st.header[p].bucket in st.shards[st.header[p].shard.value].unitMap
    case PopFront(s) => HasQueue(st, t, s) && st.caches[t].cacheMap[s] != []
    case PopBack(s) => HasQueue(st, t, s) && st.caches[t].cacheMap[s] != []
    case PushBack(s, p) =>
      && InHand(st, t, p) && Homing(Held(st.header[p], st.home[p])) && FitsQueue(st.header[p], s)
      && HasQueue(st, t, s) && |st.caches[t].cacheMap[s]| < QUEUE_CAPACITY
    case PopFree => st.caches[t].freeVec != []
    case PushFree(p) => InHand(st, t, p) && Homing(Held(st.header[p], st.home[p])) && |st.caches[t].freeVec| < FREE_VEC_CAPACITY
    case OpenQueue(s) => !HasQueue(st, t, s) && st.caches[t].poolVec > 0 && 0 < s < UINT32_BOUND
    case CloseQueue(s) => HasQueue(st, t, s) && st.caches[t].cacheMap[s] == []
    case HandOut(p) => InHand(st, t, p) && HeadOk(st.header[p], Live, st.home[p])
    case TakeBack(p) => p in st.place && st.place[p] == Live
  }

  // ----- what each step leads to -----

  ghost function Taken(st: State, t: nat, k: nat, b: nat): State
    requires k < |st.shards| && b in st.shards[k].unitMap && st.shards[k].unitMap[b] != []
  {
    var ps := st.shards[k].unitMap[b];
    st.(shards := WithList(st.shards, k, b, ps[..|ps| - 1]), place := st.place[ps[|ps| - 1] := Busy(t)])
  }

  ghost function FieldWritten(st: State, p: Ptr, f: Field): State
    requires p in st.header
  {
    st.(header := st.header[p := Rewritten(st.header[p], f)])
  }

  /** The shard and the bucket are those in the header. */
  ghost function GivenBack(st: State, p: Ptr): State
    requires p in st.header && st.header[p].shard.Some? && st.header[p].shard.value < |st.shards|
    requires st.header[p].bucket in st.shards[st.header[p].shard.value].unitMap
  {
    var k, b := st.header[p].shard.value, st.header[p].bucket;
    st.(shards := WithList(st.shards, k, b, st.shards[k].unitMap[b] + [p]), place := st.place[p := Listed(k, b)])
  }

  ghost function FrontPopped(st: State, t: nat, s: nat): State
    requires HasQueue(st, t, s) && st.caches[t].cacheMap[s] != []
  {
    var q := st.caches[t].cacheMap[s];
    st.(caches := WithQueue(st.caches, t, s, q[1..]), place := st.place[q[0] := Busy(t)])
  }

  ghost function BackPopped(st: State, t: nat, s: nat): State
    requires HasQueue(st, t, s) && st.caches[t].cacheMap[s] != []
  {
    var q := st.caches[t].cacheMap[s];
    st.(caches := WithQueue(st.caches, t, s, q[..|q| - 1]), place := st.place[q[|q| - 1] := Busy(t)])
  }

  ghost function BackPushed(st: State, t: nat, s: nat, p: Ptr): State
    requires HasQueue(st, t, s)
  {
    st.(caches := WithQueue(st.caches, t, s, st.caches[t].cacheMap[s] + [p]), place := st.place[p := Cached(t, s)])
  }

  ghost function FreePopped(st: State, t: nat): State
    requires t < |st.caches| && st.caches[t].freeVec != []
  {
    var v := st.caches[t].freeVec;
    st.(caches := WithFreeVec(st.caches, t, v[1..]), place := st.place[v[0] := Busy(t)])
  }

  ghost function FreePushed(st: State, t: nat, p: Ptr): State
    requires t < |st.caches|
  {
    st.(caches := WithFreeVec(st.caches, t, st.caches[t].freeVec + [p]), place := st.place[p := Freeing(t)])
  }

  ghost function QueueOpened(st: State, t: nat, s: nat): State
    requires t < |st.caches| && st.caches[t].poolVec > 0
  {
    st.(caches := st.caches[t := Opened(st.caches[t], s)])
  }

  ghost function QueueClosed(st: State, t: nat, s: nat): State
    requires t < |st.caches|
  {
    st.(caches := st.caches[t := Closed(st.caches[t], s)])
  }

  ghost function Placed(st: State, p: Ptr, to: Place): State
  {
    st.(place := st.place[p := to])
  }

  ghost function After(st: State, e: Event): State
    requires Enabled(st, e)
  {
    match e.op
    case TakeListed(k, b) => Taken(st, e.t, k, b)
    case MakeBuffer(k, b) => WithBuffer(st, e.t, k, b)
    case WriteField(p, f) => FieldWritten(st, p, f)
    case GiveBack(p) => GivenBack(st, p)
    case PopFront(s) => FrontPopped(st, e.t, s)
    case PopBack(s) => BackPopped(st, e.t, s)
    case PushBack(s, p) => BackPushed(st, e.t, s, p)
    case PopFree => FreePopped(st, e.t)
    case PushFree(p) => FreePushed(st, e.t, p)
    case OpenQueue(s) => QueueOpened(st, e.t, s)
    case CloseQueue(s) => QueueClosed(st, e.t, s)
    case HandOut(p) => Placed(st, p, Live)
    case TakeBack(p) => Placed(st, p, Busy(e.t))
  }

  /** The buffer given back last is the next one its bucket hands out, and the shards are then as before. */
  lemma GivenIsTakenNext(st: State, t: nat, p: Ptr)
    requires p in st.header && st.header[p].shard.Some? && st.header[p].shard.value < |st.shards|
    requires st.header[p].bucket in st.shards[st.header[p].shard.value].unitMap
    ensures var k, b := st.header[p].shard.value, st.header[p].bucket;
      Taken(GivenBack(st, p), t, k, b) == st.(place := st.place[p := Busy(t)])
  {
    var k, b := st.header[p].shard.value, st.header[p].bucket;
    var m := st.shards[k].unitMap;
    assert (m[b] + [p])[..|m[b]|] == m[b];
    assert m[b := m[b] + [p]][b := m[b]] == m;
    assert st.shards[k].(unitMap := m) == st.shards[k];
  }

  /** A spare queue given the size `s`. */
  function Opened(c: Cache, s: nat): Cache
    requires c.poolVec > 0
  {
    Cache(c.poolVec - 1, c.cacheMap[s := []], c.freeVec)
  }

  /** The queue of size `s` spare again. */
  function Closed(c: Cache, s: nat): Cache
  {
    Cache(c.poolVec + 1, c.cacheMap - {s}, c.freeVec)
  }

  // ----- every step keeps the books -----

  /** The books are right, every header fits its buffer, and every cache is within its bounds. */
  ghost predicate Sound(st: State)
  {
    Books(st) && Exact(st.header) && forall t :: 0 <= t < |st.caches| ==> Sized(st.caches[t])
  }

  lemma {:induction false} OpenedIsSized(c: Cache, s: nat)
    requires Sized(c) && s !in c.cacheMap && c.poolVec > 0 && 0 < s < UINT32_BOUND
    ensures Sized(Opened(c, s))
  {
    var c' := Opened(c, s);
    assert c'.cacheMap.Keys == c.cacheMap.Keys + {s};
    forall r | r in c'.cacheMap ensures QueueSized(c', r) {
      assert r != s ==> QueueSized(c, r);
    }
  }

  lemma {:induction false} ClosedIsSized(c: Cache, s: nat)
    requires Sized(c) && s in c.cacheMap
    ensures Sized(Closed(c, s))
  {
    var c' := Closed(c, s);
    assert c.cacheMap.Keys == c'.cacheMap.Keys + {s};
    forall r | r in c'.cacheMap ensures QueueSized(c', r) {
      assert QueueSized(c, r);
    }
  }

  lemma {:induction false} QueueSetIsSized(c: Cache, s: nat, q: seq<Ptr>)
    requires Sized(c) && s in c.cacheMap && |q| <= QUEUE_CAPACITY
    ensures Sized(c.(cacheMap := c.cacheMap[s := q]))
  {
    var c' := c.(cacheMap := c.cacheMap[s := q]);
    assert c'.cacheMap.Keys == c.cacheMap.Keys && QueueSized(c, s);
    forall r | r in c'.cacheMap ensures QueueSized(c', r) {
      assert QueueSized(c, r);
    }
  }

  lemma {:induction false} FreeVecSetIsSized(c: Cache, v: seq<Ptr>)
    requires Sized(c) && |v| <= FREE_VEC_CAPACITY
    ensures Sized(c.(freeVec := v))
  {
    forall r | r in c.cacheMap ensures QueueSized(c.(freeVec := v), r) {
      assert QueueSized(c, r);
    }
  }

  lemma {:induction false} TakeStepIsSound(st: State, e: Event)
    requires Sound(st) && Enabled(st, e) && e.op.TakeListed?
    ensures Sound(After(st, e))
  {
    TakeKeepsBooks(st, e.op.k, e.op.b, e.t);
  }

  lemma {:induction false} GiveStepIsSound(st: State, e: Event)
    requires Sound(st) && Enabled(st, e) && e.op.GiveBack?
    ensures Sound(After(st, e))
  {
    BucketAtHome(st, e.op.p);
    GiveKeepsBooks(st, e.op.p);
  }

  lemma {:induction false} MakeStepIsSound(st: State, t: nat, k: nat, b: nat)
    requires Sound(st) && k < SHARDS && MIN_POW2_VALUE <= b
    ensures k < |st.shards| && Sound(WithBuffer(st, t, k, b))
  {
    MakeKeepsBooks(st, t, k, b);
  }

  lemma {:induction false} WriteStepIsSound(st: State, p: Ptr, f: Field)
    requires Sound(st) && p in st.header && p in st.place && st.place[p].Busy? && Fitting(Rewritten(st.header[p], f))
    ensures Sound(FieldWritten(st, p, f))
  {
    BucketAtHome(st, p);
    assert st.place[p := st.place[p]] == st.place;
    WriteKeepsBooks(st, p, Rewritten(st.header[p], f), st.place[p]);
  }

  lemma {:induction false} PassStepIsSound(st: State, p: Ptr, to: Place)
    requires Sound(st) && p in st.header && p in st.place && p in st.home && Out(st.place[p]) && Out(to)
    requires HeadOk(st.header[p], to, st.home[p])
    ensures Sound(Placed(st, p, to))
  {
    assert st.header[p := st.header[p]] == st.header;
    WriteKeepsBooks(st, p, st.header[p], to);
  }

  lemma {:induction false} OutStepIsSound(st: State, e: Event)
    requires Sound(st) && Enabled(st, e) && (e.op.WriteField? || e.op.HandOut? || e.op.TakeBack?)
    ensures Sound(After(st, e))
  {
    BucketAtHome(st, e.op.p);
    match e.op
    case WriteField(p, f) => WriteStepIsSound(st, p, f);
    case HandOut(p) => PassStepIsSound(st, p, Live);
    case TakeBack(p) => PassStepIsSound(st, p, Busy(e.t));
    case _ =>
  }

  lemma {:induction false} QueueTakenIsSound(st: State, t: nat, s: nat, p: Ptr, q: seq<Ptr>)
    requires Sound(st) && HasQueue(st, t, s) && TakenOut(st.caches[t].cacheMap[s], q, p)
    ensures Sound(st.(caches := WithQueue(st.caches, t, s, q), place := st.place[p := Busy(t)]))
  {
    assert QueueSized(st.caches[t], s);
    PopKeepsBooks(st, t, s, p, q);
    QueueSetIsSized(st.caches[t], s, q);
  }

  lemma {:induction false} PopStepIsSound(st: State, e: Event)
    requires Sound(st) && Enabled(st, e) && (e.op.PopFront? || e.op.PopBack?)
    ensures Sound(After(st, e))
  {
    var q := st.caches[e.t].cacheMap[e.op.s];
    if e.op.PopFront? {
      assert q == [q[0]] + q[1..];
      QueueTakenIsSound(st, e.t, e.op.s, q[0], q[1..]);
    } else {
      assert q == q[..|q| - 1] + [q[|q| - 1]];
      QueueTakenIsSound(st, e.t, e.op.s, q[|q| - 1], q[..|q| - 1]);
    }
  }

  lemma {:induction false} PushStepIsSound(st: State, e: Event)
    requires Sound(st) && Enabled(st, e) && e.op.PushBack?
    ensures Sound(After(st, e))
  {
    var c := st.caches[e.t];
    PushKeepsBooks(st, e.t, e.op.s, e.op.p);
    QueueSetIsSized(c, e.op.s, c.cacheMap[e.op.s] + [e.op.p]);
  }

  lemma {:induction false} PopFreeStepIsSound(st: State, e: Event)
    requires Sound(st) && Enabled(st, e) && e.op.PopFree?
    ensures Sound(After(st, e))
  {
    UnreleaseKeepsBooks(st, e.t);
    FreeVecSetIsSized(st.caches[e.t], st.caches[e.t].freeVec[1..]);
  }

  lemma {:induction false} PushFreeStepIsSound(st: State, e: Event)
    requires Sound(st) && Enabled(st, e) && e.op.PushFree?
    ensures Sound(After(st, e))
  {
    ReleaseKeepsBooks(st, e.t, e.op.p);
    FreeVecSetIsSized(st.caches[e.t], st.caches[e.t].freeVec + [e.op.p]);
  }

  lemma {:induction false} OpenStepIsSound(st: State, t: nat, s: nat)
    requires Sound(st) && t < |st.caches| && s !in st.caches[t].cacheMap && st.caches[t].poolVec > 0 && 0 < s < UINT32_BOUND
    ensures Sound(QueueOpened(st, t, s))
  {
    OpenedIsSized(st.caches[t], s);
    EmptyQueueKeepsBooks(st, t, s, Opened(st.caches[t], s));
  }

  lemma {:induction false} CloseStepIsSound(st: State, t: nat, s: nat)
    requires Sound(st) && HasQueue(st, t, s) && st.caches[t].cacheMap[s] == []
    ensures Sound(QueueClosed(st, t, s))
  {
    ClosedIsSized(st.caches[t], s);
    EmptyQueueKeepsBooks(st, t, s, Closed(st.caches[t], s));
  }

  /** Whatever a thread does next, every buffer stays filed at exactly one place, apart from all others, with a header
      that leads it home, and every list and queue within its room. */
  lemma {:induction false} StepIsSound(st: State, e: Event)
    requires Sound(st) && Enabled(st, e)
    ensures Sound(After(st, e))
  {
    match e.op
    case TakeListed(_, _) => TakeStepIsSound(st, e);
    case GiveBack(_) => GiveStepIsSound(st, e);
    case MakeBuffer(k, b) => MakeStepIsSound(st, e.t, k, b);
    case WriteField(_, _) => OutStepIsSound(st, e);
    case HandOut(_) => OutStepIsSound(st, e);
    case TakeBack(_) => OutStepIsSound(st, e);
    case PopFront(_) => PopStepIsSound(st, e);
    case PopBack(_) => PopStepIsSound(st, e);
    case PushBack(_, _) => PushStepIsSound(st, e);
    case PopFree => PopFreeStepIsSound(st, e);
    case PushFree(_) => PushFreeStepIsSound(st, e);
    case OpenQueue(s) => OpenStepIsSound(st, e.t, s);
    case CloseQueue(s) => CloseStepIsSound(st, e.t, s);
  }

  // ----- what a thread sees -----

  ghost function Hands(st: State, t: nat): map<Ptr, Held>
  {
    map p | p in st.place && p in st.header && p in st.home && st.place[p] == Busy(t) :: Held(st.header[p], st.home[p])
  }

  /** The buffer that a step moves or writes in, unless the step is about an empty queue. */
  ghost function Touched(st: State, e: Event): Ptr
    requires Enabled(st, e)
  {
    match e.op
    case TakeListed(k, b) => st.shards[k].unitMap[b][|st.shards[k].unitMap[b]| - 1]
    case MakeBuffer(_, _) => st.heapTop
    case PopFront(s) => st.caches[e.t].cacheMap[s][0]
    case PopBack(s) => st.caches[e.t].cacheMap[s][|st.caches[e.t].cacheMap[s]| - 1]
    case PopFree => st.caches[e.t].freeVec[0]
    case OpenQueue(_) => 0
    case CloseQueue(_) => 0
    case _ => e.op.p
  }

  predicate Moves(st: State, st': State, t: nat, p: Ptr)
  {
    && p in st'.place && p in st'.header && p in st'.home
    && st'.place == st.place[p := st'.place[p]] && st'.header == st.header[p := st'.header[p]] && st'.home == st.home[p := st'.home[p]]
    && (p in st.place && st.place[p].Busy? ==> st.place[p] == Busy(t))
    && (st'.place[p].Busy? ==> st'.place[p] == Busy(t))
  }

  lemma {:induction false} SamePlaceMoves(st: State, st': State, t: nat, p: Ptr)
    requires p in st.place && p in st.header && p in st.home && p in st'.place
    requires st'.header == st.header && st'.home == st.home && st'.place == st.place[p := st'.place[p]]
    requires (st.place[p].Busy? ==> st.place[p] == Busy(t)) && (st'.place[p].Busy? ==> st'.place[p] == Busy(t))
    ensures Moves(st, st', t, p)
  {
    assert st.header[p := st.header[p]] == st.header && st.home[p := st.home[p]] == st.home;
  }

  /** The steps that take a buffer out of storage. */
  predicate Unstores(op: Op)
  {
    op.TakeListed? || op.PopFront? || op.PopBack? || op.PopFree?
  }

  /** Where such a buffer was stored. */
  function Source(e: Event): Place
    requires Unstores(e.op)
  {
    match e.op
    case TakeListed(k, b) => Listed(k, b)
    case PopFree => Freeing(e.t)
    case _ => Cached(e.t, e.op.s)
  }

  lemma {:induction false} SourceHolds(st: State, e: Event)
    requires Enabled(st, e) && Unstores(e.op)
    ensures Touched(st, e) in SeqAt(st.shards, st.caches, Source(e))
  {}

  lemma {:induction false} UnstoredIsBusy(st: State, e: Event)
    requires Enabled(st, e) && Unstores(e.op)
    ensures var st' := After(st, e);
      st'.header == st.header && st'.home == st.home && st'.place == st.place[Touched(st, e) := Busy(e.t)]
  {}

  /** Of a buffer in storage it is known where it was and what its header says. */
  lemma {:induction false} Unstored(st: State, e: Event)
    requires Books(st) && Enabled(st, e) && Unstores(e.op)
    ensures var p := Touched(st, e);
      p in st.place && st.place[p] == Source(e) && p in st.header && p in st.home && HeadOk(st.header[p], Source(e), st.home[p])
  {
    SourceHolds(st, e);
    PlaceOf(st, Source(e), Touched(st, e));
  }

  lemma {:induction false} UnstoringTouches(st: State, e: Event)
    requires Books(st) && Enabled(st, e) && Unstores(e.op)
    ensures Moves(st, After(st, e), e.t, Touched(st, e))
  {
    Unstored(st, e);
    UnstoredIsBusy(st, e);
    SamePlaceMoves(st, After(st, e), e.t, Touched(st, e));
  }

  lemma {:induction false} MakeTouches(st: State, t: nat, k: nat, b: nat)
    requires Books(st) && k < SHARDS && k < |st.shards|
    ensures Moves(st, WithBuffer(st, t, k, b), t, st.heapTop)
  {
    MakeKeepsBooks(st, t, k, b);
  }

  lemma {:induction false} StoringTouches(st: State, e: Event)
    requires Enabled(st, e) && (e.op.GiveBack? || e.op.PushBack? || e.op.PushFree?)
    ensures Moves(st, After(st, e), e.t, Touched(st, e))
  {
    SamePlaceMoves(st, After(st, e), e.t, Touched(st, e));
  }

  lemma {:induction false} OutTouches(st: State, e: Event)
    requires Sound(st) && Enabled(st, e) && (e.op.WriteField? || e.op.HandOut? || e.op.TakeBack?)
    ensures Moves(st, After(st, e), e.t, Touched(st, e))
  {
    if e.op.WriteField? {
      assert st.home[e.op.p := st.home[e.op.p]] == st.home && st.place[e.op.p := st.place[e.op.p]] == st.place;
    } else {
      BucketAtHome(st, e.op.p);
      SamePlaceMoves(st, After(st, e), e.t, Touched(st, e));
    }
  }

  /** The buffer a step touches was in no other thread's hands, and is in none afterwards; no other buffer is moved. */
  lemma {:induction false} StepMoves(st: State, e: Event)
    requires Sound(st) && Enabled(st, e) && !e.op.OpenQueue? && !e.op.CloseQueue?
    ensures Moves(st, After(st, e), e.t, Touched(st, e))
  {
    match e.op
    case MakeBuffer(k, b) => MakeTouches(st, e.t, k, b);
    case GiveBack(_) => StoringTouches(st, e);
    case WriteField(_, _) => OutTouches(st, e);
    case HandOut(_) => OutTouches(st, e);
    case TakeBack(_) => OutTouches(st, e);
    case PushBack(_, _) => StoringTouches(st, e);
    case PushFree(_) => StoringTouches(st, e);
    case _ => UnstoringTouches(st, e);
  }

  lemma {:induction false} OtherHands(st: State, st': State, t: nat, p: Ptr, u: nat)
    requires Moves(st, st', t, p) && u != t
    ensures Hands(st', u) == Hands(st, u)
  {}

  /** A step changes no cache but its thread's. */
  lemma {:induction false} StepKeepsCaches(st: State, e: Event)
    requires Enabled(st, e)
    ensures |After(st, e).caches| == |st.caches|
    ensures forall t :: 0 <= t < |st.caches| && t != e.t ==> After(st, e).caches[t] == st.caches[t]
  {}

  /** A step of another thread touches neither the cache of `t` nor what its call has in hand. */
  lemma {:induction false} OthersKeepOut(st: State, e: Event, t: nat)
    requires Sound(st) && Enabled(st, e) && e.t != t
    ensures |After(st, e).caches| == |st.caches| && (t < |st.caches| ==> After(st, e).caches[t] == st.caches[t])
    ensures Hands(After(st, e), t) == Hands(st, t)
  {
    StepKeepsCaches(st, e);
    if !e.op.OpenQueue? && !e.op.CloseQueue? {
      StepMoves(st, e);
      OtherHands(st, After(st, e), e.t, Touched(st, e), t);
    }
  }

  /** What a thread's own step does to its hands. */
  lemma {:induction false} OwnHands(st: State, e: Event)
    requires Sound(st) && Enabled(st, e) && !e.op.OpenQueue? && !e.op.CloseQueue?
    ensures var st', p := After(st, e), Touched(st, e);
      && p in st'.place && p in st'.header && p in st'.home
      && Hands(st', e.t) == if st'.place[p].Busy? then Hands(st, e.t)[p := Held(st'.header[p], st'.home[p])] else Hands(st, e.t) - {p}
  {
    StepMoves(st, e);
    MovedHands(st, After(st, e), e.t, Touched(st, e));
  }

  lemma {:induction false} MovedHands(st: State, st': State, t: nat, p: Ptr)
    requires Moves(st, st', t, p)
    ensures Hands(st', t) == if st'.place[p].Busy? then Hands(st, t)[p := Held(st'.header[p], st'.home[p])] else Hands(st, t) - {p}
  {}

  // ----- runs -----

  ghost function Start(threads: nat): State
  {
    State(seq(SHARDS, _ => Shard(map[], map[], map[])), seq(threads, _ => Cache(POOLS, map[], [])), map[], 0, map[], map[])
  }

  /** Every step of the run was one that its thread's code could take. */
  ghost predicate Legal(threads: nat, run: seq<Event>)
    decreases |run|, 0
  {
    run == [] || (Legal(threads, run[..|run| - 1]) && Enabled(StateAfter(threads, run[..|run| - 1]), run[|run| - 1]))
  }

  ghost function StateAfter(threads: nat, run: seq<Event>): State
    requires Legal(threads, run)
    decreases |run|, 1
  {
    if run == [] then Start(threads) else After(StateAfter(threads, run[..|run| - 1]), run[|run| - 1])
  }

  lemma StartIsSound(threads: nat)
    ensures Sound(Start(threads))
  {
    var st := Start(threads);
    forall l ensures FiledAt(SeqAt(st.shards, st.caches, l), st.place, l) {
      assert SeqAt(st.shards, st.caches, l) == [];
    }
  }

  /** Over every run, whatever the interleaving of the threads' steps, the books are right. */
  lemma {:induction false} RunIsSound(threads: nat, run: seq<Event>)
    requires Legal(threads, run)
    ensures Sound(StateAfter(threads, run)) && |StateAfter(threads, run).caches| == threads
    decreases |run|
  {
    if run == [] {
      StartIsSound(threads);
    } else {
      var before := run[..|run| - 1];
      RunIsSound(threads, before);
      StepIsSound(StateAfter(threads, before), run[|run| - 1]);
      StepKeepsCaches(StateAfter(threads, before), run[|run| - 1]);
    }
  }

  lemma {:induction false} PrefixIsLegal(threads: nat, run: seq<Event>, n: nat)
    requires Legal(threads, run) && n <= |run|
    ensures Legal(threads, run[..n])
    decreases |run|
  {
    if n == |run| {
      assert run[..n] == run;
    } else {
      var before := run[..|run| - 1];
      PrefixIsLegal(threads, before, n);
      assert before[..n] == run[..n];
    }
  }

  lemma {:induction false} StepIsEnabled(threads: nat, run: seq<Event>, n: nat)
    requires Legal(threads, run) && n < |run|
    ensures Legal(threads, run[..n]) && Enabled(StateAfter(threads, run[..n]), run[n])
  {
    PrefixIsLegal(threads, run, n + 1);
    assert run[..n + 1][..n] == run[..n];
  }

  /** What a step does to the users' buffers. */
  lemma {:induction false} StepDeals(st: State, e: Event)
    requires Sound(st) && Enabled(st, e)
    ensures var users, users' := Users(st.place), Users(After(st, e).place);
      match e.op
      case HandOut(p) => p !in users && users' == users + {p}
      case TakeBack(p) => p in users && users' == users - {p}
      case _ => users' == users
  {
    match e.op
    case HandOut(p) => UsersMoved(st.place, Placed(st, p, Live).place, p);
    case TakeBack(p) => UsersMoved(st.place, Placed(st, p, Busy(e.t)).place, p);
    case OpenQueue(_) =>
    case CloseQueue(_) =>
    case _ => StepKeepsUsers(st, e);
  }

  lemma {:induction false} StepKeepsUsers(st: State, e: Event)
    requires Sound(st) && Enabled(st, e) && !e.op.OpenQueue? && !e.op.CloseQueue? && !e.op.HandOut? && !e.op.TakeBack?
    ensures Users(After(st, e).place) == Users(st.place)
  {
    StepMoves(st, e);
    StepHides(st, e);
    UsersMoved(st.place, After(st, e).place, Touched(st, e));
  }

  lemma {:induction false} UsersMoved(place: map<Ptr, Place>, place': map<Ptr, Place>, p: Ptr)
    requires p in place' && place' == place[p := place'[p]]
    ensures Users(place') == if place'[p] == Live then Users(place) + {p} else Users(place) - {p}
  {}

  /** The buffer a step moves is no user's before or after, but for `HandOut` and `TakeBack`. */
  lemma {:induction false} StepHides(st: State, e: Event)
    requires Sound(st) && Enabled(st, e) && !e.op.OpenQueue? && !e.op.CloseQueue? && !e.op.HandOut? && !e.op.TakeBack?
    ensures var p := Touched(st, e); p !in Users(st.place) && p !in Users(After(st, e).place)
  {
    if Unstores(e.op) {
      Unstored(st, e);
      UnstoredIsBusy(st, e);
    } else if e.op.MakeBuffer? {
      MakeKeepsBooks(st, e.t, e.op.k, e.op.b);
    }
  }

  /** The buffer was handed to a user and has not been taken back since. */
  predicate InUse(run: seq<Event>, p: Ptr)
  {
    run != [] &&
    (run[|run| - 1].op == HandOut(p) || (run[|run| - 1].op != TakeBack(p) && InUse(run[..|run| - 1], p)))
  }

  lemma {:induction false} UsersFollowStep(st: State, e: Event, p: Ptr)
    requires Sound(st) && Enabled(st, e)
    ensures p in Users(After(st, e).place) <==> e.op == HandOut(p) || (e.op != TakeBack(p) && p in Users(st.place))
  {
    StepDeals(st, e);
  }

  /** Conservation over whole runs: the users' buffers are exactly those handed out and not taken back since. */
  lemma {:induction false} UsersFollowRun(threads: nat, run: seq<Event>, p: Ptr)
    requires Legal(threads, run)
    ensures p in Users(StateAfter(threads, run).place) <==> InUse(run, p)
    decreases |run|
  {
    if run != [] {
      var before, e := run[..|run| - 1], run[|run| - 1];
      UsersFollowRun(threads, before, p);
      RunIsSound(threads, before);
      UsersFollowStep(StateAfter(threads, before), e, p);
      assert StateAfter(threads, run) == After(StateAfter(threads, before), e);
    }
  }

  lemma {:induction false} InUseUntilTakenBack(run: seq<Event>, i: nat, j: nat, p: Ptr)
    requires i < j <= |run| && run[i].op == HandOut(p) && forall m :: i < m < j ==> run[m].op != TakeBack(p)
    ensures InUse(run[..j], p)
    decreases j
  {
    assert run[..j][..j - 1] == run[..j - 1];
    if i < j - 1 {
      InUseUntilTakenBack(run, i, j - 1, p);
    }
  }

  /** Between two times that a buffer is handed to a user, a user gave it back. */
  lemma {:induction false} HandedOutOnce(threads: nat, run: seq<Event>, i: nat, j: nat, p: Ptr)
    requires Legal(threads, run) && i < j < |run| && run[i].op == HandOut(p) && run[j].op == HandOut(p)
    ensures exists m :: i < m < j && run[m].op == TakeBack(p)
  {
    StepIsEnabled(threads, run, j);
    RunIsSound(threads, run[..j]);
    StepDeals(StateAfter(threads, run[..j]), run[j]);
    UsersFollowRun(threads, run[..j], p);
    if forall m :: i < m < j ==> run[m].op != TakeBack(p) {
      InUseUntilTakenBack(run, i, j, p);
    }
  }

  // ----- how much is ever made -----

  /** The buffers of a bucket that are not free in its list. */
  ghost function Away(st: State, k: nat, b: nat): set<Ptr>
  {
    set p | p in st.home && p in st.place && st.home[p] == Home(k, b) && st.place[p] != Listed(k, b)
  }

  lemma {:induction false} AwayIsMade(st: State, k: nat, b: nat)
    ensures Away(st, k, b) <= Made(st.home, k, b)
    ensures Books(st) && ListOf(st, k, b) == [] ==> Away(st, k, b) == Made(st.home, k, b)
  {
    if Books(st) && ListOf(st, k, b) == [] {
      assert FiledAt(ListOf(st, k, b), st.place, Listed(k, b));
    }
  }

  lemma {:induction false} OtherStepsMakeNothing(st: State, e: Event)
    requires Enabled(st, e) && !e.op.MakeBuffer?
    ensures After(st, e).home == st.home
  {}

  lemma {:induction false} MadeOne(st: State, t: nat, k: nat, b: nat)
    requires Books(st) && k < SHARDS && k < |st.shards| && ListOf(st, k, b) == []
    ensures var st' := WithBuffer(st, t, k, b); Away(st', k, b) == Made(st'.home, k, b)
  {
    MakeKeepsBooks(st, t, k, b);
    WithOneMoreStored(st.shards, st.caches, k, b);
    AwayIsMade(WithBuffer(st, t, k, b), k, b);
  }

  lemma {:induction false} OthersMade(home: map<Ptr, Home>, p: Ptr, h: Home, k: nat, b: nat)
    requires p !in home
    ensures Made(home, k, b) <= Made(home[p := h], k, b)
    ensures h != Home(k, b) ==> Made(home[p := h], k, b) == Made(home, k, b)
  {}

  /** A step that makes a buffer for the bucket leaves all its buffers away from the list; no other step makes one. */
  lemma {:induction false} MadeByStep(st: State, e: Event, k: nat, b: nat)
    requires Books(st) && Enabled(st, e)
    ensures |Made(st.home, k, b)| <= |Made(After(st, e).home, k, b)|
    ensures Made(After(st, e).home, k, b) == Made(st.home, k, b) || Away(After(st, e), k, b) == Made(After(st, e).home, k, b)
  {
    if e.op.MakeBuffer? {
      TopIsNew(st);
      OthersMade(st.home, st.heapTop, Home(e.op.k, e.op.b), k, b);
      SubsetSize(Made(st.home, k, b), Made(After(st, e).home, k, b));
      if e.op.k == k && e.op.b == b {
        MadeOne(st, e.t, k, b);
      }
    } else {
      OtherStepsMakeNothing(st, e);
    }
  }

  /** How many were away from the list after `i` steps. */
  ghost function AwayAfter(threads: nat, run: seq<Event>, k: nat, b: nat, i: nat): nat
    requires Legal(threads, run) && i <= |run|
  {
    PrefixIsLegal(threads, run, i);
    |Away(StateAfter(threads, run[..i]), k, b)|
  }

  ghost predicate PeakIs(threads: nat, run: seq<Event>, k: nat, b: nat, n: nat)
    requires Legal(threads, run)
  {
    && (forall i :: 0 <= i <= |run| ==> AwayAfter(threads, run, k, b, i) <= n)
    && exists i :: 0 <= i <= |run| && AwayAfter(threads, run, k, b, i) == n
  }

  lemma {:induction false} AwayBefore(threads: nat, run: seq<Event>, k: nat, b: nat, i: nat)
    requires Legal(threads, run) && i < |run|
    ensures AwayAfter(threads, run, k, b, i) == AwayAfter(threads, run[..|run| - 1], k, b, i)
  {
    assert run[..i] == run[..|run| - 1][..i];
  }

  lemma {:induction false} PeakGrows(threads: nat, run: seq<Event>, k: nat, b: nat, was: nat, n: nat)
    requires Legal(threads, run) && run != [] && PeakIs(threads, run[..|run| - 1], k, b, was)
    requires was <= n && AwayAfter(threads, run, k, b, |run|) <= n && (n == was || AwayAfter(threads, run, k, b, |run|) == n)
    ensures PeakIs(threads, run, k, b, n)
  {
    forall i | 0 <= i <= |run| ensures AwayAfter(threads, run, k, b, i) <= n {
      if i < |run| {
        AwayBefore(threads, run, k, b, i);
      }
    }
    if n == was {
      var i :| 0 <= i <= |run| - 1 && AwayAfter(threads, run[..|run| - 1], k, b, i) == was;
      AwayBefore(threads, run, k, b, i);
    }
  }

  /** Memory is reused: over every run a shard has made for a bucket exactly as many buffers as were ever away from the
      bucket's list at once. */
  lemma {:induction false} MadeIsPeak(threads: nat, run: seq<Event>, k: nat, b: nat)
    requires Legal(threads, run)
    ensures PeakIs(threads, run, k, b, |Made(StateAfter(threads, run).home, k, b)|)
    decreases |run|
  {
    var st := StateAfter(threads, run);
    assert run[..|run|] == run;
    AwayIsMade(st, k, b);
    SubsetSize(Away(st, k, b), Made(st.home, k, b));
    if run == [] {
      assert AwayAfter(threads, run, k, b, 0) == |Made(st.home, k, b)| == 0;
    } else {
      var before := run[..|run| - 1];
      var was := StateAfter(threads, before);
      MadeIsPeak(threads, before, k, b);
      RunIsSound(threads, before);
      MadeByStep(was, run[|run| - 1], k, b);
      PeakGrows(threads, run, k, b, |Made(was.home, k, b)|, |Made(st.home, k, b)|);
    }
  }

  lemma {:induction false} SubsetSize<T>(s: set<T>, t: set<T>)
    requires s <= t
    ensures |s| <= |t|
    decreases |s|
  {
    if s != {} {
      var x :| x in s;
      SubsetSize(s - {x}, t - {x});
    }
  }

  // ----- one thread among the others -----

  predicate Deals(op: Op) { op.HandOut? || op.TakeBack? }

  /** What thread `t` handed to users and took back from them. */
  ghost function Dealt(run: seq<Event>, t: nat): seq<Op>
  {
    if run == [] then [] else
      var e := run[|run| - 1];
      Dealt(run[..|run| - 1], t) + if e.t == t && Deals(e.op) then [e.op] else []
  }

  /** What concerns one thread: its cache, what its call under way has in hand, and its dealings with users. */
  datatype View = View(cache: Cache, hands: map<Ptr, Held>, dealt: seq<Op>)

  ghost function Seen(st: State, run: seq<Event>, t: nat): View
    requires t < |st.caches|
  {
    View(st.caches[t], Hands(st, t), Dealt(run, t))
  }

  ghost predicate Recorded(threads: nat, run: seq<Event>, st: State)
  {
    Legal(threads, run) && StateAfter(threads, run) == st && |st.shards| == SHARDS && |st.caches| == threads
  }

  /** Nobody but other threads moved between `run` and `run'`. */
  ghost predicate OnlyOthers(run: seq<Event>, run': seq<Event>, t: nat)
  {
    run <= run' && forall i :: |run| <= i < |run'| ==> run'[i].t != t
  }

  lemma {:induction false} DealtOneMore(run: seq<Event>, e: Event)
    ensures forall t :: Dealt(run + [e], t) == Dealt(run, t) + (if e.t == t && Deals(e.op) then [e.op] else [])
  {
    assert (run + [e])[..|run|] == run;
  }

  lemma {:induction false} Records(threads: nat, run: seq<Event>, st: State, e: Event)
    requires Recorded(threads, run, st) && Enabled(st, e)
    ensures Recorded(threads, run + [e], After(st, e)) && Sound(st) && Sound(After(st, e))
    ensures |After(st, e).caches| == |st.caches| == threads
    ensures Dealt(run + [e], e.t) == Dealt(run, e.t) + (if Deals(e.op) then [e.op] else [])
  {
    assert (run + [e])[..|run|] == run;
    RunIsSound(threads, run);
    StepIsSound(st, e);
    StepKeepsCaches(st, e);
    DealtOneMore(run, e);
  }

  lemma {:induction false} OtherStepLeavesView(threads: nat, run: seq<Event>, e: Event, t: nat)
    requires Legal(threads, run) && Enabled(StateAfter(threads, run), e) && e.t != t && t < threads
    ensures Recorded(threads, run, StateAfter(threads, run)) && Recorded(threads, run + [e], After(StateAfter(threads, run), e))
    ensures Seen(After(StateAfter(threads, run), e), run + [e], t) == Seen(StateAfter(threads, run), run, t)
  {
    RunIsSound(threads, run);
    Records(threads, run, StateAfter(threads, run), e);
    OthersKeepOut(StateAfter(threads, run), e, t);
    DealtOneMore(run, e);
  }

  /** Whatever the other threads do, and however long, a thread's own view stays as it was. */
  lemma {:induction false} OthersLeaveView(threads: nat, run: seq<Event>, st: State, run': seq<Event>, st': State, t: nat)
    requires Recorded(threads, run, st) && Recorded(threads, run', st') && OnlyOthers(run, run', t) && t < threads
    ensures Seen(st', run', t) == Seen(st, run, t)
    decreases |run'|
  {
    if |run'| == |run| {
      assert run' == run;
    } else {
      var n := |run'| - 1;
      var before := run'[..n];
      assert run' == before + [run'[n]];
      OtherStepLeavesView(threads, before, run'[n], t);
      OthersLeaveView(threads, run, st, before, StateAfter(threads, before), t);
    }
  }

  function WithSizeQueue(c: Cache, s: nat, q: seq<Ptr>): Cache
  {
    c.(cacheMap := c.cacheMap[s := q])
  }

  ghost function QueueOf(c: Cache, s: nat): seq<Ptr>
  {
    if s in c.cacheMap then c.cacheMap[s] else []
  }

  /** What a thread's own step does to its cache, where the step touches buffer `p`. */
  ghost function CacheAfter(c: Cache, op: Op, p: Ptr): Cache
  {
    match op
    case PopFront(s) => if QueueOf(c, s) != [] then WithSizeQueue(c, s, QueueOf(c, s)[1..]) else c
    case PopBack(s) => if QueueOf(c, s) != [] then WithSizeQueue(c, s, QueueOf(c, s)[..|QueueOf(c, s)| - 1]) else c
    case PushBack(s, _) => WithSizeQueue(c, s, QueueOf(c, s) + [p])
    case PopFree => if c.freeVec != [] then c.(freeVec := c.freeVec[1..]) else c
    case PushFree(_) => c.(freeVec := c.freeVec + [p])
    case OpenQueue(s) => if c.poolVec > 0 then Opened(c, s) else c
    case CloseQueue(s) => Closed(c, s)
    case _ => c
  }

  /** After these a buffer is in the thread's hands. */
  predicate Fetches(op: Op)
  {
    op.TakeListed? || op.MakeBuffer? || op.WriteField? || op.PopFront? || op.PopBack? || op.PopFree? || op.TakeBack?
  }

  /** What a thread's own step does to its view; `x` is what the touched buffer is like afterwards. */
  ghost function ViewAfter(v: View, op: Op, p: Ptr, x: Held): View
  {
    View(CacheAfter(v.cache, op, p),
         if Fetches(op) then v.hands[p := x] else if op.OpenQueue? || op.CloseQueue? then v.hands else v.hands - {p},
         v.dealt + if Deals(op) then [op] else [])
  }

  /** What is known of a buffer that a step brought into a thread's hands. */
  ghost predicate Found(op: Op, x: Held)
  {
    match op
    case TakeListed(k, b) => x.home == Home(k, b) && x.header.bucket == b
    case MakeBuffer(k, b) => x.home == Home(k, b) && x.header.bucket == b
    case PopFront(s) => Homing(x) && FitsQueue(x.header, s)
    case PopBack(s) => Homing(x) && FitsQueue(x.header, s)
    case PopFree => Homing(x)
    case TakeBack(_) => Homing(x) && Flagged(x.header)
    case _ => true
  }

  /** What was found out about the touched buffer, before the step and after. */
  ghost predicate FoundAt(st: State, e: Event)
    requires Enabled(st, e)
  {
    var st', p := After(st, e), Touched(st, e);
    && p in st'.header && p in st'.home && Found(e.op, Held(st'.header[p], st'.home[p]))
    && (p in Hands(st, e.t) <==> e.op.WriteField?)
  }

  lemma {:induction false} MakeFinds(st: State, e: Event)
    requires Sound(st) && Enabled(st, e) && e.op.MakeBuffer?
    ensures FoundAt(st, e)
  {
    MakeKeepsBooks(st, e.t, e.op.k, e.op.b);
  }

  lemma {:induction false} UnstoringFinds(st: State, e: Event)
    requires Sound(st) && Enabled(st, e) && Unstores(e.op)
    ensures FoundAt(st, e)
  {
    Unstored(st, e);
    UnstoredIsBusy(st, e);
  }

  lemma {:induction false} TakenBackFinds(st: State, e: Event)
    requires Sound(st) && Enabled(st, e) && e.op.TakeBack?
    ensures FoundAt(st, e)
  {
    BucketAtHome(st, e.op.p);
  }

  lemma {:induction false} TouchedIsFound(st: State, e: Event)
    requires Sound(st) && Enabled(st, e) && Fetches(e.op)
    ensures FoundAt(st, e) && Fitting(After(st, e).header[Touched(st, e)])
  {
    if Unstores(e.op) {
      UnstoringFinds(st, e);
    } else if e.op.MakeBuffer? {
      MakeFinds(st, e);
    } else if e.op.TakeBack? {
      TakenBackFinds(st, e);
    }
    StepIsSound(st, e);
  }

  lemma {:induction false} OwnCacheStored(st: State, e: Event)
    requires Enabled(st, e) && (Unstores(e.op) || e.op.PushBack? || e.op.PushFree?)
    ensures After(st, e).caches[e.t] == CacheAfter(st.caches[e.t], e.op, Touched(st, e))
  {}

  lemma {:induction false} OwnCache(st: State, e: Event)
    requires Enabled(st, e)
    ensures |After(st, e).caches| == |st.caches| && After(st, e).caches[e.t] == CacheAfter(st.caches[e.t], e.op, Touched(st, e))
  {
    StepKeepsCaches(st, e);
    if Unstores(e.op) || e.op.PushBack? || e.op.PushFree? {
      OwnCacheStored(st, e);
    }
  }

  lemma {:induction false} OwnHandsAfter(st: State, e: Event)
    requires Sound(st) && Enabled(st, e) && !e.op.OpenQueue? && !e.op.CloseQueue?
    ensures var st', p := After(st, e), Touched(st, e);
      && p in st'.header && p in st'.home
      && Hands(st', e.t) == if Fetches(e.op) then Hands(st, e.t)[p := Held(st'.header[p], st'.home[p])] else Hands(st, e.t) - {p}
  {
    OwnHands(st, e);
  }

  /** The buffer a step touched, as the step left it. */
  ghost function Left(st: State, e: Event): Held
    requires Enabled(st, e)
  {
    var st', p := After(st, e), Touched(st, e);
    if p in st'.header && p in st'.home then Held(st'.header[p], st'.home[p]) else Held(Header(0, None, 0, Unset), Home(0, 0))
  }

  /** A step of thread `e.t`, as the thread sees it. */
  lemma {:induction false} StepSeen(threads: nat, run: seq<Event>, st: State, e: Event)
    requires Recorded(threads, run, st) && Enabled(st, e)
    ensures Recorded(threads, run + [e], After(st, e)) && |After(st, e).caches| == |st.caches| == threads
    ensures Seen(After(st, e), run + [e], e.t) == ViewAfter(Seen(st, run, e.t), e.op, Touched(st, e), Left(st, e))
    ensures Fetches(e.op) ==>
      Found(e.op, Left(st, e)) && Fitting(Left(st, e).header) && (Touched(st, e) in Seen(st, run, e.t).hands <==> e.op.WriteField?)
  {
    Records(threads, run, st, e);
    OwnCache(st, e);
    if Fetches(e.op) {
      TouchedIsFound(st, e);
    }
    if !e.op.OpenQueue? && !e.op.CloseQueue? {
      OwnHandsAfter(st, e);
    }
  }

  // ----- a cache between and within calls -----

  /** No queue in use is empty. */
  ghost predicate Filled(c: Cache)
  {
    forall s :: s in c.cacheMap ==> c.cacheMap[s] != []
  }

  /** As `Filled`, but the queue of size `s` may be empty. */
  ghost predicate FilledBut(c: Cache, s: nat)
  {
    forall r :: r in c.cacheMap && r != s ==> c.cacheMap[r] != []
  }

  /** All that happened to a thread is that `p`, which it did not have, is in its hands, with a header that fits. */
  ghost predicate Took(p: Ptr, v: View, before: View)
  {
    p in v.hands && p !in before.hands && Fitting(v.hands[p].header) && v == before.(hands := before.hands[p := v.hands[p]])
  }

  lemma TookAndWrote(p: Ptr, v: View, mid: View, before: View, f: Field)
    requires Took(p, mid, before) && Fitting(Rewritten(mid.hands[p].header, f))
    requires v == mid.(hands := mid.hands[p := mid.hands[p].(header := Rewritten(mid.hands[p].header, f))])
    ensures Took(p, v, before)
  {
    assert v.hands == before.hands[p := v.hands[p]];
  }

  lemma TookAndGave(p: Ptr, mid: View, before: View)
    requires Took(p, mid, before)
    ensures mid.hands - {p} == before.hands
  {}

  // ----- a thread's own steps: when they can be taken, and what they bring -----

  lemma {:induction false} MakeBufferSeen(threads: nat, run: seq<Event>, st: State, t: nat, k: nat, b: nat)
    requires Recorded(threads, run, st) && Enabled(st, Event(t, MakeBuffer(k, b)))
    ensures var run' := run + [Event(t, MakeBuffer(k, b))];
      var p := st.heapTop;
      var st' := WithBuffer(st, t, k, b);
      var v, v' := Seen(st, run, t), Seen(st', run', t);
      && Recorded(threads, run', st')
      && Took(p, v', v) && Found(MakeBuffer(k, b), v'.hands[p])
  {
    StepSeen(threads, run, st, Event(t, MakeBuffer(k, b)));
  }

  /** The shard and the list that the header names are there. */
  lemma {:induction false} GiveBackFits(threads: nat, run: seq<Event>, st: State, t: nat, p: Ptr)
    requires Recorded(threads, run, st) && t < threads && p in Hands(st, t) && Homing(Hands(st, t)[p])
    ensures |st.caches| == threads && Enabled(st, Event(t, GiveBack(p)))
    ensures st.home[p] == Home(st.header[p].shard.value, st.header[p].bucket)
  {
    RunIsSound(threads, run);
    RoomInList(st, p);
    BucketAtHome(st, p);
  }

  /** A buffer whose header leads it home, and to its size queue if it is small, is fit for a user. */
  lemma {:induction false} HandOutFits(threads: nat, run: seq<Event>, st: State, t: nat, p: Ptr)
    requires Recorded(threads, run, st) && t < threads && p in Hands(st, t) && Homing(Hands(st, t)[p])
    requires Flagged(Hands(st, t)[p].header)
    ensures Enabled(st, Event(t, HandOut(p)))
  {
    RunIsSound(threads, run);
    BucketAtHome(st, p);
  }

  lemma {:induction false} CacheIsSized(threads: nat, run: seq<Event>, st: State, t: nat)
    requires Recorded(threads, run, st) && t < threads
    ensures Sized(st.caches[t])
  {
    RunIsSound(threads, run);
  }
}
