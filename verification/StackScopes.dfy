/** Nested scopes over segments that double in size: the places, the search, the calls and the live blocks. */
module StackScopes {
  import opened Options
  import opened PowersOfTwo

  datatype MemoryPoint = MemoryPoint(slot: nat, offset: nat)

  /** An allocated range of a segment. */
  datatype Block = Block(slot: nat, offset: nat, size: nat)

  datatype Error = ResourceExhaustion | BadState

  datatype Result<T> = Ok(value: T) | Err(error: Error)

  // ----- places and their order -----

  /** Segment `i` has `2^i` bytes. */
  predicate InSegments(p: MemoryPoint, segments: nat)
  {
    p.slot < segments && p.offset <= Pow2(p.slot)
  }

  predicate NotAfter(p: MemoryPoint, q: MemoryPoint)
  {
    p.slot < q.slot || (p.slot == q.slot && p.offset <= q.offset)
  }

  function Start(b: Block): MemoryPoint { MemoryPoint(b.slot, b.offset) }

  function End(b: Block): MemoryPoint { MemoryPoint(b.slot, b.offset + b.size) }

  predicate Disjoint(b: Block, c: Block)
  {
    b.slot != c.slot || b.offset + b.size <= c.offset || c.offset + c.size <= b.offset
  }

  /** Where a scope entered at `saved` starts: the outermost one at the front of the first segment. */
  function ScopeStart(saved: Option<MemoryPoint>): MemoryPoint
  {
    if saved.None? then MemoryPoint(0, 0) else saved.value
  }

  // ----- the search of `slow_allocate` -----

  /** The first place at or after `p` where `n` bytes fit into one segment, and the segments there are then;
      segment `i` can be had only for `i < limit`. */
  function Search(segments: nat, p: MemoryPoint, n: nat, limit: nat): (r: (nat, Option<MemoryPoint>))
    requires InSegments(p, segments)
    ensures r.0 >= segments
    ensures r.1.Some? ==> InSegments(MemoryPoint(r.1.value.slot, r.1.value.offset + n), r.0) && NotAfter(p, r.1.value)
    decreases (if n > p.slot then n - p.slot else 0) + (if p.offset > 0 then 1 else 0)
  {
    if Pow2(p.slot) - p.offset >= n then (segments, Some(p))
    else if p.slot + 2 <= segments then Search(segments, MemoryPoint(p.slot + 1, 0), n, limit)
    else if p.slot + 2 <= limit then Search(p.slot + 2, MemoryPoint(p.slot + 1, 0), n, limit)
    else (segments, None)
  }

  /** No earlier place would do: what is left of the first segment and every segment passed are too small. */
  lemma {:induction false} SearchFindsFirst(segments: nat, p: MemoryPoint, n: nat, limit: nat)
    requires InSegments(p, segments) && Search(segments, p, n, limit).1.Some?
    ensures var q := Search(segments, p, n, limit).1.value;
      (q == p || (q.offset == 0 && q.slot > p.slot && Pow2(p.slot) - p.offset < n))
      && forall i: nat :: p.slot < i < q.slot ==> Pow2(i) < n
    decreases (if n > p.slot then n - p.slot else 0) + (if p.offset > 0 then 1 else 0)
  {
    if Pow2(p.slot) - p.offset < n {
      SearchFindsFirst(if p.slot + 2 <= segments then segments else p.slot + 2, MemoryPoint(p.slot + 1, 0), n, limit);
    }
  }

  /** The segments there are or can be had. */
  function Most(segments: nat, limit: nat): nat { if segments < limit then limit else segments }

  /** The search fails exactly when the block fits neither what is left of the segment nor the largest one there is or
      can be had. */
  lemma {:induction false} SearchFailsAtLimit(segments: nat, p: MemoryPoint, n: nat, limit: nat)
    requires InSegments(p, segments)
    ensures var top := Most(segments, limit);
      Search(segments, p, n, limit).1.None? <==> Pow2(p.slot) - p.offset < n && (p.slot + 1 == top || Pow2(top - 1) < n)
    decreases (if n > p.slot then n - p.slot else 0) + (if p.offset > 0 then 1 else 0)
  {
    var top := Most(segments, limit);
    if Pow2(p.slot) - p.offset < n && p.slot + 2 <= top {
      var next, segments' := MemoryPoint(p.slot + 1, 0), if p.slot + 2 <= segments then segments else p.slot + 2;
      assert Most(segments', limit) == top && Search(segments, p, n, limit) == Search(segments', next, n, limit);
      SearchFailsAtLimit(segments', next, n, limit);
      Pow2Monotone(next.slot, top - 1);
    }
  }

  predicate Fits(p: MemoryPoint, n: nat) { p.offset + n <= Pow2(p.slot) }

  /** First fit, said of places alone: `n` bytes go to `p` if they fit there, else to the front of the first later segment
      that is large enough. */
  ghost predicate FirstFit(p: MemoryPoint, n: nat, q: MemoryPoint)
  {
    && Fits(q, n)
    && (q == p || (q.offset == 0 && p.slot < q.slot && !Fits(p, n) && forall i: nat :: p.slot < i < q.slot ==> Pow2(i) < n))
  }

  /** Only the segments that are needed are had: up to the one found, or all there can be. */
  lemma {:induction false} SearchTakesNeeded(segments: nat, p: MemoryPoint, n: nat, limit: nat)
    requires InSegments(p, segments)
    ensures var (segments', q) := Search(segments, p, n, limit);
      && segments' == Most(segments, if q.Some? then q.value.slot + 1 else limit)
      && (q.Some? ==> q.value.slot < Most(segments, limit))
    decreases (if n > p.slot then n - p.slot else 0) + (if p.offset > 0 then 1 else 0)
  {
    if Pow2(p.slot) - p.offset < n && p.slot + 2 <= Most(segments, limit) {
      var next, segments' := MemoryPoint(p.slot + 1, 0), if p.slot + 2 <= segments then segments else p.slot + 2;
      assert Search(segments, p, n, limit) == Search(segments', next, n, limit);
      SearchTakesNeeded(segments', next, n, limit);
    }
  }

  /** Where no segment up to the last will do. */
  ghost predicate NoneFits(p: MemoryPoint, n: nat, segments: nat)
  {
    !Fits(p, n) && forall i: nat :: p.slot < i < segments ==> Pow2(i) < n
  }

  lemma {:induction false} SearchIsFirstFit(segments: nat, p: MemoryPoint, n: nat, limit: nat)
    requires InSegments(p, segments)
    ensures var q := Search(segments, p, n, limit).1;
      if q.Some? then FirstFit(p, n, q.value) else NoneFits(p, n, Most(segments, limit))
  {
    if Search(segments, p, n, limit).1.Some? {
      SearchFindsFirst(segments, p, n, limit);
    } else {
      var top := Most(segments, limit);
      SearchFailsAtLimit(segments, p, n, limit);
      forall i: nat | p.slot < i < top ensures Pow2(i) < n {
        Pow2Monotone(i, top - 1);
      }
    }
  }

  // ----- the machine -----

  datatype State = State(segments: nat, saved: seq<Option<MemoryPoint>>, valid: Option<MemoryPoint>)

  /** Calls; `limit` bounds the segments that memory can be had for during the call. */
  datatype Op = Enter(limit: nat) | Allocate(n: nat, limit: nat) | Exit

  ghost predicate Sound(s: State)
  {
    && (s.valid.None? <==> s.saved == [])
    && (s.valid.Some? ==> InSegments(s.valid.value, s.segments))
    && forall i :: 0 <= i < |s.saved| ==>
      && (s.saved[i].None? <==> i == 0)
      && InSegments(ScopeStart(s.saved[i]), s.segments)
  }

  /** `enter_scope`; the second part is false when it reports an error. */
  function Entered(s: State, limit: nat): (State, bool)
  {
    if s.valid.Some? then (s.(saved := s.saved + [s.valid]), true)
    else if s.segments == 0 && limit == 0 then (s, false)
    else (State(if s.segments == 0 then 1 else s.segments, s.saved + [None], Some(MemoryPoint(0, 0))), true)
  }

  /** `allocate` */
  function Allocated(s: State, n: nat, limit: nat): (State, Result<Block>)
    requires s.valid.Some? ==> InSegments(s.valid.value, s.segments)
  {
    if s.valid.None? then (s, Err(BadState)) else
      var (segments, place) := Search(s.segments, s.valid.value, n, limit);
      if place.None? then (s.(segments := segments), Err(ResourceExhaustion))
      else (State(segments, s.saved, Some(MemoryPoint(place.value.slot, place.value.offset + n))),
            Ok(Block(place.value.slot, place.value.offset, n)))
  }

  /** What an allocation must come to, with no word on how the place is sought: the block lies at the first fit, has the
      size asked for and ends at the new point; a failure leaves the point and means that no segment that is there or can
      be had would do. */
  ghost predicate Carved(s: State, n: nat, limit: nat, s': State, r: Result<Block>)
  {
    && s'.saved == s.saved
    && match r
       case Ok(b) =>
         && s.valid.Some? && FirstFit(s.valid.value, n, Start(b)) && b.slot < Most(s.segments, limit)
         && b.size == n && s'.valid == Some(End(b)) && s'.segments == Most(s.segments, b.slot + 1)
       case Err(BadState) => s.valid.None? && s' == s
       case Err(ResourceExhaustion) =>
         s.valid.Some? && s'.valid == s.valid && s'.segments == Most(s.segments, limit) && NoneFits(s.valid.value, n, s'.segments)
  }

  /** That pins down the outcome: nothing else is an allocation. */
  lemma {:induction false} AllocatedIffCarved(s: State, n: nat, limit: nat, s': State, r: Result<Block>)
    requires s.valid.Some? ==> InSegments(s.valid.value, s.segments)
    ensures (s', r) == Allocated(s, n, limit) <==> Carved(s, n, limit, s', r)
  {
    if s.valid.Some? {
      SearchTakesNeeded(s.segments, s.valid.value, n, limit);
      SearchIsFirstFit(s.segments, s.valid.value, n, limit);
      if r.Ok? && Carved(s, n, limit, s', r) {
        FitsOnce(s.segments, s.valid.value, n, limit, Start(r.value));
      }
    }
  }

  /** The first fit is one place, and the search that may go that far finds it. */
  lemma {:induction false} FitsOnce(segments: nat, p: MemoryPoint, n: nat, limit: nat, q: MemoryPoint)
    requires InSegments(p, segments) && FirstFit(p, n, q) && q.slot < Most(segments, limit)
    ensures Search(segments, p, n, limit).1 == Some(q)
  {
    SearchIsFirstFit(segments, p, n, limit);
  }

  /** `exit_scope`; it aborts without an open scope. */
  function Exited(s: State): State
    requires s.saved != []
  {
    s.(saved := s.saved[..|s.saved| - 1], valid := s.saved[|s.saved| - 1])
  }

  ghost predicate Enabled(s: State, op: Op)
  {
    Sound(s) && (op.Exit? ==> s.saved != [])
  }

  ghost function Step(s: State, op: Op): (s': State)
    requires Enabled(s, op)
    ensures Sound(s') && s'.segments >= s.segments
  {
    match op
    case Enter(limit) => Entered(s, limit).0
    case Allocate(n, limit) => Allocated(s, n, limit).0
    case Exit => Exited(s)
  }

  /** The states a run goes through, from `s` on. */
  ghost predicate IsRun(s: State, ops: seq<Op>, states: seq<State>)
  {
    && |states| == |ops| + 1 && states[0] == s
    && forall i :: 0 <= i < |ops| ==> Enabled(states[i], ops[i]) && states[i + 1] == Step(states[i], ops[i])
  }

  /** As long as a run never closes the scopes open at its start, it does not touch their saved points. */
  lemma {:induction false} SavedPointsStay(s: State, ops: seq<Op>, states: seq<State>, k: nat, m: nat)
    requires IsRun(s, ops, states) && k <= |s.saved| && m <= |ops|
    requires forall i :: 0 <= i < |states| ==> |states[i].saved| >= k
    ensures states[m].saved[..k] == s.saved[..k]
    decreases m
  {
    if m > 0 {
      SavedPointsStay(s, ops, states, k, m - 1);
      assert states[m] == Step(states[m - 1], ops[m - 1]);
    }
  }

  /** Whatever runs inside a scope, leaving it restores the point and the scopes of when it was entered. */
  lemma ExitUndoesEnter(s: State, limit: nat, ops: seq<Op>, states: seq<State>)
    requires Sound(s) && Entered(s, limit).1 && IsRun(Entered(s, limit).0, ops, states)
    requires forall i :: 0 <= i < |states| ==> |states[i].saved| > |s.saved|
    requires |states[|ops|].saved| == |s.saved| + 1
    ensures Exited(states[|ops|]).valid == s.valid && Exited(states[|ops|]).saved == s.saved
  {
    var inner, last := Entered(s, limit).0, states[|ops|];
    SavedPointsStay(inner, ops, states, |s.saved| + 1, |ops|);
    assert last.saved == last.saved[..|s.saved| + 1] == inner.saved[..|s.saved| + 1] == s.saved + [s.valid];
  }

  // ----- live blocks -----

  /** Blocks in the order they were handed out, each entirely before the next. */
  ghost predicate InOrder(live: seq<Block>)
  {
    forall i, j :: 0 <= i < j < |live| ==> NotAfter(End(live[i]), Start(live[j]))
  }

  /** Every open scope starts no later than the ones entered after it, and than the current point. */
  ghost predicate ScopesNest(s: State)
    requires s.valid.Some?
  {
    && (forall k :: 0 <= k < |s.saved| ==> NotAfter(ScopeStart(s.saved[k]), s.valid.value))
    && (forall k, l :: 0 <= k < l < |s.saved| ==> NotAfter(ScopeStart(s.saved[k]), ScopeStart(s.saved[l])))
  }

  /** Every live block lies in its segment and before the current point. */
  ghost predicate BlocksPlaced(s: State, live: seq<Block>)
    requires s.valid.Some?
  {
    && InOrder(live)
    && forall i :: 0 <= i < |live| ==> InSegments(End(live[i]), s.segments) && NotAfter(End(live[i]), s.valid.value)
  }

  /** `marks[k]` of the live blocks were there before scope `k` was entered, and end before its start. */
  ghost predicate BlocksScoped(s: State, live: seq<Block>, marks: seq<nat>)
  {
    && |marks| == |s.saved| && (marks != [] ==> marks[0] == 0)
    && (forall k :: 0 <= k < |marks| ==> marks[k] <= |live|)
    && (forall k, l :: 0 <= k < l < |marks| ==> marks[k] <= marks[l])
    && (forall k, i :: 0 <= k < |marks| && 0 <= i < marks[k] ==> NotAfter(End(live[i]), ScopeStart(s.saved[k])))
    && (forall k, i :: 0 <= k < |marks| && marks[k] <= i < |live| ==> NotAfter(ScopeStart(s.saved[k]), Start(live[i])))
  }

  /** The blocks handed out in the scopes now open. */
  ghost predicate Holds(s: State, live: seq<Block>, marks: seq<nat>)
  {
    && Sound(s) && (s.saved == [] ==> live == [])
    && (s.saved != [] ==> ScopesNest(s) && BlocksPlaced(s, live))
    && BlocksScoped(s, live, marks)
  }

  lemma LiveBlocksDisjoint(s: State, live: seq<Block>, marks: seq<nat>, i: nat, j: nat)
    requires Holds(s, live, marks) && i < |live| && j < |live| && i != j
    ensures Disjoint(live[i], live[j])
    ensures live[i].slot < s.segments && live[i].offset + live[i].size <= Pow2(live[i].slot)
  {
    assert InSegments(End(live[i]), s.segments);
    var a, b := if i < j then i else j, if i < j then j else i;
    assert NotAfter(End(live[a]), Start(live[b]));
  }

  lemma {:induction false} MarkedOneMore(s: State, live: seq<Block>, marks: seq<nat>)
    requires s.valid.Some? && s.saved != [] && BlocksScoped(s, live, marks) && BlocksPlaced(s, live)
    ensures BlocksScoped(s.(saved := s.saved + [s.valid]), live, marks + [|live|])
  {}

  lemma EnterHolds(s: State, live: seq<Block>, marks: seq<nat>, limit: nat)
    requires Holds(s, live, marks) && Entered(s, limit).1
    ensures Holds(Entered(s, limit).0, live, marks + [|live|])
  {
    if s.valid.Some? {
      MarkedOneMore(s, live, marks);
    }
  }

  lemma {:induction false} PlacedOneMore(s: State, s': State, live: seq<Block>, b: Block)
    requires s.valid.Some? && BlocksPlaced(s, live) && NotAfter(s.valid.value, Start(b))
    requires s'.valid == Some(End(b)) && InSegments(End(b), s'.segments) && s.segments <= s'.segments
    ensures BlocksPlaced(s', live + [b])
  {}

  lemma {:induction false} ScopedOneMore(s: State, s': State, live: seq<Block>, marks: seq<nat>, b: Block)
    requires s.valid.Some? && ScopesNest(s) && BlocksScoped(s, live, marks) && NotAfter(s.valid.value, Start(b))
    requires s'.saved == s.saved
    ensures BlocksScoped(s', live + [b], marks)
  {}

  lemma AllocateHolds(s: State, live: seq<Block>, marks: seq<nat>, n: nat, limit: nat)
    requires Holds(s, live, marks)
    ensures var (s', r) := Allocated(s, n, limit);
      Holds(s', if r.Ok? then live + [r.value] else live, marks)
  {
    var (s', r) := Allocated(s, n, limit);
    if r.Ok? {
      PlacedOneMore(s, s', live, r.value);
      ScopedOneMore(s, s', live, marks, r.value);
    }
  }

  lemma ExitHolds(s: State, live: seq<Block>, marks: seq<nat>)
    requires Holds(s, live, marks) && s.saved != []
    ensures Holds(Exited(s), live[..marks[|marks| - 1]], marks[..|marks| - 1])
  {}
}
