/** Master and slave together: a topic erased from the registry brings its slaves down in bounded time, and a slave that
    falls silent brings its topic down. */
module ConnectionLiveness {
  import CC = ConnectionControl
  import opened Options
  import opened SlaveLiveness
  import ML = MasterLiveness

  /** The registry's calls in order, with the time each took place. */
  ghost predicate Timed(ops: seq<CC.Op>, times: seq<nat>)
  {
    |times| == |ops| && forall i, j :: 0 <= i < j < |ops| ==> times[i] <= times[j]
  }

  ghost predicate GoodPing(ops: seq<CC.Op>, registry: seq<CC.State>, times: seq<nat>, id: nat, called: nat, k: nat)
    requires |registry| == |ops| + 1 && |times| == |ops|
  {
    && k < |ops| && ops[k].Ping? && ops[k].id == id && times[k] >= called
    && CC.Pinged(registry[k], id, ops[k].who, ops[k].now).1 == CC.Success
  }

  /** A ping of the slave succeeds only because the registry took one, after the slave's call began. */
  ghost predicate Served(ops: seq<CC.Op>, registry: seq<CC.State>, times: seq<nat>, id: nat, answers: seq<Answer>, states: seq<Slave>)
    requires |registry| == |ops| + 1 && |times| == |ops|
  {
    forall i :: 0 <= i < |answers| && i < |states| && states[i].alive && states[i].promise.Some? && answers[i].status.Succeeded?
      ==> exists k: nat :: GoodPing(ops, registry, times, id, states[i].promise.value.called, k)
  }

  /** The registry's `Close` of the topic as its `e`th call means that no later ping of the slave succeeds. */
  lemma ErasedTopicEndsSuccess(s: CC.State, ops: seq<CC.Op>, registry: seq<CC.State>, times: seq<nat>, id: nat, e: nat,
                               answers: seq<Answer>, states: seq<Slave>)
    requires CC.Sound(s) && CC.IsRun(s, ops, registry) && Timed(ops, times)
    requires e < |ops| && ops[e] == CC.Close(id) && id < registry[e].openings && registry[|ops|].openings <= CC.UINT32_BOUND
    requires Served(ops, registry, times, id, answers, states)
    ensures NoSuccessAfter(answers, states, times[e])
  {
    forall i | 0 <= i < |answers| && i < |states| && states[i].alive && states[i].promise.Some? && answers[i].status.Succeeded?
      ensures states[i].promise.value.called <= times[e]
    {
      var k: nat :| GoodPing(ops, registry, times, id, states[i].promise.value.called, k);
      if k > e {
        PingFailsAfterErasure(s, ops, registry, id, e, k);
      }
    }
  }

  lemma PingFailsAfterErasure(s: CC.State, ops: seq<CC.Op>, registry: seq<CC.State>, id: nat, e: nat, k: nat)
    requires CC.Sound(s) && CC.IsRun(s, ops, registry)
    requires e < k < |ops| && ops[e] == CC.Close(id) && id < registry[e].openings && registry[|ops|].openings <= CC.UINT32_BOUND
    requires ops[k].Ping? && ops[k].id == id
    ensures CC.Pinged(registry[k], id, ops[k].who, ops[k].now).1 == CC.ConnectionNotFound
  {
    var from := e + 1;
    var rest, later := ops[from..], registry[from..];
    assert registry[e + 1] == CC.Step(registry[e], ops[e]);
    CC.RunIsSound(s, ops, registry, from);
    forall i | 0 <= i < |rest| ensures later[i + 1] == CC.Step(later[i], rest[i]) {
      assert registry[from + i + 1] == CC.Step(registry[from + i], ops[from + i]);
    }
    CC.RunIsSound(registry[from], rest, later, k - from);
    OpeningsGrow(s, ops, registry, k);
    CC.GoneStaysGone(registry[from], rest, later, id, k - from);
  }

  lemma {:induction false} OpeningsGrow(s: CC.State, ops: seq<CC.Op>, registry: seq<CC.State>, i: nat)
    requires CC.IsRun(s, ops, registry) && i <= |ops|
    ensures registry[i].openings <= registry[|ops|].openings
    decreases |ops| - i
  {
    if i < |ops| {
      assert registry[i + 1] == CC.Step(registry[i], ops[i]);
      OpeningsGrow(s, ops, registry, i + 1);
    }
  }

  /** End to end: no update of the slave's daemon that ends later than `Worst` after the topic was closed finds it alive. */
  lemma ErasureReachesSlave(s: CC.State, ops: seq<CC.Op>, registry: seq<CC.State>, times: seq<nat>, id: nat, e: nat,
                            c: Config, clocks: seq<Reads>, answers: seq<Answer>, states: seq<Slave>, d: nat, w: nat, i: nat)
    requires CC.Sound(s) && CC.IsRun(s, ops, registry) && Timed(ops, times)
    requires e < |ops| && ops[e] == CC.Close(id) && id < registry[e].openings && registry[|ops|].openings <= CC.UINT32_BOUND
    requires IsRun(c, clocks, answers, states) && Paced(clocks, d, w) && Served(ops, registry, times, id, answers, states)
    requires 0 < i < |clocks| && clocks[0].mark <= times[e] + d
    requires clocks[i].mark > times[e] + Worst(c, d, w)
    ensures !states[i].alive
  {
    ErasedTopicEndsSuccess(s, ops, registry, times, id, e, answers, states);
    DeadAfterWorst(c, clocks, answers, states, times[e], d, w, i);
  }

  // ----- from the slave to the master -----

  /** The updates of the master's daemon saw the topic as it was after the first `seen[i]` calls of the registry. */
  ghost predicate Observed(events: seq<ML.Event>, registry: seq<CC.State>, id: nat, seen: seq<nat>)
  {
    && |seen| == |events|
    && (forall i, j :: 0 <= i <= j < |events| ==> seen[i] <= seen[j])
    && (forall i :: 0 <= i < |events| && events[i].Update? ==>
          seen[i] < |registry| && events[i].topic == ML.Lookup(registry[seen[i]], id))
  }

  /** `who` is in the topic and last pinged it at `p` or earlier. */
  predicate LastPinged(s: CC.State, id: nat, who: string, p: nat, timeout: nat)
  {
    id in s.idTopicMap ==>
      var t := s.idTopicMap[id];
      who in t.whoWhen && t.whoWhen[who] <= p && t.config.connectionTimeoutDur == timeout
  }

  /** As long as `who` is silent its last ping stays what it was, in a topic that is still there. */
  lemma {:induction false} SilentStaysSilent(s: CC.State, ops: seq<CC.Op>, registry: seq<CC.State>, id: nat, who: string, p: nat,
                                             timeout: nat, q: nat, k: nat)
    requires CC.Sound(s) && CC.IsRun(s, ops, registry) && q <= k <= |ops| && registry[|ops|].openings <= CC.UINT32_BOUND
    requires id < registry[q].openings && LastPinged(registry[q], id, who, p, timeout)
    requires forall m :: q <= m < k ==> !(ops[m].Ping? && ops[m].id == id && ops[m].who == who)
    ensures LastPinged(registry[k], id, who, p, timeout) && id < registry[k].openings
    decreases k
  {
    if q < k {
      SilentStaysSilent(s, ops, registry, id, who, p, timeout, q, k - 1);
      CC.RunIsSound(s, ops, registry, k - 1);
      OpeningsGrow(s, ops, registry, k);
      CC.CounterBelow(registry[k - 1].openings);
      assert registry[k] == CC.Step(registry[k - 1], ops[k - 1]);
    }
  }

  /** End to end: a slave silent from the `q`th call of the registry on, having last pinged at `p`, has its connection given
      up: of two updates within `d` of each other, of which the first already sees the silence and the second begins at `p`
      plus the timeout and `d` or later, the second finds the connection dead, and the next has closed the topic. */
  lemma SilenceEndsConnection(s: CC.State, ops: seq<CC.Op>, registry: seq<CC.State>, id: nat, who: string, p: nat, timeout: nat, q: nat,
                              events: seq<ML.Event>, states: seq<ML.Master>, seen: seq<nat>, d: nat, i: nat, j: nat)
    requires CC.Sound(s) && CC.IsRun(s, ops, registry) && q <= |ops| && registry[|ops|].openings <= CC.UINT32_BOUND
    requires id < registry[q].openings && LastPinged(registry[q], id, who, p, timeout)
    requires forall m :: q <= m < |ops| ==> !(ops[m].Ping? && ops[m].id == id && ops[m].who == who)
    requires ML.IsRun(events, states) && Observed(events, registry, id, seen)
    requires i < j < |events| && events[i].Update? && events[j].Update? && seen[i] >= q
    requires events[j].clock.first <= events[i].clock.first + d && events[j].clock.first >= p + timeout + d
    ensures !states[j].alive && forall m :: j < m <= |events| ==> states[m].closings == 1
  {
    forall k | i <= k < j && events[k].Update? && events[k].topic.Some?
      ensures var t := events[k].topic.value; who in t.whoWhen && t.whoWhen[who] <= p && t.config.connectionTimeoutDur == timeout
    {
      assert seen[i] <= seen[k];
      SilentStaysSilent(s, ops, registry, id, who, p, timeout, q, seen[k]);
    }
    ML.SilenceIsNoticed(events, states, who, p, d, timeout, i, j);
    forall m | j < m <= |events| ensures states[m].closings == 1 {
      ML.DeadIsDisposed(events, states, j, m);
    }
  }
}
