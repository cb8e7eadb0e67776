/** The master's daemon and its connection: when the connection counts as dead, and that its topic is closed once. */
module MasterLiveness {
  import opened Options
  import opened ConnectionControl

  /** The daemon, the flags it shares with the connection, and how often the topic was closed. */
  datatype Master = Master(alive: bool, disposed: bool, inquired: bool, firstTimepoint: Option<nat>, brokeTimepoint: Option<nat>,
                           closed: bool, closings: nat)

  const FRESH: Master := Master(true, false, false, None, None, false, 0)

  const HOUR: nat := 3_600_000_000_000            // in nanoseconds
  const NANOSECONDS_MAX: nat := 0x7FFF_FFFF_FFFF_FFFF

  /** `check_and_throw_configuration` */
  predicate ValidConfiguration(config: MasterConfiguration)
  {
    && config.connectionTimeoutDur <= HOUR && config.connectionBrokeDur <= HOUR && config.absTimeoutDur <= NANOSECONDS_MAX
    && 1 <= config.slaveCount < SIZE_T_BOUND
  }

  /** The clock readings of one `update`, in the order they are taken; the last is taken anew for every slave. */
  datatype Reads = Reads(first: nat, full: nat, broke: nat, abs: nat, slave: string -> nat)

  ghost predicate InOrder(r: Reads)
  {
    r.first <= r.full <= r.broke <= r.abs && forall who :: r.abs <= r.slave(who)
  }

  /** An `update`, with what the topic looks like then, if it is there; or a call of `close`. */
  datatype Event = Update(clock: Reads, topic: Option<Topic>) | CloseCall

  /** Some slave's last ping is older than the timeout. */
  ghost predicate Lapsed(topic: Topic, now: string -> nat)
  {
    exists who :: who in topic.whoWhen && now(who) - topic.whoWhen[who] >= topic.config.connectionTimeoutDur
  }

  /** `update` aborts on a topic for no slaves. */
  predicate Aborts(m: Master, topic: Option<Topic>)
  {
    m.alive && topic.Some? && topic.value.config.slaveCount == 0
  }

  /** Closing the topic, unless that was done before. */
  function Dispose(m: Master): Master
  {
    if m.disposed then m else m.(disposed := true, closings := m.closings + 1)
  }

  /** One `update` that does not abort. */
  ghost function Updated(m: Master, r: Reads, topic: Option<Topic>): Master
  {
    if !m.alive then
      if m.inquired then m else Dispose(m.(inquired := true))
    else
      var m := if m.firstTimepoint.None? then m.(firstTimepoint := Some(r.first)) else m;
      if topic.None? then m.(alive := false)
      else
        var t := topic.value;
        var m := if |t.whoWhen| == t.config.slaveCount && m.brokeTimepoint.None? then m.(brokeTimepoint := Some(r.full)) else m;
        if m.brokeTimepoint.None? && r.broke - m.firstTimepoint.value >= t.config.connectionBrokeDur then m.(alive := false)
        else if m.brokeTimepoint.Some? && r.abs - m.brokeTimepoint.value >= t.config.absTimeoutDur then m.(alive := false)
        else if Lapsed(t, r.slave) then m.(alive := false)
        else m
  }

  function CloseCalled(m: Master): Master
  {
    if m.closed then m else Dispose(m.(closed := true))
  }

  ghost function Step(m: Master, e: Event): Master
  {
    match e
    case Update(clock, topic) => Updated(m, clock, topic)
    case CloseCall => CloseCalled(m)
  }

  ghost predicate IsRun(events: seq<Event>, states: seq<Master>)
  {
    && |states| == |events| + 1 && states[0] == FRESH
    && (forall i :: 0 <= i < |events| ==> states[i + 1] == Step(states[i], events[i]))
    && (forall i :: 0 <= i < |events| && events[i].Update? ==> InOrder(events[i].clock) && !Aborts(states[i], events[i].topic))
  }

  /** The topic has been closed exactly when somebody disposed of it, who was the connection's close or the daemon. */
  ghost predicate ClosedOnce(m: Master)
  {
    m.closings == (if m.disposed then 1 else 0) && (m.disposed <==> m.closed || m.inquired) && (m.inquired ==> !m.alive)
  }

  /** A close, or an update that begins with the connection dead. */
  predicate Disposes(e: Event, m: Master)
  {
    e.CloseCall? || !m.alive
  }

  /** Whatever the order of updates and closes, the topic is closed at most once: from the first close, or the first update
      after the one that found the connection dead, and not before. */
  lemma {:induction false} TopicClosedOnce(events: seq<Event>, states: seq<Master>, i: nat)
    requires IsRun(events, states) && i <= |events|
    ensures ClosedOnce(states[i]) && states[i].closings <= 1
    ensures (exists j :: 0 <= j < i && events[j].CloseCall?) ==> states[i].closings == 1 && states[i].closed
    ensures states[i].closings == 1 <==> exists j :: 0 <= j < i && Disposes(events[j], states[j])
    decreases i
  {
    if i > 0 {
      TopicClosedOnce(events, states, i - 1);
      assert states[i] == Step(states[i - 1], events[i - 1]);
    }
  }

  /** Dead stays dead, and the update after the one that found out closes the topic. */
  lemma {:induction false} DeadIsDisposed(events: seq<Event>, states: seq<Master>, i: nat, j: nat)
    requires IsRun(events, states) && i < j <= |events| && !states[i].alive && events[i].Update?
    ensures !states[j].alive && states[j].closings == 1
    decreases j
  {
    assert states[j] == Step(states[j - 1], events[j - 1]);
    TopicClosedOnce(events, states, j - 1);
    if i < j - 1 {
      DeadIsDisposed(events, states, i, j - 1);
    }
  }

  /** An update leaves the connection alive only if its topic is there, every slave's last ping is recent, and the
      slaves came in time and not too long ago. */
  lemma AliveMeansRecent(m: Master, r: Reads, topic: Option<Topic>)
    requires InOrder(r) && Updated(m, r, topic).alive
    ensures topic.Some?
    ensures forall who :: who in topic.value.whoWhen ==> r.slave(who) - topic.value.whoWhen[who] < topic.value.config.connectionTimeoutDur
    ensures |topic.value.whoWhen| == topic.value.config.slaveCount || m.brokeTimepoint.Some?
      || r.broke - (if m.firstTimepoint.Some? then m.firstTimepoint.value else r.first) < topic.value.config.connectionBrokeDur
    ensures m.brokeTimepoint.Some? ==> r.abs - m.brokeTimepoint.value < topic.value.config.absTimeoutDur
  {}

  // ----- when the connection is alive, from the events alone -----

  /** When the first of the updates began. */
  ghost function Began(events: seq<Event>): Option<nat>
  {
    if events == [] then None else
      var before, e := Began(events[..|events| - 1]), events[|events| - 1];
      if before.None? && e.Update? then Some(e.clock.first) else before
  }

  predicate Complete(topic: Topic) { |topic.whoWhen| == topic.config.slaveCount }

  /** When the first of the updates found all slaves there. */
  ghost function FoundComplete(events: seq<Event>): Option<nat>
  {
    if events == [] then None else
      var before, e := FoundComplete(events[..|events| - 1]), events[|events| - 1];
      if before.None? && e.Update? && e.topic.Some? && Complete(e.topic.value) then Some(e.clock.full) else before
  }

  /** The last of the events gives no reason to give the connection up: it is no update, or its topic is there, with every
      last ping younger than the timeout; as long as the slaves were never all there the first update is not too long ago,
      and once they were that is not too long ago. */
  ghost predicate Healthy(events: seq<Event>)
    requires events != []
  {
    var e := events[|events| - 1];
    e.Update? ==>
      && e.topic.Some?
      && var t := e.topic.value;
         && (forall who :: who in t.whoWhen ==> e.clock.slave(who) - t.whoWhen[who] < t.config.connectionTimeoutDur)
         && (FoundComplete(events).None? ==> Began(events).Some? && e.clock.broke - Began(events).value < t.config.connectionBrokeDur)
         && (FoundComplete(events).Some? ==> e.clock.abs - FoundComplete(events).value < t.config.absTimeoutDur)
  }

  lemma HealthyStep(events: seq<Event>, m: Master, e: Event)
    requires m.alive && m.firstTimepoint == Began(events) && m.brokeTimepoint == FoundComplete(events)
    ensures var events' := events + [e];
      && (Step(m, e).alive <==> Healthy(events'))
      && (Step(m, e).alive ==> Step(m, e).firstTimepoint == Began(events') && Step(m, e).brokeTimepoint == FoundComplete(events'))
  {
    assert (events + [e])[..|events|] == events;
    if e.Update? && e.topic.Some? {
      var t := e.topic.value;
      assert Lapsed(t, e.clock.slave) <==> !forall who :: who in t.whoWhen ==> e.clock.slave(who) - t.whoWhen[who] < t.config.connectionTimeoutDur;
    }
  }

  lemma {:induction false} AliveStep(events: seq<Event>, states: seq<Master>, i: nat)
    requires IsRun(events, states) && i <= |events|
    ensures i > 0 ==> (states[i].alive <==> states[i - 1].alive && Healthy(events[..i]))
    ensures states[i].alive ==> states[i].firstTimepoint == Began(events[..i]) && states[i].brokeTimepoint == FoundComplete(events[..i])
    decreases i
  {
    if i > 0 {
      AliveStep(events, states, i - 1);
      assert states[i] == Step(states[i - 1], events[i - 1]) && events[..i] == events[..i - 1] + [events[i - 1]];
      if states[i - 1].alive {
        HealthyStep(events[..i - 1], states[i - 1], events[i - 1]);
      }
    }
  }

  /** Over every run the connection is alive exactly as long as every update so far was healthy: neither too late nor too
      soon is it given up. */
  lemma {:induction false} AliveIff(events: seq<Event>, states: seq<Master>, i: nat)
    requires IsRun(events, states) && i <= |events|
    ensures states[i].alive <==> forall k :: 0 < k <= i ==> Healthy(events[..k])
    decreases i
  {
    AliveStep(events, states, i);
    if i > 0 {
      AliveIff(events, states, i - 1);
    }
  }

  /** A slave that falls silent at `p` is noticed: with an update at least every `d`, none that begins after `p` plus the
      timeout and `d` finds the connection alive. */
  lemma SilenceIsNoticed(events: seq<Event>, states: seq<Master>, who: string, p: nat, d: nat, timeout: nat, i: nat, j: nat)
    requires IsRun(events, states) && i < j < |events| && events[i].Update? && events[j].Update?
    requires forall k :: i <= k < j && events[k].Update? && events[k].topic.Some? ==>
      var t := events[k].topic.value; who in t.whoWhen && t.whoWhen[who] <= p && t.config.connectionTimeoutDur == timeout
    requires events[j].clock.first <= events[i].clock.first + d && events[j].clock.first >= p + timeout + d
    ensures !states[j].alive
  {
    assert states[i + 1] == Step(states[i], events[i]);
    var r := events[i].clock;
    assert InOrder(r) && r.first <= r.slave(who);
    if states[i].alive && events[i].topic.Some? {
      assert r.slave(who) - events[i].topic.value.whoWhen[who] >= timeout;
      assert Lapsed(events[i].topic.value, r.slave);
    }
    StaysDead(events, states, i + 1, j);
  }

  lemma {:induction false} StaysDead(events: seq<Event>, states: seq<Master>, i: nat, j: nat)
    requires IsRun(events, states) && i <= j <= |events| && !states[i].alive
    ensures !states[j].alive
    decreases j
  {
    if i < j {
      StaysDead(events, states, i, j - 1);
      assert states[j] == Step(states[j - 1], events[j - 1]);
    }
  }

  /** Every topic is for at least one slave. */
  ghost predicate ForSlaves(s: State)
  {
    forall id :: id in s.idTopicMap ==> s.idTopicMap[id].config.slaveCount > 0
  }

  /** Where every opening was checked, as those of master connections are, no update ever aborts. */
  lemma StaysForSlaves(s: State, op: Op, m: Master, id: nat)
    requires ForSlaves(s) && (op.Open? ==> ValidConfiguration(op.config))
    ensures var s' := ConnectionControl.Step(s, op);
      ForSlaves(s') && !Aborts(m, Lookup(s', id))
  {}

  /** So over every run of the registry. */
  lemma {:induction false} RunForSlaves(s: State, ops: seq<Op>, registry: seq<State>, i: nat, m: Master, id: nat)
    requires ForSlaves(s) && ConnectionControl.IsRun(s, ops, registry) && i <= |ops|
    requires forall k :: 0 <= k < i && ops[k].Open? ==> ValidConfiguration(ops[k].config)
    ensures ForSlaves(registry[i]) && !Aborts(m, Lookup(registry[i], id))
    decreases i
  {
    if i > 0 {
      RunForSlaves(s, ops, registry, i - 1, m, id);
      StaysForSlaves(registry[i - 1], ops[i - 1], m, id);
      assert registry[i] == ConnectionControl.Step(registry[i - 1], ops[i - 1]);
    }
  }

  function Lookup(s: State, id: nat): Option<Topic>
  {
    if id in s.idTopicMap then Some(s.idTopicMap[id]) else None
  }

  // ----- the connection -----

  class MasterConnection {
    const connectionId: nat
    const controller: ConnectionController
    var isAliveFlag: bool
    var isConnectionDisposed: bool
    var isConnectionDisposeInquired: bool
    var firstTimepoint: Option<nat>
    var brokeTimepoint: Option<nat>
    var isClosed: bool
    ghost var closings: nat

    ghost function Abstract(): Master
      reads this
    {
      Master(isAliveFlag, isConnectionDisposed, isConnectionDisposeInquired, firstTimepoint, brokeTimepoint, isClosed, closings)
    }

    constructor (config: MasterConfiguration, controller: ConnectionController)
      requires controller.Valid() && ValidConfiguration(config)
      modifies controller
      ensures controller.Valid() && controller.Abstract() == Opened(old(controller.Abstract()), config)
      ensures Abstract() == FRESH && this.controller == controller && connectionId in controller.idTopicMap
    {
      var id := controller.OpenConnection(config);
      this.controller, connectionId := controller, id;
      isAliveFlag, isConnectionDisposed, isConnectionDisposeInquired := true, false, false;
      firstTimepoint, brokeTimepoint, isClosed, closings := None, None, false, 0;
    }

    /** The public constructor, which throws on a configuration out of range, before it opens anything. */
    static method Create(config: MasterConfiguration, controller: ConnectionController) returns (m: MasterConnection?)
      requires controller.Valid()
      modifies controller
      ensures m == null <==> !ValidConfiguration(config)
      ensures m == null ==> controller.Abstract() == old(controller.Abstract())
      ensures controller.Valid()
      ensures m != null ==> fresh(m) && m.Abstract() == FRESH && m.controller == controller && m.connectionId in controller.idTopicMap
      ensures m != null ==> controller.Abstract() == Opened(old(controller.Abstract()), config)
    {
      if !ValidConfiguration(config) {
        return null;
      }
      m := new MasterConnection(config, controller);
    }

    /** `close_connection` of whoever gets the dispose flag first. */
    method DisposeOnce()
      requires controller.Valid()
      modifies this, controller
      ensures controller.Valid() && Abstract() == Dispose(old(Abstract()))
      ensures controller.Abstract() == if old(isConnectionDisposed) then old(controller.Abstract())
              else Closed(old(controller.Abstract()), connectionId)
    {
      if isConnectionDisposed {
        return;
      }
      isConnectionDisposed := true;
      closings := closings + 1;
      controller.CloseConnection(connectionId);
    }

    method Close()
      requires controller.Valid()
      modifies this, controller
      ensures controller.Valid() && Abstract() == CloseCalled(old(Abstract()))
      ensures controller.Abstract() == if closings > old(closings) then Closed(old(controller.Abstract()), connectionId)
              else old(controller.Abstract())
    {
      if isClosed {
        return;
      }
      isClosed := true;
      DisposeOnce();
    }

    /** The loop over the slaves' last pings. */
    method AnyLapsed(topic: Topic, now: string -> nat) returns (lapsed: bool)
      ensures lapsed <==> Lapsed(topic, now)
    {
      var rest := topic.whoWhen.Keys;
      while rest != {}
        invariant rest <= topic.whoWhen.Keys
        invariant forall who :: who in topic.whoWhen && who !in rest ==> now(who) - topic.whoWhen[who] < topic.config.connectionTimeoutDur
        decreases |rest|
      {
        var who :| who in rest;
        if now(who) - topic.whoWhen[who] >= topic.config.connectionTimeoutDur {
          return true;
        }
        rest := rest - {who};
      }
      return false;
    }

    /** `MasterConnection::InternalResolutor::update` */
    method Update(r: Reads) returns (aborted: bool)
      requires controller.Valid() && InOrder(r)
      modifies this, controller
      ensures controller.Valid()
      ensures var topic := Lookup(old(controller.Abstract()), connectionId);
        && (aborted <==> Aborts(old(Abstract()), topic))
        && (!aborted ==> Abstract() == Updated(old(Abstract()), r, topic))
      ensures controller.Abstract() == if closings > old(closings) then Closed(old(controller.Abstract()), connectionId)
              else old(controller.Abstract())
    {
      if !isAliveFlag {
        if isConnectionDisposeInquired {
          return false;
        }
        isConnectionDisposeInquired := true;
        DisposeOnce();
        return false;
      }
      if firstTimepoint.None? {
        firstTimepoint := Some(r.first);
      }
      var topic := controller.GetConnection(connectionId);
      if topic.None? {
        isAliveFlag := false;
        return false;
      }
      if topic.value.config.slaveCount == 0 {
        return true;
      }
      aborted := false;
      CheckTopic(topic.value, r);
    }

    /** The tests of a topic that is there. */
    method CheckTopic(topic: Topic, r: Reads)
      requires isAliveFlag && firstTimepoint.Some?
      modifies this`isAliveFlag, this`brokeTimepoint
      ensures Abstract() == Updated(old(Abstract()), r, Some(topic))
    {
      var config := topic.config;
      if |topic.whoWhen| == config.slaveCount && brokeTimepoint.None? {
        brokeTimepoint := Some(r.full);
      }
      if brokeTimepoint.None? && r.broke - firstTimepoint.value >= config.connectionBrokeDur {
        isAliveFlag := false;
        return;
      }
      if brokeTimepoint.Some? && r.abs - brokeTimepoint.value >= config.absTimeoutDur {
        isAliveFlag := false;
        return;
      }
      var lapsed := AnyLapsed(topic, r.slave);
      if lapsed {
        isAliveFlag := false;
      }
    }
  }
}
