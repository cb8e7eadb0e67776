/** The slave's daemon: it pings the master, and gives the connection up in bounded time once the master is gone. */
module SlaveLiveness {
  import opened Options

  /** A ping under way: when its call began, and the clock right after it. */
  datatype PingPromise = PingPromise(called: nat, since: nat)

  /** `SlaveConnection::InternalResolutor` */
  datatype Slave = Slave(alive: bool, lastUpdated: Option<nat>, since: Option<nat>, promise: Option<PingPromise>)

  const START: Slave := Slave(true, None, None, None)

  datatype Config = Config(connectionTimeoutDur: nat, absTimeoutDur: nat)

  /** The clock readings of one `update`, in the order they are taken. */
  datatype Reads = Reads(first: nat, check: nat, recheck: nat, mark: nat)

  /** The state of the ping under way, and whether sending a new one throws. */
  datatype Status = Pending | Succeeded | Failed

  datatype Answer = Answer(status: Status, pingThrows: bool)

  function Dead(s: Slave): Slave { s.(alive := false, promise := None) }

  /** One `update`. */
  function Step(c: Config, s: Slave, r: Reads, a: Answer): Slave
  {
    if !s.alive then s else
      var s := if s.lastUpdated.None? then s.(lastUpdated := Some(r.first), since := Some(r.first)) else s;
      if s.promise.Some? then
        match a.status
        case Succeeded => s.(promise := None, lastUpdated := Some(r.mark))
        case Failed => Dead(s)
        case Pending =>
          if r.check - s.promise.value.since < c.connectionTimeoutDur then s.(lastUpdated := Some(r.mark)) else Dead(s)
      else if r.check - s.lastUpdated.value >= c.connectionTimeoutDur then s.(alive := false)
      else if s.since.Some? && r.recheck - s.since.value >= c.absTimeoutDur then s.(alive := false)
      else if a.pingThrows then s.(alive := false)
      else s.(promise := Some(PingPromise(r.recheck, r.mark)))
  }

  /** A run of updates from the start: `states[i]` before the `i`th one. */
  ghost predicate IsRun(c: Config, clocks: seq<Reads>, answers: seq<Answer>, states: seq<Slave>)
  {
    && |answers| == |clocks| && |states| == |clocks| + 1 && states[0] == START
    && forall i :: 0 <= i < |clocks| ==> states[i + 1] == Step(c, states[i], clocks[i], answers[i])
  }

  /** The clock does not go back, an update takes at most `w`, and each is over within `d` of the start of the one before. */
  ghost predicate Paced(clocks: seq<Reads>, d: nat, w: nat)
  {
    && (forall i :: 0 <= i < |clocks| ==> InOrder(clocks[i]) && clocks[i].mark - clocks[i].first <= w)
    && (forall i :: 0 <= i < |clocks| - 1 ==> Next(clocks, i).first >= clocks[i].mark && Next(clocks, i).mark <= clocks[i].first + d)
  }

  predicate InOrder(r: Reads) { r.first <= r.check <= r.recheck <= r.mark }

  function Next(clocks: seq<Reads>, i: int): Reads
    requires 0 <= i < |clocks| - 1
  {
    clocks[i + 1]
  }

  /** The master's topic is gone at `t`: no ping whose call began later succeeds. */
  ghost predicate NoSuccessAfter(answers: seq<Answer>, states: seq<Slave>, t: nat)
  {
    forall i :: 0 <= i < |answers| && i < |states| && states[i].alive && states[i].promise.Some? && answers[i].status.Succeeded?
      ==> states[i].promise.value.called <= t
  }

  function Least(a: int, b: int): int { if a < b then a else b }

  function Greatest(a: int, b: int): int { if a < b then b else a }

  /** How long after the topic went the last good ping can be found answered: sent in an update that began as the
      topic went, under way for all of the timeout but one, and looked at one pacing period later. */
  function LastAnswer(c: Config, d: nat, w: nat): int
  {
    Least(w, d) + c.connectionTimeoutDur - 1 + d
  }

  /** How long after the topic went the ping after that, which cannot succeed, can be sent: within a pacing period,
      before the timeout, and before the connection is too old. */
  function LastPing(c: Config, d: nat, w: nat): int
  {
    LastAnswer(c, d, w) +
    Least(d, Least(c.connectionTimeoutDur - 1 + Least(w, d), c.absTimeoutDur - 1 + Least(w, d) - LastAnswer(c, d, w)))
  }

  /** How long after the topic went an update can end that finds the slave alive. */
  function Worst(c: Config, d: nat, w: nat): int
  {
    Greatest(LastAnswer(c, d, w) + d, LastPing(c, d, w) + c.connectionTimeoutDur - 1 + d)
  }

  /** Where an update that began at `first` and left the slave alive can stand, with the topic gone at `t`. */
  ghost predicate Bounded(c: Config, s: Slave, first: nat, t: nat, d: nat, w: nat)
  {
    s.alive ==>
      && c.connectionTimeoutDur > 0 && c.absTimeoutDur > 0 && s.lastUpdated.Some? && s.since.Some? && s.since.value <= first
      && match s.promise
         case None => first <= s.lastUpdated.value <= t + LastAnswer(c, d, w) && s.since.value <= t
         case Some(p) =>
           && s.since.value <= p.called <= p.since <= p.called + Least(w, d)
           && first < p.since + c.connectionTimeoutDur
           && (p.called > t ==> p.since <= t + Greatest(d, LastPing(c, d, w)))
  }

  lemma {:induction false} BoundedStep(c: Config, s: Slave, r: Reads, a: Answer, before: nat, t: nat, d: nat, w: nat)
    requires Bounded(c, s, before, t, d, w) && InOrder(r) && r.mark - r.first <= Least(w, d)
    requires before <= r.first && r.mark <= before + d
    requires s.alive && s.promise.Some? && a.status.Succeeded? ==> s.promise.value.called <= t
    ensures Bounded(c, Step(c, s, r, a), r.first, t, d, w)
  {}

  lemma {:induction false} BoundedAfter(c: Config, clocks: seq<Reads>, answers: seq<Answer>, states: seq<Slave>, t: nat, d: nat, w: nat, i: nat)
    requires IsRun(c, clocks, answers, states) && Paced(clocks, d, w) && NoSuccessAfter(answers, states, t)
    requires i < |clocks| - 1 && clocks[0].mark <= t + d
    ensures Bounded(c, states[i + 1], clocks[i].first, t, d, w)
    decreases i
  {
    assert states[i + 1] == Step(c, states[i], clocks[i], answers[i]);
    assert Next(clocks, i) == clocks[i + 1] && InOrder(clocks[i]) && InOrder(clocks[i + 1]);
    if i > 0 {
      BoundedAfter(c, clocks, answers, states, t, d, w, i - 1);
      assert Next(clocks, i - 1) == clocks[i] && InOrder(clocks[i - 1]);
      BoundedStep(c, states[i], clocks[i], answers[i], clocks[i - 1].first, t, d, w);
    }
  }

  /** No update that ends later than `Worst` after the topic went finds the slave alive. */
  lemma DeadAfterWorst(c: Config, clocks: seq<Reads>, answers: seq<Answer>, states: seq<Slave>, t: nat, d: nat, w: nat, i: nat)
    requires IsRun(c, clocks, answers, states) && Paced(clocks, d, w) && NoSuccessAfter(answers, states, t)
    requires 0 < i < |clocks| && clocks[0].mark <= t + d && clocks[i].mark > t + Worst(c, d, w)
    ensures !states[i].alive
  {
    BoundedAfter(c, clocks, answers, states, t, d, w, i - 1);
    assert Next(clocks, i - 1) == clocks[i];
  }

  /** `Worst` in round figures: two timeouts, three pacing periods and one update; what is missing is two ticks
      when the timeout exceeds the pacing period and the connection may grow old enough. */
  lemma {:induction false} WorstIsTwoTimeouts(c: Config, d: nat, w: nat)
    requires c.connectionTimeoutDur > 0
    ensures Worst(c, d, w) < w + 2 * c.connectionTimeoutDur + 3 * d
    ensures w <= d < c.connectionTimeoutDur && c.absTimeoutDur >= c.connectionTimeoutDur + 2 * d
      ==> Worst(c, d, w) == w + 2 * c.connectionTimeoutDur + 3 * d - 2
  {}

  /** The daemon's real-time bound: from two timeouts, three pacing periods and the length of one update after the
      topic went, no update finds the slave alive. The design note promises one timeout. */
  lemma DeadInTime(c: Config, clocks: seq<Reads>, answers: seq<Answer>, states: seq<Slave>, t: nat, d: nat, w: nat, i: nat)
    requires IsRun(c, clocks, answers, states) && Paced(clocks, d, w) && NoSuccessAfter(answers, states, t)
    requires 0 < i < |clocks| && clocks[0].mark <= t + d
    requires clocks[i].mark >= t + w + 2 * c.connectionTimeoutDur + 3 * d
    ensures !states[i].alive
  {
    if c.connectionTimeoutDur > 0 {
      WorstIsTwoTimeouts(c, d, w);
      DeadAfterWorst(c, clocks, answers, states, t, d, w, i);
    } else {
      BoundedAfter(c, clocks, answers, states, t, d, w, i - 1);
    }
  }

  /** Once given up, a connection stays given up. */
  lemma {:induction false} NeverRevives(c: Config, clocks: seq<Reads>, answers: seq<Answer>, states: seq<Slave>, i: nat, j: nat)
    requires IsRun(c, clocks, answers, states) && i <= j < |states| && !states[i].alive
    ensures !states[j].alive
    decreases j
  {
    if i < j {
      NeverRevives(c, clocks, answers, states, i, j - 1);
      assert states[j] == Step(c, states[j - 1], clocks[j - 1], answers[j - 1]);
    }
  }

  // ----- when the slave is alive, from the clocks and the answers alone -----

  /** The update that sent the ping under way after these answers: pings are sent one at a time, and a ping is under way
      until it is found answered. */
  function SentIn(answers: seq<Answer>): (sent: Option<nat>)
    ensures sent.Some? ==> sent.value < |answers|
    decreases |answers|
  {
    if answers == [] then None else
      var n := |answers| - 1;
      var before := SentIn(answers[..n]);
      if before.None? then Some(n) else if answers[n].status.Pending? then before else None
  }

  /** The last update gives no reason to give up. Its ping under way is answered well, or unanswered for less than the
      timeout; or none is under way, the last sign of life is younger than the timeout, the connection younger than its
      greatest age, and a new ping goes out. */
  predicate Passes(c: Config, clocks: seq<Reads>, answers: seq<Answer>)
    requires |clocks| == |answers| > 0
  {
    var n := |clocks| - 1;
    var r, a, sent := clocks[n], answers[n], SentIn(answers[..n]);
    if sent.Some? then
      a.status.Succeeded? || (a.status.Pending? && r.check - clocks[sent.value].mark < c.connectionTimeoutDur)
    else
      && r.check - (if n == 0 then r.first else clocks[n - 1].mark) < c.connectionTimeoutDur
      && r.recheck - clocks[0].first < c.absTimeoutDur
      && !a.pingThrows
  }

  /** What an alive slave remembers after these updates. */
  ghost predicate Remembers(s: Slave, clocks: seq<Reads>, answers: seq<Answer>)
    requires |clocks| == |answers|
  {
    && (clocks == [] ==> s == START)
    && (clocks != [] ==> s.since == Some(clocks[0].first) && s.lastUpdated.Some?)
    && (clocks != [] && SentIn(answers).None? ==> s.lastUpdated == Some(clocks[|clocks| - 1].mark))
    && (match SentIn(answers)
        case None => s.promise == None
        case Some(j) => s.promise == Some(PingPromise(clocks[j].recheck, clocks[j].mark)))
  }

  lemma {:induction false} PassingStep(c: Config, clocks: seq<Reads>, answers: seq<Answer>, s: Slave, r: Reads, a: Answer)
    requires |clocks| == |answers| && s.alive && Remembers(s, clocks, answers)
    ensures var s', clocks', answers' := Step(c, s, r, a), clocks + [r], answers + [a];
      (s'.alive <==> Passes(c, clocks', answers')) && (s'.alive ==> Remembers(s', clocks', answers'))
  {
    assert (answers + [a])[..|answers|] == answers;
  }

  lemma {:induction false} AliveStep(c: Config, clocks: seq<Reads>, answers: seq<Answer>, states: seq<Slave>, i: nat)
    requires IsRun(c, clocks, answers, states) && i <= |clocks|
    ensures i > 0 ==> (states[i].alive <==> states[i - 1].alive && Passes(c, clocks[..i], answers[..i]))
    ensures states[i].alive ==> Remembers(states[i], clocks[..i], answers[..i])
    decreases i
  {
    if i > 0 {
      AliveStep(c, clocks, answers, states, i - 1);
      assert states[i] == Step(c, states[i - 1], clocks[i - 1], answers[i - 1]);
      assert clocks[..i] == clocks[..i - 1] + [clocks[i - 1]] && answers[..i] == answers[..i - 1] + [answers[i - 1]];
      if states[i - 1].alive {
        PassingStep(c, clocks[..i - 1], answers[..i - 1], states[i - 1], clocks[i - 1], answers[i - 1]);
      }
    }
  }

  /** Over every run the slave is alive exactly as long as every update so far gave no reason to give up: a failed or
      throwing ping ends it at once, and nothing but these reasons does. */
  lemma {:induction false} AliveIff(c: Config, clocks: seq<Reads>, answers: seq<Answer>, states: seq<Slave>, i: nat)
    requires IsRun(c, clocks, answers, states) && i <= |clocks|
    ensures states[i].alive <==> forall k :: 0 < k <= i ==> Passes(c, clocks[..k], answers[..k])
    decreases i
  {
    AliveStep(c, clocks, answers, states, i);
    if i > 0 {
      AliveIff(c, clocks, answers, states, i - 1);
    }
  }

  /** A ping found failed, and a ping that cannot be sent, end the connection in that very update. */
  lemma FailureEndsIt(c: Config, clocks: seq<Reads>, answers: seq<Answer>, states: seq<Slave>, i: nat)
    requires IsRun(c, clocks, answers, states) && i < |clocks| && states[i].alive
    ensures states[i].promise.Some? && answers[i].status.Failed? ==> !states[i + 1].alive && states[i + 1].promise == None
    ensures states[i].promise.None? && answers[i].pingThrows ==> !states[i + 1].alive && states[i + 1].promise == None
  {
    assert states[i + 1] == Step(c, states[i], clocks[i], answers[i]);
  }

  /** The ping under way at the `k`th update, if there is one, was sent less than the timeout ago. */
  predicate Young(c: Config, clocks: seq<Reads>, answers: seq<Answer>, k: nat)
    requires k < |clocks| == |answers|
  {
    var sent := SentIn(answers[..k]);
    sent.Some? ==> clocks[k].check - clocks[sent.value].mark < c.connectionTimeoutDur
  }

  /** A slave whose pings all go out and are answered well before the timeout, in a connection not too old, with updates
      shorter and less apart than the timeout, is alive after every update. */
  lemma {:induction false} HealthyLives(c: Config, clocks: seq<Reads>, answers: seq<Answer>, states: seq<Slave>, d: nat, w: nat, i: nat)
    requires IsRun(c, clocks, answers, states) && Paced(clocks, d, w) && i <= |clocks|
    requires d < c.connectionTimeoutDur && w < c.connectionTimeoutDur
    requires forall k :: 0 <= k < i ==> !answers[k].pingThrows && !answers[k].status.Failed? && Young(c, clocks, answers, k)
    requires forall k :: 0 <= k < i ==> clocks[k].recheck - clocks[0].first < c.absTimeoutDur
    ensures states[i].alive
  {
    forall k | 0 < k <= i ensures Passes(c, clocks[..k], answers[..k]) {
      var n := k - 1;
      assert answers[..k][..n] == answers[..n] && InOrder(clocks[n]) && Young(c, clocks, answers, n);
      assert n > 0 ==> Next(clocks, n - 1) == clocks[n] && InOrder(clocks[n - 1]);
    }
    AliveIff(c, clocks, answers, states, i);
  }

  function At(now: nat): Reads { Reads(now, now, now, now) }

  // ----- the daemon -----

  class InternalResolutor {
    const config: Config
    var isAlive: bool
    var lastUpdated: Option<nat>
    var since: Option<nat>
    var pingPromise: Option<PingPromise>

    ghost function Abstract(): Slave
      reads this
    {
      Slave(isAlive, lastUpdated, since, pingPromise)
    }

    constructor (config: Config)
      ensures Abstract() == START && this.config == config
    {
      this.config, isAlive, lastUpdated, since, pingPromise := config, true, None, None, None;
    }

    method Update(r: Reads, a: Answer)
      requires lastUpdated.Some? ==> since.Some?
      modifies this
      ensures Abstract() == Step(config, old(Abstract()), r, a)
      ensures lastUpdated.Some? ==> since.Some?
    {
      if !isAlive {
        return;
      }
      if lastUpdated.None? {
        lastUpdated := Some(r.first);
        since := lastUpdated;
      }
      if pingPromise.Some? {
        match a.status {
          case Succeeded =>
            pingPromise := None;
            lastUpdated := Some(r.mark);
            return;
          case Failed =>
            isAlive := false;
            pingPromise := None;
            return;
          case Pending =>
        }
        var lapsed := r.check - pingPromise.value.since;
        if lapsed < config.connectionTimeoutDur {
          lastUpdated := Some(r.mark);
          return;
        }
        isAlive := false;
        pingPromise := None;
        return;
      }
      var lapsed := r.check - lastUpdated.value;
      if lapsed >= config.connectionTimeoutDur {
        isAlive := false;
        return;
      }
      lapsed := r.recheck - since.value;
      if lapsed >= config.absTimeoutDur {
        isAlive := false;
        return;
      }
      if a.pingThrows {
        isAlive := false;
        return;
      }
      pingPromise := Some(PingPromise(r.recheck, r.mark));
    }
  }
}
