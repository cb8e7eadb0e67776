/** The daemon's bound is exact: runs that reach it, and with them exactly which configurations keep a promise of `x`. */
module SlaveWorstCase {
  import opened Options
  import opened SlaveLiveness

  /** Every run of the daemon of `c`, paced by `d` and `w`, has given up by the end of `x` after the topic went at `t`:
      no update but the first that ends then or later finds the slave alive. */
  ghost predicate DeadBy(c: Config, d: nat, w: nat, t: nat, x: nat)
  {
    forall clocks: seq<Reads>, answers: seq<Answer>, states: seq<Slave> ::
      IsRun(c, clocks, answers, states) && Paced(clocks, d, w) && NoSuccessAfter(answers, states, t) && |clocks| > 0 && clocks[0].mark <= t + d
      ==> forall i :: 0 < i < |clocks| && clocks[i].mark >= t + x ==> !states[i].alive
  }

  // ----- a run that lives long -----

  /** A daemon that starts as the topic goes, at `t`. Its first update takes `w` and sends a ping, which `polls` updates,
      a tick apart, find under way; at `answer` it turns out to have been answered. An update from `resend` to `sent`
      sends another, which as many updates as there are ticks in the timeout find under way. One more update comes `d` later. */
  datatype Plan = Plan(c: Config, t: nat, d: nat, w: nat, polls: nat, answer: nat, resend: nat, sent: nat)
  {
    function Clock(i: nat): Reads
    {
      if i == 0 then Reads(t, t, t, t + w)
      else if i <= polls then At(t + w + i - 1)
      else if i == polls + 1 then At(answer)
      else if i == polls + 2 then Reads(resend, resend, resend, sent)
      else if i <= polls + 2 + c.connectionTimeoutDur then At(sent + i - polls - 3)
      else At(sent + Greatest(0, c.connectionTimeoutDur - 1) + d)
    }

    function Reply(i: nat): Answer
    {
      Answer(if i == polls + 1 then Succeeded else Pending, false)
    }

    /** The daemon before the `i`th update. */
    function Before(i: nat): Slave
    {
      if i == 0 then START
      else if i == 1 then Slave(true, Some(t), Some(t), Some(PingPromise(t, t + w)))
      else if i <= polls + 1 then Slave(true, Some(t + w + i - 2), Some(t), Some(PingPromise(t, t + w)))
      else if i == polls + 2 then Slave(true, Some(answer), Some(t), None)
      else if i == polls + 3 then Slave(true, Some(answer), Some(t), Some(PingPromise(resend, sent)))
      else Slave(true, Some(sent + i - polls - 4), Some(t), Some(PingPromise(resend, sent)))
    }

    /** The first answer can come then, given the timeout, and the next update after it, given the pacing. */
    ghost predicate Answered()
    {
      && c.connectionTimeoutDur > 0 && c.absTimeoutDur > 0 && d > 0 && w <= d
      && 0 < polls <= c.connectionTimeoutDur && t + w + polls - 1 <= answer <= t + w + polls - 1 + d
      && answer <= resend <= sent <= resend + w && sent <= answer + d
    }

    /** That update sends another ping, later than `t`. */
    ghost predicate Resent()
    {
      && t < resend
      && resend - answer < c.connectionTimeoutDur && resend - t < c.absTimeoutDur
    }

    ghost function Clocks(n: nat): seq<Reads> { seq(n, i requires i >= 0 => Clock(i)) }

    ghost function Replies(n: nat): seq<Answer> { seq(n, i requires i >= 0 => Reply(i)) }

    ghost function States(n: nat): seq<Slave>
      requires n > 0
    {
      seq(n, i requires i >= 0 => Before(i)) + [Step(c, Before(n - 1), Clock(n - 1), Reply(n - 1))]
    }
  }

  /** The first `n` updates of the plan are a run, after which the daemon stands where the plan says. */
  lemma {:induction false} PlanIsRun(p: Plan, n: nat)
    requires p.Answered() && (n == p.polls + 3 || (n == p.polls + 4 + p.c.connectionTimeoutDur && p.Resent()))
    ensures IsRun(p.c, p.Clocks(n), p.Replies(n), p.States(n)) && NoSuccessAfter(p.Replies(n), p.States(n), p.t)
    ensures p.States(n)[n - 1].alive
  {
    forall i | 0 <= i < n
      ensures p.States(n)[i + 1] == Step(p.c, p.States(n)[i], p.Clocks(n)[i], p.Replies(n)[i])
    {
      if i < n - 1 {
        PlanStep(p, i, n);
      }
    }
  }

  lemma {:induction false} PlanStep(p: Plan, i: nat, n: nat)
    requires p.Answered() && i < n - 1 && (n == p.polls + 3 || (n == p.polls + 4 + p.c.connectionTimeoutDur && p.Resent()))
    ensures p.Before(i + 1) == Step(p.c, p.Before(i), p.Clock(i), p.Reply(i))
  {}

  lemma {:induction false} PlanKeepsPace(p: Plan, i: nat)
    requires p.Answered()
    ensures InOrder(p.Clock(i)) && p.Clock(i).mark - p.Clock(i).first <= p.w
    ensures p.Clock(i + 1).first >= p.Clock(i).mark && p.Clock(i + 1).mark <= p.Clock(i).first + p.d
  {}

  lemma {:induction false} PlanIsPaced(p: Plan, n: nat)
    requires p.Answered()
    ensures Paced(p.Clocks(n), p.d, p.w)
  {
    forall i | 0 <= i < n ensures InOrder(p.Clocks(n)[i]) && p.Clocks(n)[i].mark - p.Clocks(n)[i].first <= p.w {
      PlanKeepsPace(p, i);
    }
    forall i | 0 <= i < n - 1
      ensures Next(p.Clocks(n), i).first >= p.Clocks(n)[i].mark && Next(p.Clocks(n), i).mark <= p.Clocks(n)[i].first + p.d
    {
      PlanKeepsPace(p, i);
      assert Next(p.Clocks(n), i) == p.Clock(i + 1);
    }
  }

  /** So the daemon has not given up by the end of the last update. */
  lemma PlanSurvives(p: Plan, n: nat, x: nat)
    requires p.Answered() && (n == p.polls + 3 || (n == p.polls + 4 + p.c.connectionTimeoutDur && p.Resent()))
    requires p.Clock(n - 1).mark >= p.t + x
    ensures !DeadBy(p.c, p.d, p.w, p.t, x)
  {
    PlanIsRun(p, n);
    PlanIsPaced(p, n);
    assert p.Clocks(n)[0] == p.Clock(0) && p.Clocks(n)[n - 1] == p.Clock(n - 1);
  }

  lemma LateAnswerSurvives(c: Config, d: nat, w: nat, t: nat, x: nat)
    requires c.connectionTimeoutDur > 0 && c.absTimeoutDur > 0 && d > 0 && x <= LastAnswer(c, d, w) + d
    ensures !DeadBy(c, d, w, t, x)
  {
    var at := t + LastAnswer(c, d, w);
    var p := Plan(c, t, d, Least(w, d), c.connectionTimeoutDur, at, at + d, at + d);
    PlanSurvives(p, p.polls + 3, x);
    SlowerUpdates(c, d, Least(w, d), w, t, x);
  }

  lemma LatePingSurvives(c: Config, d: nat, w: nat, t: nat, x: nat)
    requires c.connectionTimeoutDur > 0 && c.absTimeoutDur > 0 && d > 0
    requires LastAnswer(c, d, w) + d < x <= LastPing(c, d, w) + c.connectionTimeoutDur - 1 + d
    ensures !DeadBy(c, d, w, t, x)
  {
    var sent := t + LastPing(c, d, w);
    var resend := sent - Least(w, d);
    var answer := Least(t + LastAnswer(c, d, w), resend);
    var polls := 1 + Least(c.connectionTimeoutDur - 1, answer - t - Least(w, d));
    var p := Plan(c, t, d, Least(w, d), polls, answer, resend, sent);
    PlanSurvives(p, p.polls + 4 + c.connectionTimeoutDur, x);
    SlowerUpdates(c, d, Least(w, d), w, t, x);
  }

  /** Allowing longer updates allows more runs. */
  lemma SlowerUpdates(c: Config, d: nat, w: nat, w': nat, t: nat, x: nat)
    requires w <= w' && !DeadBy(c, d, w, t, x)
    ensures !DeadBy(c, d, w', t, x)
  {}

  /** With no time between updates the clock stands still. */
  lemma StandstillSurvives(c: Config, w: nat, t: nat)
    requires c.connectionTimeoutDur > 0 && c.absTimeoutDur > 0
    ensures !DeadBy(c, 0, w, t, 0)
  {
    var clocks, answers := [At(t), At(t)], [Answer(Pending, false), Answer(Pending, false)];
    var s1 := Step(c, START, clocks[0], answers[0]);
    var states := [START, s1, Step(c, s1, clocks[1], answers[1])];
    assert IsRun(c, clocks, answers, states);
  }

  lemma {:induction false} StandstillNeverLater(clocks: seq<Reads>, w: nat, i: nat)
    requires Paced(clocks, 0, w) && 0 < i < |clocks|
    ensures clocks[i].mark <= clocks[0].first
    decreases i
  {
    assert Next(clocks, i - 1) == clocks[i];
    if i > 1 {
      StandstillNeverLater(clocks, w, i - 1);
    }
  }

  /** The exact condition: the daemon has given up by `x` after the topic went, in every run, if and only if a timeout
      is zero, or `x` is more than `Worst`. Without pacing (`d` zero) there is no later update to find it alive. */
  lemma DeadByIff(c: Config, d: nat, w: nat, t: nat, x: nat)
    ensures DeadBy(c, d, w, t, x) <==>
      c.connectionTimeoutDur == 0 || c.absTimeoutDur == 0 || if d == 0 then x > 0 else x > Worst(c, d, w)
  {
    if c.connectionTimeoutDur > 0 && c.absTimeoutDur > 0 && d > 0 && x <= Worst(c, d, w) {
      if x <= LastAnswer(c, d, w) + d {
        LateAnswerSurvives(c, d, w, t, x);
      } else {
        LatePingSurvives(c, d, w, t, x);
      }
    } else if c.connectionTimeoutDur > 0 && c.absTimeoutDur > 0 && d == 0 && x == 0 {
      StandstillSurvives(c, w, t);
    } else {
      forall clocks: seq<Reads>, answers: seq<Answer>, states: seq<Slave>, i |
        IsRun(c, clocks, answers, states) && Paced(clocks, d, w) && NoSuccessAfter(answers, states, t) && |clocks| > 0 && clocks[0].mark <= t + d
        && 0 < i < |clocks| && clocks[i].mark >= t + x
        ensures !states[i].alive
      {
        BoundedAfter(c, clocks, answers, states, t, d, w, i - 1);
        if d == 0 {
          StandstillNeverLater(clocks, w, i);
          assert InOrder(clocks[0]);
        } else if c.connectionTimeoutDur > 0 && c.absTimeoutDur > 0 {
          DeadAfterWorst(c, clocks, answers, states, t, d, w, i);
        }
      }
    }
  }

  /** One timeout, as the design note has it, is kept by exactly the configurations with nothing to keep. */
  lemma OneTimeoutIff(c: Config, d: nat, w: nat, t: nat)
    ensures DeadBy(c, d, w, t, c.connectionTimeoutDur) <==> c.connectionTimeoutDur == 0 || c.absTimeoutDur == 0 || d == 0
  {
    DeadByIff(c, d, w, t, c.connectionTimeoutDur);
  }
}
