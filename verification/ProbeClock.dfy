/** When the dispatcher fires: never before its deadline, never twice within an interval, and never on
    an earlier tick than before. */
module ProbeClock {
  import opened Numbers
  import opened Options
  import opened ProbeProtocol

  /** A dispatch time that is due, and at least an interval after the last dispatch. */
  ghost predicate Due(c: Config, s: State, at: real) {
    && Deadline(c, s.counted) <= at <= s.clock && s.counted == s.tick
    && (s.sent != [] ==> at - s.lastDispatch >= c.interval)
  }

  ghost predicate DispatcherOnSchedule(c: Config, s: State) {
    match s.dispatcher
    case Looping => true
    case Waiting => s.counted < s.tick
    case OnTime => s.counted < s.tick && Deadline(c, s.tick) <= s.clock
    case Firing(now) => s.counted > 0 && Due(c, s, now)
    case Permitted(now) => s.counted > 0 && Due(c, s, now)
    case Numbered(job) => s.counted > 0 && Due(c, s, job.at)
    case Returned => true
  }

  ghost predicate TicksOnSchedule(c: Config, s: State) {
    && 0 <= s.ticks <= s.counted <= s.tick
    && (s.counted > 0 ==> Deadline(c, s.counted) <= s.clock)
  }

  ghost predicate SentSpaced(c: Config, s: State) {
    && (forall i | 0 <= i < |s.sent| :: Deadline(c, 1) <= s.sent[i].at <= s.clock)
    && (forall i | 0 <= i < |s.sent| - 1 :: s.sent[i + 1].at - s.sent[i].at >= c.interval)
    && (s.sent != [] ==> s.lastDispatch == s.sent[|s.sent| - 1].at)
  }

  ghost predicate WorkersOnClock(s: State) {
    forall w | 0 <= w < |s.workers| ::
      && (s.workers[w].Writing? ==> s.workers[w].job.at <= s.clock)
      && (s.workers[w].Answered? ==> s.workers[w].job.at <= s.workers[w].at <= s.clock)
      && (s.workers[w].Noted? ==> s.workers[w].job.at <= s.workers[w].at <= s.clock)
  }

  ghost predicate QueueOnClock(s: State) {
    forall i | 0 <= i < |s.queue| :: s.queue[i].at <= s.clock
  }

  ghost predicate OnSchedule(c: Config, s: State) {
    && DispatcherOnSchedule(c, s) && TicksOnSchedule(c, s) && SentSpaced(c, s)
    && WorkersOnClock(s) && QueueOnClock(s)
  }

  lemma DeadlineNext(c: Config, tick: int)
    ensures Deadline(c, tick + 1) == Deadline(c, tick) + c.interval
  {
  }

  lemma {:induction false} DeadlineMonotone(c: Config, m: int, n: int)
    requires ValidConfig(c) && m <= n
    ensures Deadline(c, m) + (n - m) as real * c.interval == Deadline(c, n)
    ensures Deadline(c, m) <= Deadline(c, n)
    decreases n - m
  {
    if m < n {
      DeadlineMonotone(c, m + 1, n);
      DeadlineNext(c, m);
      assert (n - m) as real * c.interval == (n - m - 1) as real * c.interval + c.interval;
    }
  }

  lemma SpacingAtLeastInterval(c: Config, median: Option<real>)
    requires ValidConfig(c)
    ensures Spacing(c, median) >= c.interval
  {
  }

  /** Skipping forward lands on a later tick than the one that was missed. */
  lemma SkipGoesForward(c: Config, missed: int, later: real)
    requires ValidConfig(c) && missed >= 0 && later - Deadline(c, missed) > c.interval
    ensures Truncate((later - c.epoch) / c.interval) > missed
  {
    var x := later - c.epoch;
    DeadlineNext(c, missed);
    assert x > (missed + 1) as real * c.interval;
    assert (x / c.interval) * c.interval == x;
    assert (x / c.interval - (missed + 1) as real) * c.interval > 0.0;
    assert x / c.interval > (missed + 1) as real;
  }

  /** Every pass through the loop works on a later tick, including one that skips forward. */
  lemma TickStrictlyIncreases(c: Config, s: State, now: real, later: real)
    requires ValidConfig(c) && Enabled(c, s, Tick(now, later)) && !s.stop && s.tick >= 0
    ensures Next(c, s, Tick(now, later)).tick > s.tick
  {
    if now - Deadline(c, s.tick + 1) > c.interval {
      SkipGoesForward(c, s.tick + 1, later);
    }
  }

  /** A pass through the loop: without a stop it takes the next tick, waits while that is not due, and fires it
      when it is due and no more than an interval late. Any later, it skips to the last tick that is due. */
  lemma TickDecides(c: Config, s: State, now: real, later: real)
    requires ValidConfig(c) && Enabled(c, s, Tick(now, later)) && s.tick >= 0
    ensures var t, due := Next(c, s, Tick(now, later)), Deadline(c, s.tick + 1);
      && (t.dispatcher.Returned? <==> s.stop)
      && (t.dispatcher.Waiting? <==> !s.stop && now < due)
      && (t.dispatcher.OnTime? <==> !s.stop && due <= now <= due + c.interval)
      && (t.dispatcher.Waiting? || t.dispatcher.OnTime? ==> t.tick == s.tick + 1)
      && (!s.stop && now > due + c.interval ==> t.dispatcher.Looping? && Deadline(c, t.tick) <= later < Deadline(c, t.tick + 1))
  {
    if !s.stop && now > Deadline(c, s.tick + 1) + c.interval {
      SkipGoesForward(c, s.tick + 1, later);
      LastDue(c, later);
    }
  }

  lemma WholeIntervals(x: real, d: real, y: real)
    requires x >= 0.0 && d > 0.0 && x * d == y
    ensures var n := Truncate(x); n as real * d <= y < (n + 1) as real * d
  {
    TruncateIs(x);
    hide Truncate;
    Between(Truncate(x) as real, x, (Truncate(x) + 1) as real, d, y);
  }

  lemma Between(k: real, x: real, l: real, d: real, y: real)
    requires k <= x < l && d > 0.0 && x * d == y
    ensures k * d <= y < l * d
  {
    NotMore(k, x, d);
    LessProduct(x, l, d);
    assert k * d <= x * d < l * d;
  }

  lemma NotMore(x: real, z: real, d: real)
    requires x <= z && d > 0.0
    ensures x * d <= z * d
  {
    NonNegativeProduct(z - x, d);
    assert (z - x) * d == z * d - x * d;
  }

  lemma QuotientOf(y: real, d: real)
    requires y >= 0.0 && d > 0.0
    ensures (y / d) * d == y && y / d >= 0.0
  {
  }

  lemma LessProduct(x: real, z: real, d: real)
    requires x < z && d > 0.0
    ensures x * d < z * d
  {
    assert (z - x) * d > 0.0;
    assert (z - x) * d == z * d - x * d;
  }

  lemma LastDue(c: Config, later: real)
    requires ValidConfig(c) && later >= c.epoch
    ensures var n := Truncate((later - c.epoch) / c.interval); Deadline(c, n) <= later < Deadline(c, n + 1)
  {
    hide Truncate;
    QuotientOf(later - c.epoch, c.interval);
    WholeIntervals((later - c.epoch) / c.interval, c.interval, later - c.epoch);
  }

  lemma ScheduleInitially(c: Config)
    requires ValidConfig(c)
    ensures OnSchedule(c, Init(c))
  {
  }

  lemma TickKeeps(c: Config, s: State, now: real, later: real)
    requires ValidConfig(c) && Enabled(c, s, Tick(now, later)) && OnSchedule(c, s)
    ensures OnSchedule(c, Next(c, s, Tick(now, later)))
  {
    if !s.stop {
      TickStrictlyIncreases(c, s, now, later);
    }
    hide Deadline, Truncate;
  }

  lemma CountKeeps(c: Config, s: State, now: real)
    requires ValidConfig(c) && Enabled(c, s, Count(now)) && OnSchedule(c, s)
    ensures OnSchedule(c, Next(c, s, Count(now)))
  {
    SpacingAtLeastInterval(c, s.median);
    hide Deadline, Spacing;
  }

  lemma PutKeeps(c: Config, s: State)
    requires ValidConfig(c) && Enabled(c, s, Put) && OnSchedule(c, s)
    ensures OnSchedule(c, Next(c, s, Put))
  {
    DeadlineMonotone(c, 1, s.counted);
    hide Deadline;
    var job := s.dispatcher.job;
    var t := Next(c, s, Put);
    if t.sent != s.sent {
      assert t.sent == s.sent + [job];
    }
  }

  lemma OtherDispatcherStepsKeep(c: Config, s: State, a: Action)
    requires ValidConfig(c) && Enabled(c, s, a) && OnSchedule(c, s)
    requires a.Stop? || a.WaitElapsed? || a.WaitStopped? || a.Acquire? || a.Number?
    ensures OnSchedule(c, Next(c, s, a))
  {
    hide Deadline;
  }

  lemma DispatcherUntouched(c: Config, s: State, t: State)
    requires DispatcherOnSchedule(c, s) && TicksOnSchedule(c, s) && SentSpaced(c, s) && s.clock <= t.clock
    requires t.dispatcher == s.dispatcher && t.tick == s.tick && t.ticks == s.ticks && t.counted == s.counted
    requires t.sent == s.sent && t.lastDispatch == s.lastDispatch
    ensures DispatcherOnSchedule(c, t) && TicksOnSchedule(c, t) && SentSpaced(c, t)
  {
    hide Deadline;
  }

  lemma WorkerStepKeepsClocks(c: Config, s: State, a: Action)
    requires ValidConfig(c) && Enabled(c, s, a) && WorkersOnClock(s) && QueueOnClock(s)
    requires a.Poll? || a.Get? || a.Answer? || a.Note? || a.Record? || a.Release?
    ensures WorkersOnClock(Next(c, s, a)) && QueueOnClock(Next(c, s, a))
  {
    hide PushLatency, MiddleOf;
  }

  lemma WorkerStepsKeep(c: Config, s: State, a: Action)
    requires ValidConfig(c) && Enabled(c, s, a) && OnSchedule(c, s)
    requires a.Poll? || a.Get? || a.Answer? || a.Note? || a.Record? || a.Release?
    ensures OnSchedule(c, Next(c, s, a))
  {
    hide PushLatency, MiddleOf, DispatcherOnSchedule, TicksOnSchedule, SentSpaced, WorkersOnClock, QueueOnClock;
    WorkerStepKeepsClocks(c, s, a);
    DispatcherUntouched(c, s, Next(c, s, a));
  }

  lemma {:induction false} Scheduled(c: Config, actions: seq<Action>, s: State)
    requires ValidConfig(c) && Run(c, actions) == Some(s)
    ensures OnSchedule(c, s)
  {
    if actions == [] {
      ScheduleInitially(c);
    } else {
      var n := |actions| - 1;
      var before, a := Run(c, actions[..n]).value, actions[n];
      Scheduled(c, actions[..n], before);
      match a {
        case Tick(now, later) => TickKeeps(c, before, now, later);
        case Count(now) => CountKeeps(c, before, now);
        case Put => PutKeeps(c, before);
        case Poll(_) => WorkerStepsKeep(c, before, a);
        case Get(_) => WorkerStepsKeep(c, before, a);
        case Answer(_, _, _) => WorkerStepsKeep(c, before, a);
        case Note(_) => WorkerStepsKeep(c, before, a);
        case Record(_) => WorkerStepsKeep(c, before, a);
        case Release(_) => WorkerStepsKeep(c, before, a);
        case _ => OtherDispatcherStepsKeep(c, before, a);
      }
      hide *;
      assert OnSchedule(c, s);
    }
  }

  /** Counted tick n never fires before epoch + n * interval, so at any moment there have been at most
      as many counted ticks as whole intervals since the epoch. */
  lemma TicksBoundedByElapsedTime(c: Config, actions: seq<Action>, s: State)
    requires ValidConfig(c) && Run(c, actions) == Some(s)
    ensures s.ticks as real * c.interval <= s.clock - c.epoch || s.ticks == 0
  {
    hide Run;
    Scheduled(c, actions, s);
    if s.ticks > 0 {
      DeadlineMonotone(c, s.ticks, s.counted);
    }
  }

  /** Jobs i..j of a run span at least j - i intervals. */
  lemma {:induction false} DispatchesSpread(c: Config, actions: seq<Action>, s: State, i: nat, j: nat)
    requires ValidConfig(c) && Run(c, actions) == Some(s) && i <= j < |s.sent|
    ensures s.sent[j].at - s.sent[i].at >= (j - i) as real * c.interval
    decreases j - i
  {
    hide Run;
    if i < j {
      DispatchesSpread(c, actions, s, i, j - 1);
      Scheduled(c, actions, s);
      assert s.sent[j - 1 + 1].at - s.sent[j - 1].at >= c.interval;
      assert (j - i) as real * c.interval == (j - 1 - i) as real * c.interval + c.interval;
    }
  }
}
