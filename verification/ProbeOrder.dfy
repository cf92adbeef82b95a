/** The log is documented as being in completion order. It is, exactly when there is one worker. */
module ProbeOrder {
  import opened Numbers
  import opened Options
  import opened RtoAnalysis
  import opened ProbeProtocol
  import opened ProbeClock
  import opened ProbeLog

  ghost predicate InCompletionOrder(attempts: seq<Attempt>) {
    forall i, j | 0 <= i < j < |attempts| :: attempts[i].complete <= attempts[j].complete
  }

  /** Nothing is logged as later than an answer that is still to be logged. */
  ghost predicate AnswersLast(c: Config, s: State) {
    forall w, i | 0 <= w < |s.workers| && 0 <= i < |s.attempts| && (s.workers[w].Answered? || s.workers[w].Noted?) ::
      s.attempts[i].complete <= s.workers[w].at - c.epoch
  }

  lemma SingleWorkerWrites(c: Config, s: State, a: Action)
    requires ValidConfig(c) && Enabled(c, s, a) && |s.workers| == 1 && (a.Answer? || a.Record?)
    requires forall i | 0 <= i < |s.attempts| :: s.attempts[i].complete <= s.clock - c.epoch
    requires InCompletionOrder(s.attempts) && AnswersLast(c, s)
    ensures var t := Next(c, s, a); |t.workers| == 1 && InCompletionOrder(t.attempts) && AnswersLast(c, t)
  {
  }

  lemma OthersMoveNothing(c: Config, s: State, a: Action)
    requires ValidConfig(c) && Enabled(c, s, a) && |s.workers| == 1 && !a.Answer? && !a.Record?
    ensures var t := Next(c, s, a);
      && |t.workers| == 1 && t.attempts == s.attempts
      && (t.workers[0].Answered? ==> t.workers == s.workers)
      && (t.workers[0].Noted? ==> t.workers == s.workers || (s.workers[0].Answered? && t.workers[0].at == s.workers[0].at))
  {
    hide Deadline, Truncate, Spacing, PushLatency, MiddleOf;
  }

  lemma SingleWorkerStep(c: Config, s: State, a: Action)
    requires ValidConfig(c) && Enabled(c, s, a) && |s.workers| == 1
    requires forall i | 0 <= i < |s.attempts| :: s.attempts[i].complete <= s.clock - c.epoch
    requires InCompletionOrder(s.attempts) && AnswersLast(c, s)
    ensures var t := Next(c, s, a); |t.workers| == 1 && InCompletionOrder(t.attempts) && AnswersLast(c, t)
  {
    hide Next, Enabled, InCompletionOrder;
    if a.Answer? || a.Record? {
      SingleWorkerWrites(c, s, a);
    } else {
      OthersMoveNothing(c, s, a);
    }
  }

  lemma {:induction false} SingleWorkerOrdered(c: Config, actions: seq<Action>, s: State)
    requires ValidConfig(c) && c.workers == 1 && Run(c, actions) == Some(s)
    ensures |s.workers| == 1 && InCompletionOrder(s.attempts) && AnswersLast(c, s)
  {
    if actions != [] {
      var n := |actions| - 1;
      var before := Run(c, actions[..n]).value;
      assert Enabled(c, before, actions[n]) && s == Next(c, before, actions[n]);
      SingleWorkerOrdered(c, actions[..n], before);
      EveryNumberInOnePlace(c, actions[..n], before);
      hide Next, Enabled, Run, AnswersLast, InCompletionOrder, Fifo, FlightsFromQueue, Distinct, NothingLost;
      SingleWorkerStep(c, before, actions[n]);
    }
  }

  lemma Extend(c: Config, actions: seq<Action>, s: State, a: Action) returns (longer: seq<Action>, t: State)
    requires ValidConfig(c) && Run(c, actions) == Some(s) && Enabled(c, s, a)
    ensures Run(c, longer) == Some(t) && t == Next(c, s, a)
  {
    longer, t := actions + [a], Next(c, s, a);
    hide Enabled, Next;
    assert longer[..|longer| - 1] == actions;
  }

  /** A dispatch by a dispatcher that is due, with a permit and room in the queue. */
  lemma Dispatch(c: Config, actions: seq<Action>, s: State) returns (longer: seq<Action>, t: State)
    requires ValidConfig(c) && Run(c, actions) == Some(s)
    requires s.dispatcher.Looping? && !s.stop && s.median.None? && s.permits > 0 && |s.queue| < c.workers
    requires s.clock < Deadline(c, s.tick + 1) && Deadline(c, s.tick + 1) - s.lastDispatch >= c.interval
    ensures Run(c, longer) == Some(t)
    ensures var job := Job(s.lastNumber + 1, Deadline(c, s.tick + 1));
            t == s.(ticks := s.ticks + 1, counted := s.tick + 1, tick := s.tick + 1, clock := job.at,
                    permits := s.permits - 1, lastNumber := job.number, queue := s.queue + [job],
                    sent := s.sent + [job], lastDispatch := job.at)
  {
    hide Run;
    var due := Deadline(c, s.tick + 1);
    longer, t := Extend(c, actions, s, Tick(s.clock, s.clock));
    longer, t := Extend(c, longer, t, WaitElapsed(due));
    longer, t := Extend(c, longer, t, Count(due));
    longer, t := Extend(c, longer, t, Acquire);
    longer, t := Extend(c, longer, t, Number);
    longer, t := Extend(c, longer, t, Put);
  }

  /** Worker w takes the head of the queue. */
  lemma Take(c: Config, actions: seq<Action>, s: State, w: nat) returns (longer: seq<Action>, t: State)
    requires ValidConfig(c) && Run(c, actions) == Some(s) && !s.stop && s.queue != []
    requires w < |s.workers| && s.workers[w].Idle?
    ensures Run(c, longer) == Some(t)
    ensures t == s.(workers := s.workers[w := Writing(s.queue[0])], queue := s.queue[1..])
  {
    hide Run;
    longer, t := Extend(c, actions, s, Poll(w));
    longer, t := Extend(c, longer, t, Get(w));
    assert t.workers == s.workers[w := Writing(s.queue[0])];
  }

  lemma TwoQueued(c: Config) returns (actions: seq<Action>, s: State)
    requires ValidConfig(c) && c.workers >= 2
    ensures Run(c, actions) == Some(s) && |s.workers| == c.workers && s.attempts == [] && s.clock == Deadline(c, 2)
    ensures !s.stop && s.workers[0].Idle? && s.workers[1].Idle?
    ensures s.queue == [Job(1, Deadline(c, 1)), Job(2, Deadline(c, 2))]
  {
    assert c.epoch >= 0.0 && c.interval > 0.0;
    hide *;
    actions, s := [], Init(c);
    var workers := s.workers;
    InitialState(c);
    DeadlineNext(c, 0);
    DeadlineNext(c, 1);
    actions, s := Dispatch(c, actions, s);
    assert s.workers == workers && s.queue == [Job(1, Deadline(c, 1))];
    actions, s := Dispatch(c, actions, s);
    assert s.workers == workers;
  }

  lemma InitialState(c: Config)
    requires ValidConfig(c)
    ensures var s := Init(c);
      && Run(c, []) == Some(s) && |s.workers| == c.workers && (forall w | 0 <= w < c.workers :: s.workers[w].Idle?)
      && s.dispatcher.Looping? && !s.stop && s.median.None? && s.permits == c.workers && s.queue == []
      && s.clock == c.epoch == Deadline(c, 0) && s.tick == 0 && s.lastDispatch == 0.0 && s.lastNumber == 0
      && s.attempts == []
  {
  }

  /** Two jobs dispatched, one in flight on each of two workers. */
  lemma TwoInFlight(c: Config) returns (actions: seq<Action>, s: State)
    requires ValidConfig(c) && c.workers >= 2
    ensures Run(c, actions) == Some(s) && |s.workers| == c.workers && s.attempts == [] && s.clock == Deadline(c, 2)
    ensures s.workers[0] == Writing(Job(1, Deadline(c, 1))) && s.workers[1] == Writing(Job(2, Deadline(c, 2)))
  {
    hide Run, Deadline;
    actions, s := TwoQueued(c);
    actions, s := Take(c, actions, s, 0);
    actions, s := Take(c, actions, s, 1);
  }

  /** Worker 0 is answered first but worker 1 reaches the log first. */
  lemma LaterAnswerLoggedFirst(c: Config) returns (actions: seq<Action>, s: State)
    requires ValidConfig(c) && c.workers >= 2
    ensures Run(c, actions) == Some(s) && !InCompletionOrder(s.attempts)
  {
    actions, s := TwoInFlight(c);
    var t := s.clock;
    hide Run, Deadline, PushLatency, MiddleOf, DoTick, DoCount, DoAcquire, DoPut, DoGet;
    actions, s := Extend(c, actions, s, Answer(0, t, Timeout));
    actions, s := Extend(c, actions, s, Answer(1, t + c.interval, Timeout));
    actions, s := Extend(c, actions, s, Note(1));
    actions, s := Extend(c, actions, s, Record(1));
    actions, s := Extend(c, actions, s, Note(0));
    actions, s := Extend(c, actions, s, Record(0));
    assert s.attempts[0].complete == t + c.interval - c.epoch && s.attempts[1].complete == t - c.epoch;
  }

  /** Every run logs its attempts in completion order if and only if the pool has a single worker. */
  lemma CompletionOrderIffSingleWorker(c: Config)
    requires ValidConfig(c)
    ensures c.workers == 1 <==>
            forall actions, s | Run(c, actions) == Some(s) :: InCompletionOrder(s.attempts)
  {
    hide Run, InCompletionOrder;
    if c.workers == 1 {
      forall actions, s | Run(c, actions) == Some(s) ensures InCompletionOrder(s.attempts) {
        SingleWorkerOrdered(c, actions, s);
      }
    } else {
      var actions, s := LaterAnswerLoggedFirst(c);
    }
  }
}
