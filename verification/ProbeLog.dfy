/** The log the probe leaves: every numbered write is queued, in flight or logged exactly once, and
    what a stopped probe has logged is exactly 1..m. */
module ProbeLog {
  import opened Numbers
  import opened Options
  import opened RtoAnalysis
  import opened ProbeProtocol
  import opened ProbePermits
  import opened ProbeClock

  /** A job a worker took from the queue and has not logged yet. */
  predicate Holds(w: Worker) {
    w.Writing? || w.Answered? || w.Noted?
  }

  ghost predicate InFlight(s: State, n: int) {
    exists w :: 0 <= w < |s.workers| && Holds(s.workers[w]) && s.workers[w].job.number == n
  }

  ghost predicate InLog(s: State, n: int) {
    exists i :: 0 <= i < |s.attempts| && s.attempts[i].seqId == n
  }

  /** How many jobs have left the queue. */
  function Taken(s: State): int {
    |s.sent| - |s.queue|
  }

  /** Jobs are numbered in the order they are put, and leave the queue in that order. */
  ghost predicate Fifo(s: State) {
    && (forall i | 0 <= i < |s.sent| :: s.sent[i].number == i + 1)
    && |s.queue| <= |s.sent|
    && s.queue == s.sent[|s.sent| - |s.queue|..]
    && (s.dispatcher.Numbered? ==> s.dispatcher.job.number == |s.sent| + 1)
    && s.lastNumber == |s.sent| + if s.dispatcher.Numbered? then 1 else 0
  }

  ghost predicate FlightsFromQueue(s: State)
    requires |s.queue| <= |s.sent|
  {
    forall w | 0 <= w < |s.workers| && Holds(s.workers[w]) ::
      1 <= s.workers[w].job.number <= Taken(s) && s.workers[w].job == s.sent[s.workers[w].job.number - 1]
  }

  ghost predicate LogFromQueue(c: Config, s: State)
    requires |s.queue| <= |s.sent|
  {
    forall i | 0 <= i < |s.attempts| ::
      && 1 <= s.attempts[i].seqId <= Taken(s)
      && s.attempts[i].dispatch == s.sent[s.attempts[i].seqId - 1].at - c.epoch
      && s.attempts[i].dispatch <= s.attempts[i].complete <= s.clock - c.epoch
  }

  ghost predicate Distinct(s: State) {
    && (forall i, j | 0 <= i < j < |s.attempts| :: s.attempts[i].seqId != s.attempts[j].seqId)
    && (forall v, w | 0 <= v < w < |s.workers| && Holds(s.workers[v]) && Holds(s.workers[w]) ::
          s.workers[v].job.number != s.workers[w].job.number)
    && (forall w | 0 <= w < |s.workers| && Holds(s.workers[w]) :: !InLog(s, s.workers[w].job.number))
  }

  ghost predicate NothingLost(s: State) {
    forall n | 1 <= n <= Taken(s) :: InFlight(s, n) || InLog(s, n)
  }

  ghost predicate LogInv(c: Config, s: State) {
    Fifo(s) && FlightsFromQueue(s) && LogFromQueue(c, s) && Distinct(s) && NothingLost(s)
  }

  lemma DispatcherStepsKeep(c: Config, s: State, a: Action)
    requires ValidConfig(c) && Enabled(c, s, a) && LogInv(c, s)
    requires a.Stop? || a.Tick? || a.WaitElapsed? || a.WaitStopped? || a.Count? || a.Acquire? || a.Number?
    ensures LogInv(c, Next(c, s, a))
  {
    hide Deadline, Truncate, Spacing, FlightsFromQueue, LogFromQueue, Distinct, NothingLost;
    var t := Next(c, s, a);
    assert t.workers == s.workers && t.attempts == s.attempts && t.sent == s.sent && t.queue == s.queue;
    assert t.clock >= s.clock;
    SameLog(c, s, t);
  }

  /** A step that moves no job keeps the log. */
  lemma SameLog(c: Config, s: State, t: State)
    requires LogInv(c, s) && Fifo(t) && t.sent == s.sent && t.queue == s.queue && t.attempts == s.attempts
    requires |t.workers| == |s.workers| && t.clock >= s.clock
    requires forall w | 0 <= w < |s.workers| :: Holds(t.workers[w]) == Holds(s.workers[w])
    requires forall w | 0 <= w < |s.workers| && Holds(s.workers[w]) && Holds(t.workers[w]) :: t.workers[w].job == s.workers[w].job
    ensures LogInv(c, t)
  {
    forall n | InFlight(s, n) ensures InFlight(t, n) {
      var w :| 0 <= w < |s.workers| && Holds(s.workers[w]) && s.workers[w].job.number == n;
      assert Holds(t.workers[w]) && t.workers[w].job.number == n;
    }
    forall n ensures InLog(s, n) == InLog(t, n) {
    }
  }

  /** Worker w moves on, holding what it held. */
  ghost predicate MovesOn(s: State, t: State, w: nat) {
    && w < |s.workers| && |t.workers| == |s.workers| && t == s.(workers := t.workers, clock := t.clock,
                                                               permits := t.permits, latencies := t.latencies, median := t.median)
    && t.workers == s.workers[w := t.workers[w]] && t.clock >= s.clock
    && Holds(t.workers[w]) == Holds(s.workers[w])
    && (Holds(s.workers[w]) ==> t.workers[w].job == s.workers[w].job)
  }

  lemma MovingOnKeeps(c: Config, s: State, t: State, w: nat)
    requires LogInv(c, s) && MovesOn(s, t, w)
    ensures LogInv(c, t)
  {
    hide FlightsFromQueue, LogFromQueue, Distinct, NothingLost, Holds;
    SameLog(c, s, t);
  }

  lemma QuietWorkerStepsKeep(c: Config, s: State, a: Action)
    requires ValidConfig(c) && Enabled(c, s, a) && LogInv(c, s)
    requires a.Poll? || (a.Get? && s.queue == []) || a.Answer? || a.Note? || a.Release?
    ensures LogInv(c, Next(c, s, a))
  {
    hide PushLatency, MiddleOf, LogInv;
    var t := Next(c, s, a);
    assert MovesOn(s, t, a.w);
    hide Next, Enabled, MovesOn;
    MovingOnKeeps(c, s, t, a.w);
  }

  /** The dispatcher's job joins the queue. */
  ghost predicate Queues(s: State, t: State, job: Job) {
    && s.dispatcher == Numbered(job) && t.workers == s.workers && t.attempts == s.attempts && t.clock == s.clock
    && t.sent == s.sent + [job] && t.queue == s.queue + [job]
    && t.dispatcher == Looping && t.lastNumber == s.lastNumber
  }

  lemma QueuesKeepsOrder(c: Config, s: State, t: State, job: Job)
    requires Fifo(s) && FlightsFromQueue(s) && LogFromQueue(c, s) && Queues(s, t, job)
    ensures Fifo(t) && FlightsFromQueue(t) && LogFromQueue(c, t) && Taken(t) == Taken(s)
  {
    hide Holds;
    assert t.queue == t.sent[|t.sent| - |t.queue|..];
    assert forall i | 0 <= i < |s.sent| :: t.sent[i] == s.sent[i];
  }

  lemma QueuesMovesNothing(s: State, t: State, job: Job)
    requires Distinct(s) && NothingLost(s) && Taken(t) == Taken(s) && Queues(s, t, job)
    ensures Distinct(t) && NothingLost(t)
  {
    hide Holds, Taken;
    forall n ensures InFlight(s, n) == InFlight(t, n) && InLog(s, n) == InLog(t, n) {
    }
    hide InFlight, InLog;
  }

  lemma PutKeepsLog(c: Config, s: State)
    requires ValidConfig(c) && Enabled(c, s, Put) && LogInv(c, s) && Permits(c, s)
    ensures LogInv(c, Next(c, s, Put))
  {
    var t, job := Next(c, s, Put), s.dispatcher.job;
    PermitsBound(c, s);
    hide Permits, Fifo, FlightsFromQueue, LogFromQueue, Distinct, NothingLost;
    assert Queues(s, t, job);
    hide Queues, Next;
    QueuesKeepsOrder(c, s, t, job);
    QueuesMovesNothing(s, t, job);
  }

  /** Worker w takes the head of the queue. */
  ghost predicate Takes(s: State, t: State, w: nat, job: Job) {
    && s.queue != [] && job == s.queue[0]
    && w < |s.workers| && !Holds(s.workers[w])
    && t == s.(workers := s.workers[w := Writing(job)], queue := s.queue[1..])
  }

  lemma TakesNext(s: State, t: State, w: nat, job: Job)
    requires Fifo(s) && Takes(s, t, w, job)
    ensures Fifo(t) && Taken(t) == Taken(s) + 1 == job.number && job == s.sent[Taken(s)]
  {
    assert job == s.sent[|s.sent| - |s.queue|];
    assert t.queue == t.sent[|t.sent| - |t.queue|..];
  }

  lemma TakeKeepsDistinct(c: Config, s: State, t: State, w: nat, job: Job)
    requires LogInv(c, s) && Takes(s, t, w, job)
    ensures Distinct(t)
  {
    TakesNext(s, t, w, job);
    hide Fifo, NothingLost;
    forall k ensures InLog(s, k) == InLog(t, k) {
    }
  }

  lemma TakeLosesNothing(c: Config, s: State, t: State, w: nat, job: Job)
    requires LogInv(c, s) && Takes(s, t, w, job)
    ensures NothingLost(t)
  {
    TakesNext(s, t, w, job);
    hide Fifo, Distinct, LogFromQueue, FlightsFromQueue;
    forall k ensures InLog(s, k) == InLog(t, k) {
    }
    forall k | InFlight(s, k) ensures InFlight(t, k) {
      var v :| 0 <= v < |s.workers| && Holds(s.workers[v]) && s.workers[v].job.number == k;
      assert v != w && t.workers[v] == s.workers[v];
    }
    assert t.workers[w] == Writing(job);
    assert InFlight(t, job.number);
  }

  lemma TakeKeepsOrigins(c: Config, s: State, t: State, w: nat, job: Job)
    requires LogInv(c, s) && Takes(s, t, w, job)
    ensures |t.queue| <= |t.sent| && FlightsFromQueue(t) && LogFromQueue(c, t)
  {
    TakesNext(s, t, w, job);
    hide Fifo, Distinct, NothingLost;
    forall v | 0 <= v < |t.workers| && Holds(t.workers[v])
      ensures 1 <= t.workers[v].job.number <= Taken(t) && t.workers[v].job == t.sent[t.workers[v].job.number - 1]
    {
      assert v != w ==> t.workers[v] == s.workers[v];
    }
  }

  lemma GetKeepsLog(c: Config, s: State, w: nat)
    requires ValidConfig(c) && Enabled(c, s, Get(w)) && LogInv(c, s) && s.queue != []
    ensures LogInv(c, Next(c, s, Get(w)))
  {
    var t, job := Next(c, s, Get(w)), s.queue[0];
    assert Takes(s, t, w, job);
    hide Takes, FlightsFromQueue, LogFromQueue, Distinct, NothingLost, Next;
    TakesNext(s, t, w, job);
    TakeKeepsDistinct(c, s, t, w, job);
    TakeLosesNothing(c, s, t, w, job);
    TakeKeepsOrigins(c, s, t, w, job);
  }

  /** Worker w logs the job it holds. */
  ghost predicate Logs(s: State, t: State, w: nat, entry: Attempt) {
    && w < |s.workers| && Holds(s.workers[w]) && entry.seqId == s.workers[w].job.number
    && t == s.(workers := s.workers[w := Recorded], attempts := s.attempts + [entry])
  }

  lemma LogsOne(s: State, t: State, w: nat, entry: Attempt, k: int)
    requires Logs(s, t, w, entry)
    ensures InLog(t, k) <==> InLog(s, k) || k == entry.seqId
  {
    if InLog(s, k) {
      var i :| 0 <= i < |s.attempts| && s.attempts[i].seqId == k;
      assert t.attempts[i].seqId == k;
    }
    assert t.attempts[|s.attempts|] == entry;
  }

  lemma LogKeepsDistinct(s: State, t: State, w: nat, entry: Attempt)
    requires Distinct(s) && Logs(s, t, w, entry)
    ensures Distinct(t)
  {
    assert !InLog(s, entry.seqId);
    forall v | 0 <= v < |t.workers| && Holds(t.workers[v]) ensures !InLog(t, t.workers[v].job.number) {
      assert v != w && t.workers[v] == s.workers[v];
      LogsOne(s, t, w, entry, t.workers[v].job.number);
    }
    forall i, j | 0 <= i < j < |t.attempts| ensures t.attempts[i].seqId != t.attempts[j].seqId {
      assert t.attempts[i] == s.attempts[i];
      if j == |s.attempts| {
        assert InLog(s, t.attempts[i].seqId);
      }
    }
  }

  lemma LogLosesNothing(s: State, t: State, w: nat, entry: Attempt)
    requires NothingLost(s) && Logs(s, t, w, entry)
    ensures NothingLost(t)
  {
    forall n | 1 <= n <= Taken(t) ensures InFlight(t, n) || InLog(t, n) {
      LogsOne(s, t, w, entry, n);
      if InFlight(s, n) && n != entry.seqId {
        var v :| 0 <= v < |s.workers| && Holds(s.workers[v]) && s.workers[v].job.number == n;
        assert v != w && t.workers[v] == s.workers[v];
      }
    }
  }

  lemma RecordKeepsLog(c: Config, s: State, w: nat)
    requires ValidConfig(c) && Enabled(c, s, Record(w)) && LogInv(c, s) && WorkersOnClock(s)
    ensures LogInv(c, Next(c, s, Record(w)))
  {
    var t := Next(c, s, Record(w));
    var entry := t.attempts[|s.attempts|];
    assert Logs(s, t, w, entry);
    LogKeepsDistinct(s, t, w, entry);
    LogLosesNothing(s, t, w, entry);
    hide Distinct, NothingLost;
    assert Fifo(t);
    assert FlightsFromQueue(t);
    assert LogFromQueue(c, t);
  }

  lemma EmptyLog(c: Config, s: State)
    requires s.attempts == [] && s.sent == [] && s.queue == [] && s.lastNumber == 0 && !s.dispatcher.Numbered?
    requires forall w | 0 <= w < |s.workers| :: !Holds(s.workers[w])
    ensures LogInv(c, s)
  {
    hide Holds;
  }

  lemma LogInitially(c: Config)
    requires ValidConfig(c)
    ensures LogInv(c, Init(c))
  {
    hide LogInv;
    EmptyLog(c, Init(c));
  }

  lemma LogKept(c: Config, s: State, a: Action)
    requires ValidConfig(c) && Enabled(c, s, a) && LogInv(c, s) && Permits(c, s) && OnSchedule(c, s)
    ensures LogInv(c, Next(c, s, a))
  {
    hide LogInv, Permits, DispatcherOnSchedule, TicksOnSchedule, SentSpaced, QueueOnClock, WorkersOnClock, Next;
    match a {
      case Put => PutKeepsLog(c, s);
      case Get(w) => if s.queue == [] { QuietWorkerStepsKeep(c, s, a); } else { GetKeepsLog(c, s, w); }
      case Record(w) => RecordKeepsLog(c, s, w);
      case Poll(_) => QuietWorkerStepsKeep(c, s, a);
      case Answer(_, _, _) => QuietWorkerStepsKeep(c, s, a);
      case Note(_) => QuietWorkerStepsKeep(c, s, a);
      case Release(_) => QuietWorkerStepsKeep(c, s, a);
      case _ => DispatcherStepsKeep(c, s, a);
    }
  }

  /** In every reachable state each number drawn is in exactly one place: held by the dispatcher, queued,
      in flight, or logged; and numbers leave the queue in the order they were drawn. */
  lemma {:induction false} EveryNumberInOnePlace(c: Config, actions: seq<Action>, s: State)
    requires ValidConfig(c) && Run(c, actions) == Some(s)
    ensures LogInv(c, s)
  {
    if actions == [] {
      LogInitially(c);
    } else {
      var n := |actions| - 1;
      var before := Run(c, actions[..n]).value;
      assert Enabled(c, before, actions[n]) && s == Next(c, before, actions[n]);
      hide *;
      EveryNumberInOnePlace(c, actions[..n], before);
      PermitsConserved(c, actions[..n], before);
      Scheduled(c, actions[..n], before);
      LogKept(c, before, actions[n]);
    }
  }

  // ----- The finished log -----

  ghost predicate AllExited(s: State) {
    forall w | 0 <= w < |s.workers| :: s.workers[w].Exited?
  }

  /** Once every worker has exited the log holds 1..m, each number once, and at most `workers` numbers
      were drawn without being logged. No entry completes before its dispatch, none was dispatched
      before the epoch, and none is numbered twice, so the log passes the probe validator's ordering
      and duplicate checks. */
  lemma FinishedLog(c: Config, actions: seq<Action>, s: State)
    requires ValidConfig(c) && Run(c, actions) == Some(s) && AllExited(s)
    ensures var m := Taken(s);
            && (forall n :: 1 <= n <= m <==> InLog(s, n))
            && 0 <= s.lastNumber - m <= c.workers
    ensures forall i, j | 0 <= i < j < |s.attempts| :: s.attempts[i].seqId != s.attempts[j].seqId
    ensures forall i | 0 <= i < |s.attempts| :: 0.0 < s.attempts[i].dispatch <= s.attempts[i].complete
  {
    hide Run;
    EveryNumberInOnePlace(c, actions, s);
    PermitsConserved(c, actions, s);
    Scheduled(c, actions, s);
    NoneBusy(s.workers);
    forall n ensures 1 <= n <= Taken(s) <==> InLog(s, n) {
      assert !InFlight(s, n);
    }
    forall i | 0 <= i < |s.attempts| ensures 0.0 < s.attempts[i].dispatch {
      assert s.sent[s.attempts[i].seqId - 1].at >= Deadline(c, 1);
    }
  }
}
