/** The RTO probe's threads as a protocol: one dispatcher, a pool of workers, a bounded queue between
    them, and a semaphore holding one permit per worker. Each action is one atomic step of one thread;
    an action names the clock readings and the database's answer it saw. */
module ProbeProtocol {
  import opened Numbers
  import opened Options
  import opened Ordering
  import opened RtoAnalysis

  datatype Config = Config(workers: nat, interval: real, epoch: real)

  /** What the constructor insists on; the epoch is a reading of the monotonic clock. */
  predicate ValidConfig(c: Config) {
    c.workers >= 1 && c.interval > 0.0 && c.epoch >= 0.0
  }

  datatype Job = Job(number: nat, at: real)

  /** Where the dispatcher stands in its loop. */
  datatype Dispatcher =
    | Looping                  // about to test the stop flag
    | Waiting                  // waiting for the deadline, or the stop flag
    | OnTime                   // about to count the tick
    | Firing(now: real)        // far enough from the last dispatch; about to try a permit
    | Permitted(now: real)     // holds a permit
    | Numbered(job: Job)       // holds a permit and a numbered job; about to put it
    | Returned

  /** Where a worker stands. */
  datatype Worker =
    | Idle                                                // about to test the stop flag
    | Polling                                             // about to get from the queue
    | Writing(job: Job)                                   // the INSERT is outstanding
    | Answered(job: Job, at: real, outcome: Outcome)      // the answer is timestamped
    | Noted(job: Job, at: real, outcome: Outcome)         // its latency is in the window
    | Recorded                                            // the attempt is logged, the permit not yet back
    | Exited

  /** Shared and thread-local variables. `sent` and `counted` are history: every job ever put,
      and the index of the last counted tick. */
  datatype State = State(
    stop: bool, clock: real,
    queue: seq<Job>, permits: nat, lastNumber: nat,
    attempts: seq<Attempt>, ticks: nat, spacedOut: nat, saturated: nat,
    latencies: seq<real>, median: Option<real>,
    tick: int, lastDispatch: real, dispatcher: Dispatcher, workers: seq<Worker>,
    sent: seq<Job>, counted: int)

  datatype Action =
    | Stop
    | Tick(now: real, later: real)
    | WaitElapsed(now: real)
    | WaitStopped
    | Count(now: real)
    | Acquire
    | Number
    | Put
    | Poll(w: nat)
    | Get(w: nat)
    | Answer(w: nat, now: real, outcome: Outcome)
    | Note(w: nat)
    | Record(w: nat)
    | Release(w: nat)

  function Init(c: Config): State {
    State(false, c.epoch, [], c.workers, 0, [], 0, 0, 0, [], None, 0, 0.0, Looping,
          seq(c.workers, _ => Idle), [], 0)
  }

  function Deadline(c: Config, tick: int): real {
    c.epoch + tick as real * c.interval
  }

  /** Minimum time between dispatches: the median write latency shared among the workers. */
  function Spacing(c: Config, median: Option<real>): real
    requires c.workers >= 1
  {
    match median
    case None => c.interval
    case Some(m) => if m / c.workers as real > c.interval then m / c.workers as real else c.interval
  }

  const LATENCY_WINDOW := 32

  function PushLatency(window: seq<real>, x: real): (r: seq<real>)
    ensures r != []
  {
    (if |window| < LATENCY_WINDOW then window else window[1..]) + [x]
  }

  function MiddleOf(window: seq<real>): real
    requires window != []
  {
    SortReals(window)[|window| / 2]
  }

  // ----- Steps -----

  predicate Enabled(c: Config, s: State, a: Action) {
    match a
    case Stop => true
    case Tick(now, later) => s.dispatcher.Looping? && (s.stop || s.clock <= now <= later)
    case WaitElapsed(now) => s.dispatcher.Waiting? && s.clock <= now && Deadline(c, s.tick) <= now
    case WaitStopped => s.dispatcher.Waiting? && s.stop
    case Count(now) => s.dispatcher.OnTime? && s.clock <= now
    case Acquire => s.dispatcher.Firing?
    case Number => s.dispatcher.Permitted?
    case Put => s.dispatcher.Numbered?
    case Poll(w) => w < |s.workers| && s.workers[w].Idle?
    case Get(w) => w < |s.workers| && s.workers[w].Polling?
    case Answer(w, now, _) => w < |s.workers| && s.workers[w].Writing? && s.clock <= now
    case Note(w) => w < |s.workers| && s.workers[w].Answered?
    case Record(w) => w < |s.workers| && s.workers[w].Noted?
    case Release(w) => w < |s.workers| && s.workers[w].Recorded?
  }

  function DoTick(c: Config, s: State, now: real, later: real): State
    requires ValidConfig(c)
  {
    if s.stop then s.(dispatcher := Returned)
    else
      var delay := Deadline(c, s.tick + 1) - now;
      if delay > 0.0 then s.(tick := s.tick + 1, clock := now, dispatcher := Waiting)
      else if -delay > c.interval then s.(tick := Truncate((later - c.epoch) / c.interval), clock := later)
      else s.(tick := s.tick + 1, clock := now, dispatcher := OnTime)
  }

  function DoCount(c: Config, s: State, now: real): State
    requires ValidConfig(c)
  {
    var t := s.(ticks := s.ticks + 1, counted := s.tick, clock := now);
    if now - s.lastDispatch < Spacing(c, s.median)
    then t.(spacedOut := s.spacedOut + 1, dispatcher := Looping)
    else t.(dispatcher := Firing(now))
  }

  function DoAcquire(s: State): State
    requires s.dispatcher.Firing?
  {
    if s.permits == 0 then s.(saturated := s.saturated + 1, dispatcher := Looping)
    else s.(permits := s.permits - 1, dispatcher := Permitted(s.dispatcher.now))
  }

  function DoPut(c: Config, s: State): State
    requires s.dispatcher.Numbered?
  {
    var job := s.dispatcher.job;
    if |s.queue| < c.workers
    then s.(queue := s.queue + [job], lastDispatch := job.at, sent := s.sent + [job], dispatcher := Looping)
    else s.(saturated := s.saturated + 1, permits := s.permits + 1, dispatcher := Looping)
  }

  function DoGet(s: State, w: nat): State
    requires w < |s.workers|
  {
    if s.queue == [] then s.(workers := s.workers[w := Idle])
    else s.(workers := s.workers[w := Writing(s.queue[0])], queue := s.queue[1..])
  }

  function DoNote(s: State, w: nat): State
    requires w < |s.workers| && s.workers[w].Answered?
  {
    var Answered(job, at, outcome) := s.workers[w];
    var t := s.(workers := s.workers[w := Noted(job, at, outcome)]);
    if outcome.Ok?
    then t.(latencies := PushLatency(s.latencies, at - job.at), median := Some(MiddleOf(PushLatency(s.latencies, at - job.at))))
    else t
  }

  function Logged(c: Config, w: nat, job: Job, at: real, outcome: Outcome): Attempt {
    Attempt(job.number, job.at - c.epoch, at - c.epoch, outcome, w)
  }

  function DoRecord(c: Config, s: State, w: nat): State
    requires w < |s.workers| && s.workers[w].Noted?
  {
    var Noted(job, at, outcome) := s.workers[w];
    s.(workers := s.workers[w := Recorded], attempts := s.attempts + [Logged(c, w, job, at, outcome)])
  }

  function Next(c: Config, s: State, a: Action): State
    requires ValidConfig(c) && Enabled(c, s, a)
  {
    match a
    case Stop => s.(stop := true)
    case Tick(now, later) => DoTick(c, s, now, later)
    case WaitElapsed(now) => s.(clock := now, dispatcher := OnTime)
    case WaitStopped => s.(dispatcher := Returned)
    case Count(now) => DoCount(c, s, now)
    case Acquire => DoAcquire(s)
    case Number => s.(lastNumber := s.lastNumber + 1, dispatcher := Numbered(Job(s.lastNumber + 1, s.dispatcher.now)))
    case Put => DoPut(c, s)
    case Poll(w) => s.(workers := s.workers[w := if s.stop then Exited else Polling])
    case Get(w) => DoGet(s, w)
    case Answer(w, now, outcome) => s.(clock := now, workers := s.workers[w := Answered(s.workers[w].job, now, outcome)])
    case Note(w) => DoNote(s, w)
    case Record(w) => DoRecord(c, s, w)
    case Release(w) => s.(permits := s.permits + 1, workers := s.workers[w := Idle])
  }

  /** The state a list of actions leads to, if each is possible when its turn comes. */
  function Run(c: Config, actions: seq<Action>): Option<State>
    requires ValidConfig(c)
  {
    if actions == [] then Some(Init(c))
    else
      var n := |actions| - 1;
      match Run(c, actions[..n])
      case None => None
      case Some(s) => if Enabled(c, s, actions[n]) then Some(Next(c, s, actions[n])) else None
  }

  lemma CountStep(c: Config, s: State, now: real)
    requires ValidConfig(c) && Enabled(c, s, Count(now))
    ensures Next(c, s, Count(now)) == DoCount(c, s, now)
  {
    hide DoCount;
  }

  lemma PutStep(c: Config, s: State)
    requires ValidConfig(c) && Enabled(c, s, Put)
    ensures s.dispatcher.Numbered? && Next(c, s, Put) == DoPut(c, s)
  {
    hide DoPut;
  }

  // ----- The threads themselves, in place -----

  class RtoProbe {
    const c: Config
    var stop: bool
    var clock: real
    var queue: seq<Job>
    var permits: nat
    var lastNumber: nat
    var attempts: seq<Attempt>
    var ticks: nat
    var spacedOut: nat
    var saturated: nat
    var latencies: seq<real>
    var median: Option<real>
    var tick: int
    var lastDispatch: real
    var dispatcher: Dispatcher
    var workers: seq<Worker>
    ghost var sent: seq<Job>
    ghost var counted: int

    ghost function View(): State
      reads this
    {
      State(stop, clock, queue, permits, lastNumber, attempts, ticks, spacedOut, saturated, latencies, median,
            tick, lastDispatch, dispatcher, workers, sent, counted)
    }

    constructor (c: Config)
      requires ValidConfig(c)
      ensures this.c == c && View() == Init(c)
    {
      this.c := c;
      stop, clock, queue, permits, lastNumber := false, c.epoch, [], c.workers, 0;
      attempts, ticks, spacedOut, saturated := [], 0, 0, 0;
      latencies, median, tick, lastDispatch := [], None, 0, 0.0;
      dispatcher, workers := Looping, seq(c.workers, _ => Idle);
      sent, counted := [], 0;
    }

    method RequestStop()
      modifies this`stop
      requires ValidConfig(c)
      ensures View() == Next(c, old(View()), Stop)
    {
      stop := true;
    }

    method BeginTick(now: real, later: real)
      requires ValidConfig(c) && Enabled(c, View(), Tick(now, later))
      modifies this
      ensures View() == Next(c, old(View()), Tick(now, later))
    {
      if stop {
        dispatcher := Returned;
        return;
      }
      tick := tick + 1;
      clock := now;
      var delay := c.epoch + tick as real * c.interval - now;
      if delay > 0.0 {
        dispatcher := Waiting;
      } else if -delay > c.interval {
        clock := later;
        tick := Truncate((later - c.epoch) / c.interval);
      } else {
        dispatcher := OnTime;
      }
    }

    method EndWait(stopped: bool, now: real)
      requires ValidConfig(c) && Enabled(c, View(), if stopped then WaitStopped else WaitElapsed(now))
      modifies this
      ensures View() == Next(c, old(View()), if stopped then WaitStopped else WaitElapsed(now))
    {
      if stopped {
        dispatcher := Returned;
      } else {
        clock, dispatcher := now, OnTime;
      }
    }

    method CountTick(now: real)
      requires ValidConfig(c) && Enabled(c, View(), Count(now))
      modifies this
      ensures View() == Next(c, old(View()), Count(now))
    {
      CountStep(c, View(), now);
      hide Next, Enabled, Spacing;
      ticks := ticks + 1;
      counted := tick;
      clock := now;
      if now - lastDispatch < Spacing(c, median) {
        spacedOut := spacedOut + 1;
        dispatcher := Looping;
      } else {
        dispatcher := Firing(now);
      }
    }

    method TryAcquire()
      requires ValidConfig(c) && Enabled(c, View(), Acquire)
      modifies this
      ensures View() == Next(c, old(View()), Acquire)
    {
      if permits == 0 {
        saturated := saturated + 1;
        dispatcher := Looping;
      } else {
        permits := permits - 1;
        dispatcher := Permitted(dispatcher.now);
      }
    }

    method NextSeq()
      requires ValidConfig(c) && Enabled(c, View(), Number)
      modifies this
      ensures View() == Next(c, old(View()), Number)
    {
      lastNumber := lastNumber + 1;
      dispatcher := Numbered(Job(lastNumber, dispatcher.now));
    }

    method PutNowait()
      requires ValidConfig(c) && Enabled(c, View(), Put)
      modifies this
      ensures View() == Next(c, old(View()), Put)
    {
      PutStep(c, View());
      hide Next, Enabled;
      var job := dispatcher.job;
      if |queue| < c.workers {
        queue := queue + [job];
        sent := sent + [job];
        lastDispatch := job.at;
      } else {
        saturated := saturated + 1;
        permits := permits + 1;
      }
      dispatcher := Looping;
    }

    method TestStop(w: nat)
      requires ValidConfig(c) && Enabled(c, View(), Poll(w))
      modifies this
      ensures View() == Next(c, old(View()), Poll(w))
    {
      workers := workers[w := if stop then Exited else Polling];
    }

    method GetJob(w: nat)
      requires ValidConfig(c) && Enabled(c, View(), Get(w))
      modifies this
      ensures View() == Next(c, old(View()), Get(w))
    {
      if queue == [] {
        workers := workers[w := Idle];
      } else {
        workers := workers[w := Writing(queue[0])];
        queue := queue[1..];
      }
    }

    method FinishWrite(w: nat, now: real, outcome: Outcome)
      requires ValidConfig(c) && Enabled(c, View(), Answer(w, now, outcome))
      modifies this
      ensures View() == Next(c, old(View()), Answer(w, now, outcome))
    {
      clock := now;
      workers := workers[w := Answered(workers[w].job, now, outcome)];
    }

    method NoteLatency(w: nat)
      requires ValidConfig(c) && Enabled(c, View(), Note(w))
      modifies this
      ensures View() == Next(c, old(View()), Note(w))
    {
      hide PushLatency, MiddleOf;
      var Answered(job, at, outcome) := workers[w];
      if outcome.Ok? {
        latencies := PushLatency(latencies, at - job.at);
        median := Some(MiddleOf(latencies));
      }
      workers := workers[w := Noted(job, at, outcome)];
    }

    method RecordAttempt(w: nat)
      requires ValidConfig(c) && Enabled(c, View(), Record(w))
      modifies this
      ensures View() == Next(c, old(View()), Record(w))
    {
      var Noted(job, at, outcome) := workers[w];
      attempts := attempts + [Attempt(job.number, job.at - c.epoch, at - c.epoch, outcome, w)];
      workers := workers[w := Recorded];
    }

    method ReleasePermit(w: nat)
      requires ValidConfig(c) && Enabled(c, View(), Release(w))
      modifies this
      ensures View() == Next(c, old(View()), Release(w))
    {
      permits := permits + 1;
      workers := workers[w := Idle];
    }
  }
}
