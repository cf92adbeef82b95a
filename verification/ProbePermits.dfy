/** Permits are conserved, the queue never overflows, and every counted tick is accounted for. */
module ProbePermits {
  import opened Numbers
  import opened Options
  import opened ProbeProtocol

  /** A worker between `get` and `release`. */
  predicate IsBusy(w: Worker) {
    !w.Idle? && !w.Polling? && !w.Exited?
  }

  function Busy(workers: seq<Worker>): nat {
    if workers == [] then 0 else (if IsBusy(workers[0]) then 1 else 0) + Busy(workers[1..])
  }

  lemma {:induction false} BusyUpdate(workers: seq<Worker>, i: nat, w: Worker)
    requires i < |workers|
    ensures Busy(workers[i := w]) + (if IsBusy(workers[i]) then 1 else 0) == Busy(workers) + if IsBusy(w) then 1 else 0
  {
    if i == 0 {
      assert workers[i := w][1..] == workers[1..];
    } else {
      assert workers[i := w][1..] == workers[1..][i - 1 := w];
      BusyUpdate(workers[1..], i - 1, w);
    }
  }

  lemma {:induction false} NoneBusy(workers: seq<Worker>)
    requires forall i | 0 <= i < |workers| :: !IsBusy(workers[i])
    ensures Busy(workers) == 0
  {
    if workers != [] {
      NoneBusy(workers[1..]);
    }
  }

  function HeldByDispatcher(d: Dispatcher): nat {
    if d.Permitted? || d.Numbered? then 1 else 0
  }

  /** A tick that is counted but not yet decided. */
  function Undecided(d: Dispatcher): nat {
    if d.Firing? || d.Permitted? || d.Numbered? then 1 else 0
  }

  ghost predicate Permits(c: Config, s: State) {
    && |s.workers| == c.workers
    && s.permits + |s.queue| + Busy(s.workers) + HeldByDispatcher(s.dispatcher) == c.workers
    && s.ticks == |s.sent| + s.spacedOut + s.saturated + Undecided(s.dispatcher)
    && s.lastNumber == |s.sent| + if s.dispatcher.Numbered? then 1 else 0
  }

  lemma PermitsInitially(c: Config)
    requires ValidConfig(c)
    ensures Permits(c, Init(c))
  {
    NoneBusy(Init(c).workers);
  }

  function One(b: bool): nat {
    if b then 1 else 0
  }

  /** Worker w's step moves a permit, a job or neither between the counts. */
  ghost predicate Trades(s: State, t: State, w: nat) {
    && w < |s.workers| == |t.workers| && t.workers == s.workers[w := t.workers[w]]
    && t.permits + |t.queue| + One(IsBusy(t.workers[w])) == s.permits + |s.queue| + One(IsBusy(s.workers[w]))
    && t.dispatcher == s.dispatcher && t.ticks == s.ticks && t.sent == s.sent && t.spacedOut == s.spacedOut
    && t.saturated == s.saturated && t.lastNumber == s.lastNumber
  }

  lemma TradesKeep(c: Config, s: State, t: State, w: nat)
    requires Permits(c, s) && Trades(s, t, w)
    ensures Permits(c, t)
  {
    hide IsBusy, Busy;
    BusyUpdate(s.workers, w, t.workers[w]);
  }

  lemma WorkerTrades(c: Config, s: State, a: Action)
    requires ValidConfig(c) && Enabled(c, s, a)
    requires a.Poll? || a.Get? || a.Answer? || a.Note? || a.Record? || a.Release?
    ensures Trades(s, Next(c, s, a), a.w)
  {
    hide MiddleOf, PushLatency;
  }

  lemma DispatcherKeeps(c: Config, s: State, a: Action)
    requires ValidConfig(c) && Enabled(c, s, a) && Permits(c, s)
    requires a.Stop? || a.Tick? || a.WaitElapsed? || a.WaitStopped? || a.Count? || a.Acquire? || a.Number? || a.Put?
    ensures Permits(c, Next(c, s, a))
  {
    hide Spacing, Deadline, Truncate, Busy;
  }

  lemma PermitsKept(c: Config, s: State, a: Action)
    requires ValidConfig(c) && Enabled(c, s, a) && Permits(c, s)
    ensures Permits(c, Next(c, s, a))
  {
    hide Permits, Trades, Next, Enabled;
    if a.Poll? || a.Get? || a.Answer? || a.Note? || a.Record? || a.Release? {
      WorkerTrades(c, s, a);
      TradesKeep(c, s, Next(c, s, a), a.w);
    } else {
      DispatcherKeeps(c, s, a);
    }
  }

  /** In every reachable state the permits add up, so at most `workers` writes are outstanding and the
      put that the code guards against a full queue always finds room. */
  lemma {:induction false} PermitsConserved(c: Config, actions: seq<Action>, s: State)
    requires ValidConfig(c) && Run(c, actions) == Some(s)
    ensures Permits(c, s)
    ensures |s.queue| + Busy(s.workers) <= c.workers
    ensures s.dispatcher.Numbered? ==> |s.queue| < c.workers
  {
    if actions == [] {
      PermitsInitially(c);
    } else {
      var n := |actions| - 1;
      var before := Run(c, actions[..n]).value;
      PermitsConserved(c, actions[..n], before);
      PermitsKept(c, before, actions[n]);
      hide *;
      assert Permits(c, s);
      PermitsBound(c, s);
    }
  }

  lemma PermitsBound(c: Config, s: State)
    requires Permits(c, s)
    ensures |s.queue| + Busy(s.workers) <= c.workers
    ensures s.dispatcher.Numbered? ==> |s.queue| < c.workers
  {
  }

  /** At the top of the loop every tick was dispatched, spaced out, or found no free worker; and every
      sequence number drawn was put in the queue. */
  lemma TicksAccounted(c: Config, actions: seq<Action>, s: State)
    requires ValidConfig(c) && Run(c, actions) == Some(s) && s.dispatcher.Looping?
    ensures s.ticks == s.lastNumber + s.spacedOut + s.saturated
    ensures s.lastNumber == |s.sent|
  {
    hide Run;
    PermitsConserved(c, actions, s);
  }
}
