/** Stopping the probe, and when a tick finds no worker free. */
module ProbeStop {
  import opened Numbers
  import opened Options
  import opened ProbeProtocol
  import opened ProbePermits
  import opened ProbeAnswers

  // ----- Saturation -----

  lemma AcquireDecides(c: Config, s: State)
    requires ValidConfig(c) && Enabled(c, s, Acquire)
    ensures var t := Next(c, s, Acquire);
      && (t.dispatcher.Permitted? <==> s.permits > 0)
      && t.saturated == s.saturated + if s.permits > 0 then 0 else 1
  {
  }

  /** A tick that is far enough from the last dispatch goes out exactly when fewer jobs than workers are
      queued or being written; otherwise it is counted as saturated. */
  lemma SaturatedIff(c: Config, actions: seq<Action>, s: State)
    requires ValidConfig(c) && Run(c, actions) == Some(s) && Enabled(c, s, Acquire)
    ensures var t, free := Next(c, s, Acquire), |s.queue| + Busy(s.workers) < c.workers;
      && (t.dispatcher.Permitted? <==> free)
      && t.saturated == s.saturated + if free then 0 else 1
  {
    PermitsConserved(c, actions, s);
    AcquireDecides(c, s);
    AllOut(c, s);
    hide *;
  }

  lemma AllOut(c: Config, s: State)
    requires Permits(c, s) && s.dispatcher.Firing?
    ensures s.permits > 0 <==> |s.queue| + Busy(s.workers) < c.workers
  {
    hide Busy;
  }

  // ----- The stop flag -----

  lemma StopStep(c: Config, s: State, a: Action)
    requires ValidConfig(c) && Enabled(c, s, a)
    ensures var t := Next(c, s, a);
      && (t.stop <==> s.stop || a == Stop)
      && (t.dispatcher.Returned? ==> s.dispatcher.Returned? || s.stop)
      && (forall w | 0 <= w < |t.workers| && t.workers[w].Exited? :: (w < |s.workers| && s.workers[w].Exited?) || s.stop)
  {
    hide Deadline, Truncate, Spacing, PushLatency, MiddleOf;
  }

  /** The flag is up exactly once a stop was requested, and no thread leaves its loop before. */
  lemma {:induction false} NobodyLeavesEarly(c: Config, actions: seq<Action>, s: State)
    requires ValidConfig(c) && Run(c, actions) == Some(s)
    ensures s.stop <==> Stop in actions
    ensures s.dispatcher.Returned? || (exists w :: 0 <= w < |s.workers| && s.workers[w].Exited?) ==> s.stop
  {
    if actions == [] {
      RunEnds(c, s);
      NothingAnswered(c);
      AtFirst(c);
    } else {
      var n := |actions| - 1;
      var before := RunStep(c, actions, s);
      assert actions == actions[..n] + [actions[n]];
      hide Run, Next, Enabled, Init;
      NobodyLeavesEarly(c, actions[..n], before);
      StopStep(c, before, actions[n]);
    }
  }

  lemma AtFirst(c: Config)
    requires ValidConfig(c)
    ensures !Init(c).stop && Init(c).dispatcher.Looping?
  {
  }

  /** A worker between two jobs that has not asked for the next one, or has left. */
  predicate Done(w: Worker) {
    w.Idle? || w.Exited?
  }

  predicate DispatcherDone(d: Dispatcher) {
    d.Looping? || d.Returned?
  }

  /** After the stop each test of the flag ends its thread. */
  lemma DoneStep(c: Config, s: State, a: Action)
    requires ValidConfig(c) && Enabled(c, s, a) && s.stop
    ensures var t := Next(c, s, a);
      && t.stop && |t.workers| == |s.workers|
      && (forall w | 0 <= w < |s.workers| && Done(s.workers[w]) :: Done(t.workers[w]))
      && (DispatcherDone(s.dispatcher) ==> DispatcherDone(t.dispatcher) && t.sent == s.sent && t.ticks == s.ticks)
      && (a.Poll? ==> t.workers[a.w].Exited?) && (a.Tick? ==> t.dispatcher.Returned?)
  {
    hide Deadline, Truncate, Spacing, PushLatency, MiddleOf;
  }

  /** Once a stop was requested, a worker back at the top of its loop takes no further job, and the
      dispatcher there counts no further tick and sends nothing more. */
  lemma {:induction false} StopIsFinal(c: Config, actions: seq<Action>, k: nat, s: State, t: State)
    requires ValidConfig(c) && k <= |actions|
    requires Run(c, actions[..k]) == Some(s) && Run(c, actions) == Some(t) && s.stop
    ensures t.stop && |t.workers| == |s.workers|
    ensures forall w | 0 <= w < |s.workers| && Done(s.workers[w]) :: Done(t.workers[w])
    ensures DispatcherDone(s.dispatcher) ==> DispatcherDone(t.dispatcher) && t.sent == s.sent && t.ticks == s.ticks
  {
    if k == |actions| {
      assert actions[..k] == actions;
    } else {
      var n := |actions| - 1;
      var before := RunStep(c, actions, t);
      assert actions[..n][..k] == actions[..k];
      hide Run, Next, Enabled, Done, DispatcherDone;
      StopIsFinal(c, actions[..n], k, s, before);
      DoneStep(c, before, actions[n]);
    }
  }
}
