/** How far apart the probe's writes go out: the interval, and the median of the latest served latencies
    shared among the workers. */
module ProbeSpacing {
  import opened Numbers
  import opened Options
  import opened Ordering
  import opened ProbeProtocol
  import opened ProbeAnswers

  // ----- The latencies on which the spacing rests -----

  function ServedLatency(s: Option<State>, a: Action): seq<real> {
    if s.Some? && a.Note? && a.w < |s.value.workers| then
      match s.value.workers[a.w] {
        case Answered(job, at, outcome) => if outcome.Ok? then [at - job.at] else []
        case _ => []
      }
    else []
  }

  /** The latencies of the served writes of a run, in the order the workers noted them. */
  function ServedLatencies(c: Config, actions: seq<Action>): seq<real>
    requires ValidConfig(c)
  {
    if actions == [] then []
    else
      var n := |actions| - 1;
      ServedLatencies(c, actions[..n]) + ServedLatency(Run(c, actions[..n]), actions[n])
  }

  /** The last n entries, or all of them if there are fewer. */
  function Latest(s: seq<real>, n: nat): seq<real> {
    s[if |s| < n then 0 else |s| - n..]
  }

  lemma PushLatest(s: seq<real>, x: real)
    ensures PushLatency(Latest(s, 32), x) == Latest(s + [x], 32)
  {
  }

  lemma LatenciesStep(c: Config, s: State, a: Action)
    requires ValidConfig(c) && Enabled(c, s, a)
    ensures var t, noted := Next(c, s, a), ServedLatency(Some(s), a);
      && (noted == [] ==> t.latencies == s.latencies && t.median == s.median)
      && (noted != [] ==>
            && |noted| == 1 && t.latencies == PushLatency(s.latencies, noted[0])
            && t.median == Some(MiddleOf(t.latencies)))
  {
    hide Deadline, Truncate, Spacing, PushLatency, MiddleOf;
  }

  lemma LatenciesUnfold(c: Config, actions: seq<Action>)
    requires ValidConfig(c) && actions != []
    ensures var n := |actions| - 1;
      ServedLatencies(c, actions) == ServedLatencies(c, actions[..n]) + ServedLatency(Run(c, actions[..n]), actions[n])
  {
  }

  /** The window holds the latest 32 served latencies, and the median is the window's. */
  lemma {:induction false} WindowIs(c: Config, actions: seq<Action>, s: State)
    requires ValidConfig(c) && Run(c, actions) == Some(s)
    ensures s.latencies == Latest(ServedLatencies(c, actions), 32)
    ensures s.median == if s.latencies == [] then None else Some(MiddleOf(s.latencies))
  {
    if actions == [] {
    } else {
      var n := |actions| - 1;
      var before := RunStep(c, actions, s);
      LatenciesUnfold(c, actions);
      hide *;
      WindowIs(c, actions[..n], before);
      LatenciesStep(c, before, actions[n]);
      var earlier, noted := ServedLatencies(c, actions[..n]), ServedLatency(Some(before), actions[n]);
      if noted == [] {
        assert earlier + noted == earlier;
      } else {
        assert noted == [noted[0]];
        PushLatest(earlier, noted[0]);
      }
    }
  }

  // ----- When a tick dispatches -----

  /** At most half of the values lie below m, and more than half at or below it. */
  ghost predicate IsMedian(s: seq<real>, m: real) {
    CountLt(s, m) <= |s| / 2 < CountLe(s, m)
  }

  /** At least an interval apart, and as far as the median latency divided among the workers. */
  ghost predicate FarEnough(c: Config, latencies: seq<real>, last: real, now: real) {
    && now - last >= c.interval
    && forall m | IsMedian(latencies, m) :: (now - last) * c.workers as real >= m
  }

  lemma MiddleIsMedian(s: seq<real>, m: real)
    requires s != []
    ensures IsMedian(s, m) <==> m == MiddleOf(s)
  {
    hide SortReals, CountLt, CountLe;
    RankCount(s, |s| / 2);
    if IsMedian(s, m) {
      RankIs(s, |s| / 2, m);
    }
  }

  lemma NoMedian(m: real)
    ensures !IsMedian([], m)
  {
  }

  lemma Quotient(m: real, n: nat, x: real)
    requires n >= 1
    ensures x >= m / n as real <==> x * n as real >= m
  {
    var q, k := m / n as real, n as real;
    assert q * k == m;
    if x >= q {
      NonNegativeProduct(x - q, k);
      assert (x - q) * k == x * k - m;
    } else {
      assert (q - x) * k > 0.0;
      assert (q - x) * k == m - x * k;
    }
  }

  lemma SpacingIff(c: Config, latencies: seq<real>, median: Option<real>, last: real, now: real)
    requires ValidConfig(c) && median == if latencies == [] then None else Some(MiddleOf(latencies))
    ensures now - last >= Spacing(c, median) <==> FarEnough(c, latencies, last, now)
  {
    hide IsMedian, MiddleOf;
    if latencies == [] {
      forall m ensures !IsMedian(latencies, m) {
        NoMedian(m);
      }
    } else {
      var m := MiddleOf(latencies);
      MiddleIsMedian(latencies, m);
      forall x | IsMedian(latencies, x) ensures x == m {
        MiddleIsMedian(latencies, x);
      }
      Quotient(m, c.workers, now - last);
    }
  }

  lemma CountDecides(c: Config, s: State, now: real)
    requires ValidConfig(c) && Enabled(c, s, Count(now))
    ensures var t := Next(c, s, Count(now));
      && t.dispatcher == (if now - s.lastDispatch >= Spacing(c, s.median) then Firing(now) else Looping)
      && t.spacedOut == s.spacedOut + if now - s.lastDispatch >= Spacing(c, s.median) then 0 else 1
  {
    hide Spacing;
  }

  /** A counted tick goes on to dispatch exactly when it comes at least an interval after the last
      dispatch, and at least the median of the latest 32 served latencies divided among the workers;
      otherwise it is spaced out. */
  lemma TickDispatchesIff(c: Config, actions: seq<Action>, s: State, now: real)
    requires ValidConfig(c) && Run(c, actions) == Some(s) && Enabled(c, s, Count(now))
    ensures var t, far := Next(c, s, Count(now)), FarEnough(c, Latest(ServedLatencies(c, actions), 32), s.lastDispatch, now);
      && (t.dispatcher == Firing(now) <==> far)
      && t.spacedOut == s.spacedOut + if far then 0 else 1
  {
    hide *;
    WindowIs(c, actions, s);
    CountDecides(c, s, now);
    SpacingIff(c, s.latencies, s.median, s.lastDispatch, now);
  }

  // ----- Over the run -----

  function LastAt(sent: seq<Job>): real {
    if sent == [] then 0.0 else sent[|sent| - 1].at
  }

  /** Step k counted the tick of that time, far enough after the writes sent before it. */
  ghost predicate FiredBy(c: Config, actions: seq<Action>, k: int, sent: seq<Job>, now: real)
    requires ValidConfig(c)
  {
    && 0 <= k < |actions| && actions[k] == Count(now)
    && FarEnough(c, Latest(ServedLatencies(c, actions[..k]), 32), LastAt(sent), now)
    && match Run(c, actions[..k]) {
         case Some(u) => u.sent == sent
         case None => false
       }
  }

  ghost predicate WasFired(c: Config, actions: seq<Action>, sent: seq<Job>, now: real)
    requires ValidConfig(c)
  {
    exists k :: FiredBy(c, actions, k, sent, now)
  }

  /** The tick the dispatcher is dispatching. */
  function Dispatching(d: Dispatcher): Option<real> {
    match d
    case Firing(now) => Some(now)
    case Permitted(now) => Some(now)
    case Numbered(job) => Some(job.at)
    case _ => None
  }

  lemma LastStep(c: Config, s: State, a: Action)
    requires ValidConfig(c) && Enabled(c, s, a) && s.lastDispatch == LastAt(s.sent)
    ensures Next(c, s, a).lastDispatch == LastAt(Next(c, s, a).sent)
  {
    hide Deadline, Truncate, Spacing, PushLatency, MiddleOf;
  }

  lemma {:induction false} LastIs(c: Config, actions: seq<Action>, s: State)
    requires ValidConfig(c) && Run(c, actions) == Some(s)
    ensures s.lastDispatch == LastAt(s.sent)
  {
    if actions == [] {
    } else {
      var before := RunStep(c, actions, s);
      hide *;
      LastIs(c, actions[..|actions| - 1], before);
      LastStep(c, before, actions[|actions| - 1]);
    }
  }

  /** A step that starts dispatching is a counted tick; any other carries the tick on, and a put sends it. */
  lemma DispatchStep(c: Config, s: State, a: Action)
    requires ValidConfig(c) && Enabled(c, s, a)
    ensures var t := Next(c, s, a);
      && (Dispatching(t.dispatcher).Some? && Dispatching(t.dispatcher) != Dispatching(s.dispatcher) ==>
            a.Count? && t.dispatcher == Firing(a.now) && t.sent == s.sent)
      && (a.Count? && t.dispatcher.Firing? ==> t.dispatcher.now == a.now && t.sent == s.sent)
      && (Dispatching(t.dispatcher).Some? ==> t.sent == s.sent)
      && (t.sent != s.sent ==>
            |t.sent| == |s.sent| + 1 && t.sent[..|s.sent|] == s.sent && Dispatching(s.dispatcher) == Some(t.sent[|s.sent|].at))
  {
    hide Deadline, Truncate, Spacing, PushLatency, MiddleOf;
    var t := Next(c, s, a);
    if t.sent != s.sent {
      assert t.sent == s.sent + [s.dispatcher.job];
    }
  }

  lemma WasFiredEarlier(c: Config, actions: seq<Action>, sent: seq<Job>, now: real)
    requires ValidConfig(c) && actions != [] && WasFired(c, actions[..|actions| - 1], sent, now)
    ensures WasFired(c, actions, sent, now)
  {
    hide Run, FarEnough, ServedLatencies, Latest, LastAt;
    var n := |actions| - 1;
    var k :| FiredBy(c, actions[..n], k, sent, now);
    assert actions[..n][..k] == actions[..k];
    assert FiredBy(c, actions, k, sent, now);
  }

  lemma FiredLast(c: Config, actions: seq<Action>, before: State, now: real)
    requires ValidConfig(c) && actions != [] && Run(c, actions[..|actions| - 1]) == Some(before)
    requires actions[|actions| - 1] == Count(now) && Enabled(c, before, Count(now))
    requires Next(c, before, Count(now)).dispatcher == Firing(now)
    ensures WasFired(c, actions, before.sent, now)
  {
    hide *;
    var n := |actions| - 1;
    TickDispatchesIff(c, actions[..n], before, now);
    LastIs(c, actions[..n], before);
    FiredUnfold(c, actions, n, before, now);
  }

  lemma FiredUnfold(c: Config, actions: seq<Action>, k: nat, before: State, now: real)
    requires ValidConfig(c) && k < |actions| && actions[k] == Count(now) && Run(c, actions[..k]) == Some(before)
    requires FarEnough(c, Latest(ServedLatencies(c, actions[..k]), 32), LastAt(before.sent), now)
    ensures WasFired(c, actions, before.sent, now)
  {
    hide Run, FarEnough, ServedLatencies, Latest, LastAt;
    assert FiredBy(c, actions, k, before.sent, now);
  }

  lemma NothingDispatching(c: Config)
    requires ValidConfig(c)
    ensures Init(c).sent == [] && Dispatching(Init(c).dispatcher).None?
  {
  }

  lemma {:induction false} DispatchingWasFired(c: Config, actions: seq<Action>, s: State)
    requires ValidConfig(c) && Run(c, actions) == Some(s) && Dispatching(s.dispatcher).Some?
    ensures WasFired(c, actions, s.sent, Dispatching(s.dispatcher).value)
  {
    hide Run, Next, Enabled, Init, Dispatching, WasFired;
    if actions == [] {
      RunEnds(c, s);
      NothingDispatching(c);
      assert false;
    } else {
      var n := |actions| - 1;
      var before := RunStep(c, actions, s);
      DispatchStep(c, before, actions[n]);
      if Dispatching(s.dispatcher) != Dispatching(before.dispatcher) {
        FiringIs(s.dispatcher);
        FiredLast(c, actions, before, actions[n].now);
      } else {
        DispatchingWasFired(c, actions[..n], before);
        WasFiredEarlier(c, actions, s.sent, Dispatching(s.dispatcher).value);
      }
    }
  }

  lemma FiringIs(d: Dispatcher)
    ensures d.Firing? ==> Dispatching(d) == Some(d.now)
  {
  }

  /** In every run, write i went out at a counted tick, at least an interval after write i - 1 and at least
      the median of the 32 latencies served latest before that tick divided among the workers. */
  lemma {:induction false} DispatchesAreSpaced(c: Config, actions: seq<Action>, s: State, i: nat)
    requires ValidConfig(c) && Run(c, actions) == Some(s) && i < |s.sent|
    ensures WasFired(c, actions, s.sent[..i], s.sent[i].at)
  {
    hide Run, Next, Enabled, Init, Dispatching, WasFired;
    if actions == [] {
      RunEnds(c, s);
      NothingDispatching(c);
      assert false;
    } else {
      var n := |actions| - 1;
      var before := RunStep(c, actions, s);
      DispatchStep(c, before, actions[n]);
      if i < |before.sent| {
        assert s.sent[..i] == before.sent[..i];
        DispatchesAreSpaced(c, actions[..n], before, i);
      } else {
        assert s.sent[..i] == before.sent;
        DispatchingWasFired(c, actions[..n], before);
      }
      WasFiredEarlier(c, actions, s.sent[..i], s.sent[i].at);
    }
  }
}
