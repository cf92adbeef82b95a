/** Outages that were still open when the probe stopped: when the report says so, and when it does not. */
module RtoOpenOutage {
  import opened Options
  import opened Ordering
  import opened RtoAnalysis
  import opened RtoOutage
  import opened RtoInvariance

  /** How long the probe went on, unserved, after the last served write. */
  function OpenGap(attempts: seq<Attempt>): real
    requires Completions(attempts) != []
  {
    var times := Completions(attempts);
    LastCompletion(attempts).Or(times[|times| - 1]) - times[|times| - 1]
  }

  ghost predicate SomeGapQualifies(times: seq<real>, fault: real) {
    exists i :: 0 <= i < |times| - 1 && Qualifies(times, fault, NoiseFloor(times, fault), i)
  }

  lemma SilentMeans(attempts: seq<Attempt>, fault: real, end: Option<real>)
    requires |Completions(attempts)| >= 2 && OutageOf(Completions(attempts), fault).None?
    ensures var times := Completions(attempts);
      MeasureRto(attempts, fault, end).verdict ==
      JudgeNoOutage(times[|times| - 1], OpenGap(attempts), NoiseFloor(times, fault), fault,
                    CoverageTruncated(times, LastCompletion(attempts), fault, end))
  {
    hide Completions, NoiseFloor, CoverageTruncated, LastCompletion, Longest;
  }

  /** An open outage is reported exactly when the last served write is at or after the fault, the probe
      went on for more than the floor without another, and no gap that closed after the fault qualifies. */
  lemma StillOpenIff(attempts: seq<Attempt>, fault: real, end: Option<real>)
    requires |Completions(attempts)| >= 2
    ensures var times := Completions(attempts);
      MeasureRto(attempts, fault, end).verdict.StillOpen? <==>
        && times[|times| - 1] >= fault && OpenGap(attempts) > NoiseFloor(times, fault)
        && !SomeGapQualifies(times, fault)
  {
    hide MeasureRto, Completions, NoiseFloor, OpenGap, OutageOf, CoverageTruncated, LastCompletion, Qualifies;
    InterruptedMeans(attempts, fault, end);
    if OutageOf(Completions(attempts), fault).None? {
      SilentMeans(attempts, fault, end);
    }
  }

  lemma TooFewMeans(attempts: seq<Attempt>, fault: real, end: Option<real>)
    ensures MeasureRto(attempts, fault, end).verdict.TooFewServed? <==> |Completions(attempts)| < 2
  {
    hide Completions, NoiseFloor, CoverageTruncated, LastCompletion, Longest, TailAttribution, LateGaps, HealthyGaps, InFlightFraction, Over;
  }

  /** An outage that is open beyond the floor when the probe stops goes unreported exactly when fewer than
      two writes were served, or the last was served before the fault, or an earlier outage has closed. */
  lemma OpenOutageUnreportedIff(attempts: seq<Attempt>, fault: real, end: Option<real>)
    requires var times := Completions(attempts); times != [] && OpenGap(attempts) > NoiseFloor(times, fault)
    ensures var times := Completions(attempts);
      !MeasureRto(attempts, fault, end).verdict.StillOpen? <==>
        |times| < 2 || times[|times| - 1] < fault || SomeGapQualifies(times, fault)
  {
    hide MeasureRto, Completions, NoiseFloor, OpenGap, SomeGapQualifies;
    TooFewMeans(attempts, fault, end);
    if |Completions(attempts)| >= 2 {
      StillOpenIff(attempts, fault, end);
    }
  }

  lemma StillOpenMeans(attempts: seq<Attempt>, fault: real, end: Option<real>)
    requires MeasureRto(attempts, fault, end).verdict.StillOpen?
    ensures var times, o := Completions(attempts), MeasureRto(attempts, fault, end).verdict;
            && |times| >= 2 && o.since == times[|times| - 1] >= fault && OutageOf(times, fault).None?
            && o.atLeast == OpenGap(attempts) > NoiseFloor(times, fault)
  {
    hide MeasureRto, Completions, NoiseFloor, OpenGap, OutageOf, CoverageTruncated, LastCompletion;
    TooFewMeans(attempts, fault, end);
    InterruptedMeans(attempts, fault, end);
    SilentMeans(attempts, fault, end);
  }

  lemma AttemptsOutlast(attempts: seq<Attempt>)
    requires Completions(attempts) != []
    ensures LastCompletion(attempts).Some?
  {
    NothingCompleted();
    hide Completions;
  }

  lemma NothingCompleted()
    ensures Completions([]) == []
  {
  }

  /** An outage reported as open is longer than every silence that closed after the fault, and runs from
      the last served write, at or after the fault, to the last attempt. */
  lemma StillOpenIsLongest(attempts: seq<Attempt>, fault: real, end: Option<real>, u: real, v: real)
    requires MeasureRto(attempts, fault, end).verdict.StillOpen?
    requires Silence(Completions(attempts), u, v) && v >= fault
    ensures Completions(attempts) != []
    ensures var times, o := Completions(attempts), MeasureRto(attempts, fault, end).verdict;
            && o.since == times[|times| - 1] >= fault && LastCompletion(attempts) == Some(o.since + o.atLeast)
            && v - u < o.atLeast
  {
    hide *;
    StillOpenMeans(attempts, fault, end);
    AttemptsOutlast(attempts);
    OpenGapIs(attempts);
    CompletionsAscending(attempts);
    SilenceBound(Completions(attempts), fault, u, v);
  }

  lemma OpenGapIs(attempts: seq<Attempt>)
    requires Completions(attempts) != [] && LastCompletion(attempts).Some?
    ensures LastCompletion(attempts) == Some(Completions(attempts)[|Completions(attempts)| - 1] + OpenGap(attempts))
  {
    hide Completions, LastCompletion;
  }

  // ----- A closed outage hides an open one -----

  ghost predicate AllFailed(attempts: seq<Attempt>) {
    forall a | a in attempts :: !a.outcome.Ok?
  }

  lemma {:induction false} FailedServeNothing(attempts: seq<Attempt>)
    requires AllFailed(attempts)
    ensures Served(attempts) == []
  {
    if attempts != [] {
      assert attempts[0] in attempts;
      assert AllFailed(attempts[1..]);
      FailedServeNothing(attempts[1..]);
    }
  }

  lemma SameServed(attempts: seq<Attempt>, tail: seq<Attempt>)
    requires AllFailed(tail)
    ensures Served(attempts + tail) == Served(attempts) && Completions(attempts + tail) == Completions(attempts)
  {
    hide Served, SortReals;
    ServedAppend(attempts, tail);
    FailedServeNothing(tail);
    assert Served(attempts) + [] == Served(attempts);
  }

  lemma VerdictIsJudged(attempts: seq<Attempt>, fault: real, end: Option<real>)
    ensures |Sort(Served(attempts))| == |Completions(attempts)|
    ensures MeasureRto(attempts, fault, end).verdict ==
            Judge(Sort(Served(attempts)), Completions(attempts), LastCompletion(attempts), fault, end)
  {
    hide NoiseFloor, Resolution, CoverageTruncated, LastCompletion, Judge, Sort, SortReals, Served, FirstFailure,
      FirstServedAfter, CountLt;
  }

  lemma VerdictIsOutage(attempts: seq<Attempt>, fault: real, end: Option<real>)
    requires OutageOf(Completions(attempts), fault).Some?
    ensures |Sort(Served(attempts))| == |Completions(attempts)|
    ensures MeasureRto(attempts, fault, end).verdict ==
            JudgeOutage(Sort(Served(attempts)), Completions(attempts), fault, OutageOf(Completions(attempts), fault).value)
  {
    hide MeasureRto, NoiseFloor, Longest, Judge, JudgeOutage, Sort, Completions, Served;
    VerdictIsJudged(attempts, fault, end);
    JudgeSome(Sort(Served(attempts)), Completions(attempts), LastCompletion(attempts), fault, end,
              OutageOf(Completions(attempts), fault).value);
  }

  /** Once an outage has closed, whatever fails afterwards changes no verdict: a cluster that recovered
      once and then died for good is judged as one that recovered. */
  lemma ClosedOutageMasks(attempts: seq<Attempt>, tail: seq<Attempt>, fault: real, end: Option<real>)
    requires MeasureRto(attempts, fault, end).verdict.Interrupted? && AllFailed(tail)
    ensures MeasureRto(attempts + tail, fault, end).verdict == MeasureRto(attempts, fault, end).verdict
  {
    hide MeasureRto, Completions, OutageOf, Sort, JudgeOutage, Served, AllFailed;
    InterruptedMeans(attempts, fault, end);
    SameServed(attempts, tail);
    VerdictIsOutage(attempts, fault, end);
    VerdictIsOutage(attempts + tail, fault, end);
  }

  const RECOVERED := [Attempt(1, 0.0, 1.0, Ok, 0), Attempt(2, 1.0, 2.0, Ok, 0), Attempt(3, 2.0, 9.0, Ok, 0)]

  lemma RecoveredServed()
    ensures Keys(Served(RECOVERED)) == [1.0, 2.0, 9.0]
  {
    var r := RECOVERED;
    assert r[1..] == [r[1], r[2]] && r[1..][1..] == [r[2]] && r[1..][1..][1..] == [];
    assert Served([r[2]]) == [Keyed(9.0, 2.0)];
    assert Served([r[1], r[2]]) == [Keyed(2.0, 1.0), Keyed(9.0, 2.0)];
    assert Served(r) == [Keyed(1.0, 0.0), Keyed(2.0, 1.0), Keyed(9.0, 2.0)];
  }

  lemma ThreeAscend(s: seq<real>)
    requires |s| == 3 && s[0] <= s[1] <= s[2]
    ensures Ascending(s)
  {
  }

  lemma RecoveredTimes()
    ensures Completions(RECOVERED) == [1.0, 2.0, 9.0]
  {
    hide *;
    RecoveredServed();
    var times := [1.0, 2.0, 9.0];
    ThreeAscend(times);
    SortRealsAscending(times);
    AscendingUnique(SortReals(times), times);
    CompletionsAre(RECOVERED);
  }

  lemma CompletionsAre(attempts: seq<Attempt>)
    ensures Completions(attempts) == SortReals(Keys(Served(attempts)))
  {
  }

  lemma ThreeFloor(s: seq<real>)
    requires s == [1.0, 2.0, 9.0]
    ensures NoiseFloor(s, 2.5) == 2.0
  {
    var late := s[1..];
    assert HealthyGaps(late[1..], 2.5) == [] && HealthyGaps(late, 2.5) == [];
    assert HealthyGaps(s, 2.5) == [1.0];
    hide HealthyGaps;
    assert SortReals([1.0]) == [1.0] by {
      assert [1.0][1..] == [];
      assert SortReals([]) == [];
    }
  }

  /** One such run: served until 2, again at 9, and then never again, however long the probe goes on. It
      is reported as measurable, with service restored 6.5 after the fault. */
  lemma DeadClusterReadsAsRecovered(stop: real, end: Option<real>)
    ensures var verdict := MeasureRto(RECOVERED + [Attempt(4, 9.0, stop, Timeout, 0)], 2.5, end).verdict;
      verdict.Interrupted? && verdict.rto == 6.5
  {
    hide MeasureRto, Completions, NoiseFloor, RECOVERED;
    var times := [1.0, 2.0, 9.0];
    RecoveredTimes();
    ThreeFloor(times);
    InterruptedMeans(RECOVERED, 2.5, end);
    assert Qualifies(times, 2.5, 2.0, 1) && !Qualifies(times, 2.5, 2.0, 0);
    ClosedOutageMasks(RECOVERED, [Attempt(4, 9.0, stop, Timeout, 0)], 2.5, end);
  }
}
