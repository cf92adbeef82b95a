/** Which healthy records can ever yield a recovery time that is offered as one. */
module RtoQuotable {
  import opened Options
  import opened Ordering
  import opened Quantiles
  import opened RtoAnalysis
  import opened RtoOutage
  import opened RtoFloor
  import opened RtoAttribution

  /** The gaps of a run that closed before the fault. */
  function Healthy(attempts: seq<Attempt>, fault: real): seq<real> {
    HealthyGaps(Completions(attempts), fault)
  }

  /** Healthy gaps longer than the healthy 95th percentile. */
  function Exceedances(healthy: seq<real>): nat {
    Over(healthy, Quantile(healthy, 0.95).Or(0.0))
  }

  /** Whatever is served or not from the fault on, no interruption of the run is offered as a recovery time. */
  ghost predicate NeverQuotable(attempts: seq<Attempt>, fault: real) {
    forall other, end |
      SamePreFault(attempts, other, fault) && MeasureRto(other, fault, end).verdict.Interrupted? ::
        MeasureRto(other, fault, end).verdict.quotable.None?
  }

  /** Without exceedances before the fault no interruption is offered. */
  lemma NoExceedanceWithholds(attempts: seq<Attempt>, fault: real, end: Option<real>)
    requires |Healthy(attempts, fault)| >= 20 && Exceedances(Healthy(attempts, fault)) == 0
    requires MeasureRto(attempts, fault, end).verdict.Interrupted?
    ensures MeasureRto(attempts, fault, end).verdict.quotable.None?
  {
    hide MeasureRto, Completions, HealthyGaps, LateGaps, Over;
    AttributionMeans(attempts, fault, end);
  }

  /** With fewer than 20 healthy gaps every interruption is offered, untested. */
  lemma FewGapsQuote(attempts: seq<Attempt>, fault: real, end: Option<real>)
    requires |Healthy(attempts, fault)| < 20 && MeasureRto(attempts, fault, end).verdict.Interrupted?
    ensures MeasureRto(attempts, fault, end).verdict.quotable.Some?
  {
    hide MeasureRto, Completions, HealthyGaps, LateGaps, Over;
    AttributionMeans(attempts, fault, end);
  }

  // ----- A continuation that is offered -----

  /** The healthy part of a run, then one served write at a given time. */
  function Resumed(attempts: seq<Attempt>, fault: real, at: real): seq<Attempt> {
    KeepPreFault(attempts, fault) + [Attempt(0, at, at, Ok, 0)]
  }

  lemma ResumedTimes(attempts: seq<Attempt>, fault: real, at: real)
    requires at >= fault
    ensures SamePreFault(attempts, Resumed(attempts, fault, at), fault)
    ensures Completions(Resumed(attempts, fault, at)) == SortReals(PreFault(attempts, fault)) + [at]
  {
    hide SortReals;
    var last := Attempt(0, at, at, Ok, 0);
    var pre := PreFault(attempts, fault);
    KeepPreFaultTimes(attempts, fault);
    ServedTimesSplit(KeepPreFault(attempts, fault), [last]);
    ServedTimesOne(last);
    SplitSides(ServedTimes(attempts), fault);
    BelowJoin(pre, [at], fault);
    SortSplit(pre + [at], fault);
    OneSorted(at);
  }

  lemma OneSorted(x: real)
    ensures SortReals([x]) == [x]
  {
    assert [x][1..] == [];
  }

  lemma GapsUnfold(t: seq<real>)
    requires |t| >= 2
    ensures Gaps(t) == [t[1] - t[0]] + Gaps(t[1..])
  {
  }

  lemma OneGapless(x: real)
    ensures Gaps([x]) == []
  {
  }

  lemma GapsCons(x: real, s: seq<real>)
    requires s != []
    ensures Gaps([x] + s) == [s[0] - x] + Gaps(s)
  {
    hide *;
    var t := [x] + s;
    GapsUnfold(t);
    assert t[1..] == s;
  }

  lemma {:induction false} GapsNext(s: seq<real>, x: real)
    requires s != []
    ensures Gaps(s + [x]) == Gaps(s) + [x - s[|s| - 1]]
  {
    hide *;
    var rest := s[1..];
    assert s == [s[0]] + rest && s + [x] == [s[0]] + (rest + [x]);
    GapsCons(s[0], rest + [x]);
    if rest == [] {
      OneGapless(x);
      OneGapless(s[0]);
      assert rest + [x] == [x] && [x - s[0]] + [] == [] + [x - s[0]];
    } else {
      GapsCons(s[0], rest);
      GapsNext(rest, x);
      assert [rest[0] - s[0]] + (Gaps(rest) + [x - s[|s| - 1]]) == [rest[0] - s[0]] + Gaps(rest) + [x - s[|s| - 1]];
    }
  }

  lemma {:induction false} LateGapsNext(s: seq<real>, x: real, fault: real)
    requires s != [] && AllBelow(s, fault) && x >= fault
    ensures LateGaps(s + [x], fault) == [x - s[|s| - 1]]
  {
    if |s| == 1 {
      assert (s + [x])[1..] == [x] && LateGaps([x], fault) == [];
    } else {
      assert (s + [x])[1..] == s[1..] + [x];
      LateGapsNext(s[1..], x, fault);
    }
  }

  lemma AtMostByRank(s: seq<real>, i: nat, m: real)
    requires i < |s| && CountLe(s, m) > i
    ensures SortReals(s)[i] <= m
  {
    RankCount(s, i);
    hide *;
    if SortReals(s)[i] > m {
      CountLeLt(s, m, SortReals(s)[i]);
    }
  }

  /** A quantile that does not reach the top rank ignores one value above all others. */
  lemma QuantileBelowTop(s: seq<real>, x: real, m: real)
    requires |s| >= 21 && forall y | y in s :: y <= m
    ensures Quantile(s + [x], 0.95).Some? && Quantile(s + [x], 0.95).value <= m
  {
    var all := s + [x];
    var i: nat := ProbeRank(|all|, 0.95) - 1;
    RankInside(|all|);
    forall k | 0 <= k < |s| ensures s[k] <= m {
      assert s[k] in s;
    }
    CountAll(s, m);
    CountSplit(s, [x], m);
    hide SortReals, CountLe, CountLt, ProbeRank;
    AtMostByRank(all, i, m);
  }

  /** The 95th percentile of more than 21 values is not the greatest of them by rank. */
  lemma RankInside(n: nat)
    requires n >= 22
    ensures ProbeRank(n, 0.95) < n
  {
    assert Share(0.95, n) == 0.95 * n as real;
    hide RoundHalfEven;
  }

  lemma HealthyPercentile(h: seq<real>)
    requires h != []
    ensures Quantile(h, 0.95).Some? && Quantile(h, 0.95).value <= MaxOf(h)
  {
    QuantileCovers(h, 0.95, Quantile(h, 0.95).value);
  }

  /** The completions of the resumed run: the healthy ones, ascending, and the one write. */
  lemma ResumedShape(attempts: seq<Attempt>, fault: real, at: real) returns (low: seq<real>)
    requires Healthy(attempts, fault) != [] && at >= fault
    ensures SamePreFault(attempts, Resumed(attempts, fault, at), fault)
    ensures low != [] && AllBelow(low, fault) && Completions(Resumed(attempts, fault, at)) == low + [at]
    ensures Gaps(low) == Healthy(attempts, fault) == HealthyGaps(low + [at], fault)
  {
    hide Completions, Resumed, PreFault, SortReals, HealthyGaps;
    low := SortReals(PreFault(attempts, fault));
    ResumedTimes(attempts, fault, at);
    SameHealthyGaps(attempts, Resumed(attempts, fault, at), fault);
    HealthyGapsArePreFault(attempts, fault);
    PreFaultBelow(attempts, fault);
  }

  lemma PreFaultBelow(attempts: seq<Attempt>, fault: real)
    ensures AllBelow(SortReals(PreFault(attempts, fault)), fault)
  {
    hide SortReals, Served;
    SplitSides(Keys(Served(attempts)), fault);
    SortSides(PreFault(attempts, fault), fault);
  }

  lemma PeriodOf(low: seq<real>, at: real, fault: real)
    requires |Gaps(low)| >= 21 && HealthyGaps(low + [at], fault) == Gaps(low)
    ensures Period(low + [at], fault) <= MaxOf(Gaps(low))
  {
    hide Gaps, HealthyGaps, Quantile;
    var h := Gaps(low);
    HealthyPercentile(h);
    QuantileBelowTop(h, at - low[|low| - 1], MaxOf(h));
    GapsNext(low, at);
  }

  lemma FloorOf(low: seq<real>, at: real, fault: real)
    requires |Gaps(low)| >= 21 && HealthyGaps(low + [at], fault) == Gaps(low)
    ensures NoiseFloor(low + [at], fault) <= 2.0 * MaxOf(Gaps(low))
  {
    hide Gaps, HealthyGaps, Period;
    PeriodOf(low, at, fault);
  }

  lemma HealthyNonNegative(attempts: seq<Attempt>, fault: real)
    requires Healthy(attempts, fault) != []
    ensures MaxOf(Healthy(attempts, fault)) >= 0.0
  {
    hide Completions, HealthyGaps;
    CompletionsAscending(attempts);
    GapsNonNegative(Completions(attempts), fault);
  }

  /** When the one write comes. */
  function ResumeAt(attempts: seq<Attempt>, fault: real): (at: real)
    requires Healthy(attempts, fault) != []
  {
    fault + 2.0 * MaxOf(Healthy(attempts, fault)) + 1.0
  }

  /** The one late gap of the resumed run qualifies. */
  lemma ResumedQualifies(low: seq<real>, at: real, fault: real)
    requires low != [] && AllBelow(low, fault) && |Gaps(low)| >= 21 && HealthyGaps(low + [at], fault) == Gaps(low)
    requires MaxOf(Gaps(low)) >= 0.0 && at == fault + 2.0 * MaxOf(Gaps(low)) + 1.0
    ensures var times := low + [at]; Qualifies(times, fault, NoiseFloor(times, fault), |low| - 1)
    ensures LateGaps(low + [at], fault) == [at - low[|low| - 1]] && at - low[|low| - 1] > MaxOf(Gaps(low))
  {
    hide Gaps, HealthyGaps, LateGaps, NoiseFloor;
    FloorOf(low, at, fault);
    LateGapsNext(low, at, fault);
  }

  lemma OneOver(x: real, v: real)
    requires x > v
    ensures Over([x], v) == 1
  {
    assert [x][1..] == [];
  }

  /** One late exceedance against at least one, and at most 5%, of the healthy gaps is heavier. */
  lemma OneLateIsHeavier(t: Attribution, healthy: seq<real>, x: real)
    requires t.Tested? && healthy != [] && Counts(t, healthy, [x]) && x > MaxOf(healthy)
    requires Exceedances(healthy) > 0 && 20 * t.preOver <= t.preGaps
    ensures t.preOver > 0 && 2 * t.postOver * t.preGaps >= 3 * t.preOver * t.postGaps
  {
    hide Over, Quantile;
    HealthyPercentile(healthy);
    OneOver(x, Quantile(healthy, 0.95).value);
    assert t.postOver == 1 && t.postGaps == 1;
  }

  /** With an exceedance before the fault, one write long enough after it is offered as a recovery. */
  lemma ExceedanceQuotes(attempts: seq<Attempt>, fault: real, end: Option<real>)
    requires |Healthy(attempts, fault)| >= 21 && Exceedances(Healthy(attempts, fault)) > 0
    ensures var other := Resumed(attempts, fault, ResumeAt(attempts, fault));
      && SamePreFault(attempts, other, fault)
      && MeasureRto(other, fault, end).verdict.Interrupted? && MeasureRto(other, fault, end).verdict.quotable.Some?
  {
    hide MeasureRto, Completions, HealthyGaps, LateGaps, NoiseFloor, Resumed, Gaps, Qualifies, Exceedances, SamePreFault,
      Counts, OutageOf, AllBelow, OffersItsEnd;
    var at := ResumeAt(attempts, fault);
    var other := Resumed(attempts, fault, at);
    HealthyNonNegative(attempts, fault);
    var low := ResumedShape(attempts, fault, at);
    ResumedQualifies(low, at, fault);
    InterruptedMeans(other, fault, end);
    AttributionMeans(other, fault, end);
    OneLateIsHeavier(MeasureRto(other, fault, end).verdict.attribution, Gaps(low), at - low[|low| - 1]);
  }

  // ----- Exactly when -----

  /** The 20th of 20 values is their greatest: none exceeds the 95th percentile. */
  lemma TwentyGapsHaveNoExceedance(healthy: seq<real>)
    requires |healthy| == 20
    ensures Exceedances(healthy) == 0
  {
    var v := Quantile(healthy, 0.95).value;
    assert Share(0.95, 20) == 19.0;
    assert ProbeRank(20, 0.95) == 20;
    SortRealsAscending(healthy);
    SameMembers(SortReals(healthy), healthy);
    var r := SortReals(healthy);
    hide SortReals;
    forall i | 0 <= i < 20 ensures healthy[i] <= v {
      assert healthy[i] in r;
      var k :| 0 <= k < 20 && r[k] == healthy[i];
    }
    CountAll(healthy, v);
  }

  /** With at least 20 healthy gaps, no continuation of the run is ever offered as a recovery time if and
      only if no healthy gap exceeds the healthy 95th percentile. */
  lemma NeverQuotableIff(attempts: seq<Attempt>, fault: real)
    requires |Healthy(attempts, fault)| >= 20
    ensures NeverQuotable(attempts, fault) <==> Exceedances(Healthy(attempts, fault)) == 0
  {
    var h := Healthy(attempts, fault);
    hide MeasureRto, Completions, HealthyGaps, SamePreFault, Exceedances;
    if Exceedances(h) == 0 {
      forall other, end |
        SamePreFault(attempts, other, fault) && MeasureRto(other, fault, end).verdict.Interrupted?
        ensures MeasureRto(other, fault, end).verdict.quotable.None?
      {
        SameHealthyGaps(attempts, other, fault);
        NoExceedanceWithholds(other, fault, end);
      }
    } else {
      if |h| == 20 {
        TwentyGapsHaveNoExceedance(h);
      }
      ExceedanceQuotes(attempts, fault, None);
    }
  }

  /** Exactly 20 healthy gaps, of whatever lengths, withhold every interruption. */
  lemma TwentyGapsAreNeverQuotable(attempts: seq<Attempt>, fault: real)
    requires |Healthy(attempts, fault)| == 20
    ensures NeverQuotable(attempts, fault)
  {
    hide NeverQuotable, Healthy, Exceedances;
    TwentyGapsHaveNoExceedance(Healthy(attempts, fault));
    NeverQuotableIff(attempts, fault);
  }

  /** So do 20 or more equal ones. */
  lemma SteadyCadenceIsNeverQuotable(attempts: seq<Attempt>, fault: real, g: real)
    requires |Healthy(attempts, fault)| >= 20 && forall x | x in Healthy(attempts, fault) :: x == g
    ensures NeverQuotable(attempts, fault)
  {
    hide NeverQuotable, Healthy;
    SteadyHasNoExceedance(Healthy(attempts, fault), g);
    NeverQuotableIff(attempts, fault);
  }

  lemma SteadyHasNoExceedance(s: seq<real>, g: real)
    requires s != [] && forall x | x in s :: x == g
    ensures Exceedances(s) == 0
  {
    var v := Quantile(s, 0.95).value;
    QuantileCovers(s, 0.95, v);
    forall i | 0 <= i < |s| ensures s[i] <= g {
      assert s[i] in s;
    }
    CountAll(s, g);
  }
}
