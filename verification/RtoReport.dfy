/** What the fields of an RTO report say about the attempts it was measured on. */
module RtoReport {
  import opened Numbers
  import opened Options
  import opened Ordering
  import opened Quantiles
  import opened RtoAnalysis
  import opened RtoOutage
  import opened RtoOpenOutage
  import opened RtoInvariance
  import opened RtoAttribution
  import opened RtoServed

  // ----- Counts and delays -----

  /** The least delay after the fault at which an attempt of that kind ended, if one did. */
  ghost predicate LeastDelay(attempts: seq<Attempt>, served: bool, fault: real, delay: Option<real>) {
    && (delay.Some? ==> exists a :: a in attempts && a.outcome.Ok? == served && a.complete >= fault && a.complete - fault == delay.value)
    && (forall a | a in attempts && a.outcome.Ok? == served && a.complete >= fault :: delay.Some? && delay.value <= a.complete - fault)
  }

  lemma {:induction false} FirstServedAfterIs(times: seq<real>, fault: real)
    requires Ascending(times)
    ensures var r := FirstServedAfter(times, fault);
      && (r.Some? ==> r.value in times && r.value >= fault)
      && (forall t | t in times && t >= fault :: r.Some? && r.value <= t)
  {
    if times != [] {
      FirstServedAfterIs(times[1..], fault);
      assert times == [times[0]] + times[1..];
    }
  }

  lemma CompletionsIn(attempts: seq<Attempt>, t: real)
    ensures t in Completions(attempts) <==> exists a :: a in attempts && a.outcome.Ok? && a.complete == t
  {
    CompletionsCount(attempts);
    hide Completions;
    var served := ServedAt(attempts, At(t));
    assert t in Completions(attempts) <==> |served| > 0;
    if |served| > 0 {
      var i :| i in served;
      assert attempts[i] in attempts;
    }
    if a :| a in attempts && a.outcome.Ok? && a.complete == t {
      var i :| 0 <= i < |attempts| && attempts[i] == a;
      assert i in served;
    }
  }

  lemma DetectionLagIs(attempts: seq<Attempt>, fault: real)
    ensures LeastDelay(attempts, false, fault, Minus(FirstFailure(attempts, fault), fault))
  {
    FirstFailureIsLeast(attempts, fault);
    hide FirstFailure;
  }

  lemma NextWriteIs(attempts: seq<Attempt>, fault: real)
    ensures LeastDelay(attempts, true, fault, Minus(FirstServedAfter(Completions(attempts), fault), fault))
  {
    CompletionsAscending(attempts);
    FirstServedAfterIs(Completions(attempts), fault);
    hide Completions, FirstServedAfter;
    forall t ensures t in Completions(attempts) <==> exists a :: a in attempts && a.outcome.Ok? && a.complete == t {
      CompletionsIn(attempts, t);
    }
    forall a | a in attempts && a.outcome.Ok? ensures a.complete in Completions(attempts) {
    }
  }

  lemma FieldsAre(attempts: seq<Attempt>, fault: real, end: Option<real>)
    ensures var r, times := MeasureRto(attempts, fault, end), Completions(attempts);
      && r.detectionLag == Minus(FirstFailure(attempts, fault), fault)
      && r.nextWriteAfterFault == Minus(FirstServedAfter(times, fault), fault)
      && r.servedBefore == CountLt(times, fault) && r.servedAfter == |times| - CountLt(times, fault)
      && r.lastObservation == LastCompletion(attempts) && r.observationEnd == end
      && r.coverageGap == CoverageGap(LastCompletion(attempts), end)
      && r.coverageTruncated == (if r.coverageGap.Some?
                                 then Some(CoverageTruncated(times, LastCompletion(attempts), fault, end)) else None)
      && r.resolution == (if Period(times, fault) == 0.0 then None else Some(Period(times, fault)))
      && r.noiseFloor == if |times| < 2 then None else Some(NoiseFloor(times, fault))
  {
    hide Completions, Resolution, NoiseFloor, Judge, FirstFailure, FirstServedAfter, CountLt, LastCompletion, CoverageGap,
      CoverageTruncated, Sort, Served, Minus;
  }

  /** The report counts the served attempts on either side of the fault; its detection lag is the least
      delay of a failed one, and its next write the least delay of a served one. */
  lemma DelaysAndCounts(attempts: seq<Attempt>, fault: real, end: Option<real>)
    ensures var r := MeasureRto(attempts, fault, end);
      && r.servedBefore == |ServedAt(attempts, Before(fault))|
      && r.servedAfter == |ServedAt(attempts, From(fault))|
      && LeastDelay(attempts, false, fault, r.detectionLag)
      && LeastDelay(attempts, true, fault, r.nextWriteAfterFault)
  {
    hide *;
    FieldsAre(attempts, fault, end);
    CompletionCounts(attempts, fault);
    DetectionLagIs(attempts, fault);
    NextWriteIs(attempts, fault);
  }

  // ----- Resolution and floor -----

  /** The first k gaps are those that closed before the fault. */
  ghost predicate HealthyUpTo(times: seq<real>, fault: real, k: int) {
    forall j | 1 <= j < |times| :: times[j] < fault <==> j <= k
  }

  lemma SplitUnfold(times: seq<real>, fault: real)
    requires |times| >= 2
    ensures var x := times[1] - times[0];
      && Gaps(times) == [x] + Gaps(times[1..])
      && HealthyGaps(times, fault) == (if times[1] < fault then [x] else []) + HealthyGaps(times[1..], fault)
      && LateGaps(times, fault) == (if times[1] >= fault then [x] else []) + LateGaps(times[1..], fault)
  {
  }

  lemma SplitNext(times: seq<real>, fault: real, k: int)
    requires |times| >= 2 && Ascending(times) && HealthyUpTo(times[1..], fault, k) && 0 <= k < |times| - 1
    ensures HealthyUpTo(times, fault, if times[1] < fault then k + 1 else 0)
    ensures times[1] >= fault ==> k == 0
  {
    var rest := times[1..];
    forall j | 1 <= j < |times| ensures times[j] < fault <==> j <= if times[1] < fault then k + 1 else 0 {
      assert j >= 2 ==> times[j] == rest[j - 1];
      assert times[1] <= times[j];
    }
    if k > 0 {
      assert rest[1] < fault && times[1] <= times[2];
    }
  }

  /** The gaps that closed before the fault come first. */
  lemma {:induction false} GapsSplit(times: seq<real>, fault: real)
    requires Ascending(times)
    ensures var g, k := Gaps(times), |HealthyGaps(times, fault)|;
      && k <= |g| && HealthyGaps(times, fault) == g[..k] && LateGaps(times, fault) == g[k..]
      && HealthyUpTo(times, fault, k)
  {
    if |times| >= 2 {
      SplitUnfold(times, fault);
      assert Ascending(times[1..]);
      hide HealthyGaps, LateGaps, HealthyUpTo, Ascending;
      GapsSplit(times[1..], fault);
      SplitNext(times, fault, |HealthyGaps(times[1..], fault)|);
    }
  }

  /** An observed value with no more than q of the values below it, and at least q of them at or below it. */
  ghost predicate IsQuantile(values: seq<real>, q: real, v: real) {
    v in values && CountLt(values, v) as real <= q * |values| as real <= CountLe(values, v) as real
  }

  lemma RankWithinShare(n: nat, q: real)
    requires n > 0 && 0.0 <= q <= 1.0
    ensures (ProbeRank(n, q) - 1) as real <= Share(q, n)
  {
    ShareRange(q, n);
    hide Share, RoundHalfEven;
  }

  lemma Between(values: seq<real>, q: real, v: real, rank: nat)
    requires v in values && CountLt(values, v) <= rank - 1 && (rank - 1) as real <= Share(q, |values|)
    requires Share(q, |values|) <= CountLe(values, v) as real
    ensures IsQuantile(values, q, v)
  {
    hide CountLt, CountLe;
  }

  lemma QuantileAt(values: seq<real>, q: real)
    requires values != []
    ensures Quantile(values, q) == Some(SortReals(values)[ProbeRank(|values|, q) - 1])
  {
    hide SortReals, ProbeRank;
  }

  /** What the probe reads off a list is a quantile of it. */
  lemma QuantileIs(values: seq<real>, q: real)
    requires values != [] && 0.0 <= q <= 1.0
    ensures Quantile(values, q).Some? && IsQuantile(values, q, Quantile(values, q).value)
  {
    hide *;
    QuantileAt(values, q);
    var v := SortReals(values)[ProbeRank(|values|, q) - 1];
    QuantileCovers(values, q, v);
    RankCount(values, ProbeRank(|values|, q) - 1);
    RankWithinShare(|values|, q);
    Between(values, q, v, ProbeRank(|values|, q));
  }

  /** The period p is the 95th percentile of the healthy gaps, or of all of them when there is no healthy
      gap or that percentile is zero. */
  ghost predicate IsPeriod(gaps: seq<real>, healthy: nat, p: real)
    requires healthy <= |gaps| && gaps != []
  {
    || (healthy > 0 && p != 0.0 && IsQuantile(gaps[..healthy], 0.95, p))
    || ((healthy == 0 || IsQuantile(gaps[..healthy], 0.95, 0.0)) && IsQuantile(gaps, 0.95, p))
  }

  lemma PeriodIs(times: seq<real>, fault: real, k: nat)
    requires |times| >= 2 && k <= |Gaps(times)| && HealthyGaps(times, fault) == Gaps(times)[..k]
    ensures IsPeriod(Gaps(times), k, Period(times, fault))
  {
    var g := Gaps(times);
    hide Quantile, Gaps, HealthyGaps, IsQuantile;
    QuantileIs(g, 0.95);
    if k > 0 {
      QuantileIs(g[..k], 0.95);
    } else {
      assert g[..k] == [];
    }
    NoQuantile();
  }

  lemma NoQuantile()
    ensures Quantile([], 0.95) == None
  {
  }

  lemma FloorOfGaps(times: seq<real>, fault: real)
    ensures var h, p := HealthyGaps(times, fault), Period(times, fault);
      NoiseFloor(times, fault) == if h != [] then MaxOf(h) + p else 2.0 * p
  {
    hide HealthyGaps, Period;
  }

  /** The floor: the longest of the healthy gaps plus a period, or two periods when none is healthy. */
  ghost predicate IsFloor(gaps: seq<real>, healthy: nat, p: real, floor: real)
    requires healthy <= |gaps|
  {
    && (forall i | 0 <= i < healthy :: gaps[i] + p <= floor)
    && (healthy > 0 ==> exists i :: 0 <= i < healthy && gaps[i] + p == floor)
    && (healthy == 0 ==> floor == 2.0 * p)
  }

  lemma FloorIs(times: seq<real>, fault: real, k: nat)
    requires k <= |Gaps(times)| && HealthyGaps(times, fault) == Gaps(times)[..k]
    ensures IsFloor(Gaps(times), k, Period(times, fault), NoiseFloor(times, fault))
  {
    FloorOfGaps(times, fault);
    var g, h := Gaps(times), HealthyGaps(times, fault);
    hide Gaps, HealthyGaps, Period, NoiseFloor, MaxOf;
    if k > 0 {
      var m := MaxOf(h);
      var i :| 0 <= i < |h| && h[i] == m;
      assert g[i] == m;
      forall j | 0 <= j < k ensures g[j] <= m {
        assert g[j] == h[j] && h[j] in h;
      }
    }
  }

  /** The reported resolution and floor, read off the completion times: with k of the gaps closing before
      the fault, the resolution is their 95th percentile, falling back on all gaps, and the floor is the
      longest of the k plus the resolution, or twice the resolution when k is 0. */
  lemma ResolutionAndFloor(attempts: seq<Attempt>, fault: real, end: Option<real>) returns (k: nat)
    requires |Completions(attempts)| >= 2
    ensures var r, times := MeasureRto(attempts, fault, end), Completions(attempts);
      && k < |times| && HealthyUpTo(times, fault, k)
      && IsPeriod(Gaps(times), k, r.resolution.Or(0.0)) && r.resolution != Some(0.0)
      && r.noiseFloor.Some? && IsFloor(Gaps(times), k, r.resolution.Or(0.0), r.noiseFloor.value)
  {
    hide Completions, MeasureRto, NoiseFloor, Period, Ascending, HealthyGaps, LateGaps, HealthyUpTo, IsPeriod, IsFloor;
    var times := Completions(attempts);
    FieldsAre(attempts, fault, end);
    CompletionsAscending(attempts);
    GapsSplit(times, fault);
    k := |HealthyGaps(times, fault)|;
    PeriodIs(times, fault, k);
    FloorIs(times, fault, k);
  }

  // ----- Coverage -----

  /** The last observation is the greatest completion of any outcome, and the run outlived it by the
      coverage gap; coverage is truncated when that is more than 20 times the resolution. */
  lemma CoverageIs(attempts: seq<Attempt>, fault: real, end: Option<real>)
    ensures var r := MeasureRto(attempts, fault, end);
      && (r.lastObservation.None? <==> attempts == [])
      && (forall a | a in attempts :: r.lastObservation.Some? && a.complete <= r.lastObservation.value)
      && (r.lastObservation.Some? ==> exists a :: a in attempts && a.complete == r.lastObservation.value)
      && (r.coverageGap.Some? <==> end.Some? && attempts != [])
      && (r.coverageGap.Some? ==> r.coverageGap.value == end.value - r.lastObservation.value)
      && r.coverageTruncated == (if r.coverageGap.Some? then Some(r.coverageGap.value > 20.0 * r.resolution.Or(0.0)) else None)
  {
    FieldsAre(attempts, fault, end);
    LastCompletionIsGreatest(attempts);
    hide MeasureRto, Completions, Period, LastCompletion;
    if attempts != [] {
      assert attempts[0] in attempts;
    }
  }

  /** With two served writes and no qualifying gap, a report that finds no open outage blames the probe
      exactly when coverage was truncated, and otherwise denies an interruption. */
  lemma CoverageLostIff(attempts: seq<Attempt>, fault: real, end: Option<real>)
    ensures var r, times := MeasureRto(attempts, fault, end), Completions(attempts);
      && (r.verdict.CoverageLost? || r.verdict.NoInterruption? <==>
            |times| >= 2 && !SomeGapQualifies(times, fault) && !r.verdict.StillOpen?)
      && (r.verdict.CoverageLost? ==> r.coverageTruncated == Some(true))
      && (r.verdict.NoInterruption? ==> r.coverageTruncated != Some(true))
  {
    hide *;
    FieldsAre(attempts, fault, end);
    TooFewMeans(attempts, fault, end);
    InterruptedUnless(attempts, fault, end);
    if |Completions(attempts)| >= 2 && OutageOf(Completions(attempts), fault).None? {
      SilentMeans(attempts, fault, end);
      NoOutageIs(Completions(attempts), OpenGap(attempts), NoiseFloor(Completions(attempts), fault), fault,
                 LastCompletion(attempts), end);
    }
  }

  lemma InterruptedUnless(attempts: seq<Attempt>, fault: real, end: Option<real>)
    ensures var times, v := Completions(attempts), MeasureRto(attempts, fault, end).verdict;
      && (SomeGapQualifies(times, fault) <==> OutageOf(times, fault).Some?)
      && (v.Interrupted? <==> OutageOf(times, fault).Some?)
      && (OutageOf(times, fault).Some? ==> |times| >= 2)
  {
    hide MeasureRto, Completions, NoiseFloor, Qualifies, Longest;
    InterruptedMeans(attempts, fault, end);
  }

  lemma NoOutageIs(times: seq<real>, open: real, floor: real, fault: real, last: Option<real>, end: Option<real>)
    requires times != []
    ensures var truncated := CoverageTruncated(times, last, fault, end);
      var v := JudgeNoOutage(times[|times| - 1], open, floor, fault, truncated);
      && (truncated ==> CoverageGap(last, end).Some?)
      && (v.StillOpen? || v.CoverageLost? || v.NoInterruption?)
      && (v.CoverageLost? ==> truncated) && (v.NoInterruption? ==> !truncated)
  {
    hide Period;
  }

  // ----- The closing write -----

  lemma InFlightOf(before: Keyed<real>, after: Keyed<real>)
    requires before.key < after.key
    ensures InFlightFraction(before, after) * (after.key - before.key) ==
            (if after.value > after.key then 0.0 else if after.value < before.key then after.key - before.key
             else after.key - after.value)
    ensures InFlightFraction(before, after) >= 0.5 <==> 2.0 * after.value <= before.key + after.key
  {
    var duration := after.key - before.key;
    var start := if after.value >= before.key then after.value else before.key;
    var overlap := if after.key - start > 0.0 then after.key - start else 0.0;
    HalfOf(overlap, duration);
    ShareOfWhole(overlap, duration);
  }

  lemma ShareOfWhole(x: real, d: real)
    requires d > 0.0 && 0.0 <= x <= d
    ensures (x / d) * d == x && (x < d ==> x / d < 1.0) && (x == d ==> x / d == 1.0)
  {
    var f := x / d;
    assert f * d == x;
    if f >= 1.0 {
      NonNegativeProduct(f - 1.0, d);
      assert (f - 1.0) * d == x - d;
    }
    if f <= 1.0 {
      NonNegativeProduct(1.0 - f, d);
      assert (1.0 - f) * d == d - x;
    }
    if x == d {
      assert (f - 1.0) * d == 0.0;
    }
  }

  /** Of the write that closed a reported outage (the first recorded of those served when it ended), the
      report gives the part of the outage it was in flight for, and whether that was at least half: whether
      it was dispatched by the middle of the outage. */
  lemma InFlightMeans(attempts: seq<Attempt>, fault: real, end: Option<real>) returns (q: int)
    requires MeasureRto(attempts, fault, end).verdict.Interrupted?
    ensures var o := MeasureRto(attempts, fault, end).verdict;
      && FirstServedAt(attempts, q, o.ended)
      && var sent := attempts[q].dispatch;
         && o.inFlightFraction * o.duration ==
            (if sent > o.ended then 0.0 else if sent < o.started then o.duration else o.ended - sent)
         && (o.closedInFlight <==> 2.0 * sent <= o.started + o.ended)
  {
    hide *;
    InterruptedUnless(attempts, fault, end);
    OutageIsAGap(attempts, fault, end);
    var i := OutageOf(Completions(attempts), fault).value;
    q := ClosingWrite(attempts, i);
    var r := Sort(Served(attempts));
    VerdictIsOutage(attempts, fault, end);
    InFlightFieldsAre(r, Completions(attempts), fault, i);
    InFlightOf(r[i], r[i + 1]);
    FirstIsInside(attempts, q, Completions(attempts)[i + 1]);
  }

  lemma FirstIsInside(attempts: seq<Attempt>, q: int, t: real)
    requires FirstServedAt(attempts, q, t)
    ensures 0 <= q < |attempts|
  {
  }

  lemma OutageIsAGap(attempts: seq<Attempt>, fault: real, end: Option<real>)
    requires MeasureRto(attempts, fault, end).verdict.Interrupted?
    ensures var times, o := Completions(attempts), MeasureRto(attempts, fault, end).verdict;
      var i := OutageOf(times, fault);
      && i.Some? && i.value + 1 < |times| && o.started == times[i.value] && o.ended == times[i.value + 1]
      && o.duration == o.ended - o.started > 0.0
  {
    hide MeasureRto, Completions, NoiseFloor, Longest, Ascending, Silence, Period;
    InterruptedMeans(attempts, fault, end);
    OutageIsASilence(attempts, fault, end);
    CompletionsAscending(attempts);
    FloorNonNegative(Completions(attempts), fault);
  }

  lemma InFlightFieldsAre(records: seq<Keyed<real>>, times: seq<real>, fault: real, i: nat)
    requires i + 1 < |times| == |records|
    ensures var o, f := JudgeOutage(records, times, fault, i), InFlightFraction(records[i], records[i + 1]);
      o.Interrupted? && o.inFlightFraction == f && (o.closedInFlight <==> f >= 0.5)
  {
    JudgedBy(records, times, fault, i);
    hide InFlightFraction, LateGaps, NoiseFloor, HealthyGaps, TailAttribution, Over, JudgeOutage;
  }

  // ----- Qualifying gaps -----

  /** The gaps that close at or after the fault and exceed the floor. */
  ghost function Qualifying(times: seq<real>, fault: real, floor: real): set<int> {
    set i | 0 <= i < |times| - 1 && Qualifies(times, fault, floor, i)
  }

  lemma {:induction false} LateGapsAppend(s: seq<real>, x: real, fault: real)
    requires s != []
    ensures LateGaps(s + [x], fault) == LateGaps(s, fault) + if x >= fault then [x - s[|s| - 1]] else []
  {
    hide *;
    SplitUnfold(s + [x], fault);
    assert (s + [x])[1..] == s[1..] + [x];
    if |s| == 1 {
      OneLateless(s, fault);
      OneLateless([x], fault);
      assert s[1..] + [x] == [x];
    } else {
      LateGapsAppend(s[1..], x, fault);
      SplitUnfold(s, fault);
    }
  }

  lemma OneLateless(s: seq<real>, fault: real)
    requires |s| == 1
    ensures LateGaps(s, fault) == []
  {
  }

  lemma OverAppend(s: seq<real>, x: real, v: real)
    ensures Over(s + [x], v) == Over(s, v) + if x > v then 1 else 0
  {
    CountSplit(s, [x], v);
    assert [x][1..] == [];
  }

  lemma QualifyingAppend(s: seq<real>, x: real, fault: real, floor: real)
    requires s != []
    ensures |Qualifying(s + [x], fault, floor)|
         == |Qualifying(s, fault, floor)| + if x >= fault && x - s[|s| - 1] > floor then 1 else 0
  {
    var n, t := |s| - 1, s + [x];
    assert forall i | 0 <= i < n :: Qualifies(t, fault, floor, i) == Qualifies(s, fault, floor, i);
    if x >= fault && x - s[n] > floor {
      assert Qualifies(t, fault, floor, n);
      assert Qualifying(t, fault, floor) == Qualifying(s, fault, floor) + {n};
    } else {
      assert Qualifying(t, fault, floor) == Qualifying(s, fault, floor);
    }
  }

  lemma NoneQualify(s: seq<real>, fault: real, floor: real)
    requires |s| < 2
    ensures |Qualifying(s, fault, floor)| == 0 && Over(LateGaps(s, fault), floor) == 0
  {
    assert Qualifying(s, fault, floor) == {};
  }

  lemma {:induction false} QualifyingAre(times: seq<real>, fault: real, floor: real)
    ensures Over(LateGaps(times, fault), floor) == |Qualifying(times, fault, floor)|
  {
    if |times| < 2 {
      NoneQualify(times, fault, floor);
    } else {
      hide *;
      var s, x := times[..|times| - 1], times[|times| - 1];
      assert times == s + [x];
      QualifyingAre(s, fault, floor);
      LateGapsAppend(s, x, fault);
      QualifyingAppend(s, x, fault, floor);
      if x >= fault {
        OverAppend(LateGaps(s, fault), x - s[|s| - 1], floor);
      } else {
        assert LateGaps(s, fault) + [] == LateGaps(s, fault);
      }
    }
  }

  /** The report counts the gaps that close at or after the fault and exceed the floor. */
  lemma QualifyingCount(attempts: seq<Attempt>, fault: real, end: Option<real>)
    requires MeasureRto(attempts, fault, end).verdict.Interrupted?
    ensures var times := Completions(attempts);
      MeasureRto(attempts, fault, end).verdict.qualifying == |Qualifying(times, fault, NoiseFloor(times, fault))|
  {
    hide *;
    VerdictAttribution(attempts, fault, end);
    QualifyingAre(Completions(attempts), fault, NoiseFloor(Completions(attempts), fault));
  }
}
