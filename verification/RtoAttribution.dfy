/** When a gap above the floor is offered as a recovery time, and what a run that fell silent reports. */
module RtoAttribution {
  import opened Options
  import opened Ordering
  import opened Quantiles
  import opened RtoAnalysis
  import opened RtoOutage
  import opened RtoInvariance
  import opened RtoOpenOutage

  lemma {:induction false} SomeOver(s: seq<real>, v: real, i: nat)
    requires i < |s| && s[i] > v
    ensures Over(s, v) >= 1
  {
    if i > 0 {
      SomeOver(s[1..], v, i - 1);
    }
  }

  lemma {:induction false} LateHas(times: seq<real>, fault: real, i: nat) returns (k: nat)
    requires i + 1 < |times| && times[i + 1] >= fault
    ensures k < |LateGaps(times, fault)| && LateGaps(times, fault)[k] == Gap(times, i)
  {
    LateUnfold(times, fault);
    hide LateGaps;
    if i == 0 {
      k := 0;
    } else {
      var j := LateHas(times[1..], fault, i - 1);
      k := if times[1] >= fault then j + 1 else j;
    }
  }

  lemma LateUnfold(times: seq<real>, fault: real)
    requires |times| >= 2
    ensures LateGaps(times, fault) == (if times[1] >= fault then [times[1] - times[0]] else []) + LateGaps(times[1..], fault)
  {
  }

  lemma AtMostFivePercent(s: seq<real>, v: real)
    requires Quantile(s, 0.95) == Some(v)
    ensures 20 * Over(s, v) <= |s|
  {
    QuantileCovers(s, 0.95, v);
  }

  lemma ReferenceWithinFloor(times: seq<real>, fault: real, v: real)
    requires Ascending(times) && Quantile(HealthyGaps(times, fault), 0.95) == Some(v)
    ensures v <= NoiseFloor(times, fault)
  {
    QuantileCovers(HealthyGaps(times, fault), 0.95, v);
    FloorNonNegative(times, fault);
  }

  lemma QualifyingAreExceedances(times: seq<real>, fault: real, v: real, i: nat)
    requires Ascending(times) && Quantile(HealthyGaps(times, fault), 0.95) == Some(v)
    requires i + 1 < |times| && Qualifies(times, fault, NoiseFloor(times, fault), i)
    ensures var late := LateGaps(times, fault); 1 <= Over(late, NoiseFloor(times, fault)) <= Over(late, v)
  {
    var late := LateGaps(times, fault);
    ReferenceWithinFloor(times, fault, v);
    hide NoiseFloor, LateGaps, HealthyGaps, Quantile;
    CountLeMonotone(late, v, NoiseFloor(times, fault));
    var k := LateHas(times, fault, i);
    SomeOver(late, NoiseFloor(times, fault), k);
  }

  lemma RatioOf(preOver: nat, pre: nat, postOver: nat, post: nat)
    requires pre > 0 && post > 0 && preOver > 0
    ensures var a, b := preOver as real / pre as real, postOver as real / post as real;
            a > 0.0 && (b / a >= 1.5 <==> 2 * postOver * pre >= 3 * preOver * post)
  {
    var a, b := preOver as real / pre as real, postOver as real / post as real;
    var p, q := pre as real, post as real;
    assert a * p == preOver as real && b * q == postOver as real;
    assert (b / a) * a == b;
    if b / a >= 1.5 {
      assert (b / a - 1.5) * a >= 0.0;
      assert b >= 1.5 * a;
      Scale(b, 1.5 * a, p * q);
      assert b * (p * q) == postOver as real * p && 1.5 * a * (p * q) == 1.5 * preOver as real * q;
    } else {
      assert (1.5 - b / a) * a > 0.0;
      assert b < 1.5 * a;
      Scale(1.5 * a, b, p * q);
      assert b * (p * q) == postOver as real * p && 1.5 * a * (p * q) == 1.5 * preOver as real * q;
    }
  }

  lemma Scale(x: real, y: real, k: real)
    requires x >= y && k > 0.0
    ensures x * k >= y * k
    ensures x > y ==> x * k > y * k
  {
    assert (x - y) * k >= 0.0;
    if x > y {
      assert (x - y) * k > 0.0;
    }
  }

  lemma VerdictAttribution(attempts: seq<Attempt>, fault: real, end: Option<real>)
    requires MeasureRto(attempts, fault, end).verdict.Interrupted?
    ensures var times, o := Completions(attempts), MeasureRto(attempts, fault, end).verdict;
            && o.attribution == TailAttribution(HealthyGaps(times, fault), LateGaps(times, fault))
            && o.qualifying == Over(LateGaps(times, fault), NoiseFloor(times, fault))
            && o.attributable == (o.attribution.Untestable? || o.attribution.heavier)
            && o.attributable == o.quotable.Some?
  {
    hide Completions, HealthyGaps, LateGaps, NoiseFloor, LastCompletion, CoverageTruncated, InFlightFraction, TailAttribution;
  }

  /** The exceedances of a report: gaps longer than the healthy 95th percentile. */
  ghost predicate Counts(t: Attribution, healthy: seq<real>, late: seq<real>)
    requires t.Tested? && healthy != []
  {
    var v := Quantile(healthy, 0.95).value;
    && t.reference == v && t.preGaps == |healthy| && t.postGaps == |late|
    && t.preOver == Over(healthy, v) && t.postOver == Over(late, v)
  }

  /** Gap i is the first of the longest that close at or after the fault and exceed the floor. */
  ghost predicate LongestQualifying(times: seq<real>, fault: real, i: int) {
    && 0 <= i < |times| - 1 && Qualifies(times, fault, NoiseFloor(times, fault), i)
    && forall j | 0 <= j < |times| - 1 && Qualifies(times, fault, NoiseFloor(times, fault), j) ::
         Gap(times, j) <= Gap(times, i) && (j < i ==> Gap(times, j) < Gap(times, i))
  }

  lemma {:induction false} LongestIsFirst(times: seq<real>, fault: real, floor: real, n: nat, j: nat)
    requires n < |times| && Longest(times, fault, floor, n).Some? && j < Longest(times, fault, floor, n).value
    requires Qualifies(times, fault, floor, j)
    ensures Gap(times, j) < Gap(times, Longest(times, fault, floor, n).value)
  {
    var best := Longest(times, fault, floor, n - 1);
    if Longest(times, fault, floor, n) != best {
      LongestIsLongest(times, fault, floor, n - 1, j);
    } else {
      LongestIsFirst(times, fault, floor, n - 1, j);
    }
  }

  lemma OutageOfIsLongest(times: seq<real>, fault: real)
    requires OutageOf(times, fault).Some?
    ensures LongestQualifying(times, fault, OutageOf(times, fault).value)
  {
    hide NoiseFloor, Longest;
    var i, floor := OutageOf(times, fault).value, NoiseFloor(times, fault);
    forall j | 0 <= j < |times| - 1 && Qualifies(times, fault, floor, j)
      ensures Gap(times, j) <= Gap(times, i) && (j < i ==> Gap(times, j) < Gap(times, i))
    {
      LongestIsLongest(times, fault, floor, |times| - 1, j);
      if j < i {
        LongestIsFirst(times, fault, floor, |times| - 1, j);
      }
    }
  }

  /** What is offered is when the first of the longest qualifying gaps ended, less the fault. */
  ghost predicate OffersItsEnd(times: seq<real>, fault: real, o: Verdict)
    requires o.Interrupted?
  {
    exists i :: LongestQualifying(times, fault, i) && o.started == times[i] && o.ended == times[i + 1] &&
      o.quotable == (if o.attributable then Some(times[i + 1] - fault) else None)
  }

  lemma OfferIs(attempts: seq<Attempt>, fault: real, end: Option<real>)
    requires MeasureRto(attempts, fault, end).verdict.Interrupted?
    ensures OffersItsEnd(Completions(attempts), fault, MeasureRto(attempts, fault, end).verdict)
  {
    hide MeasureRto, Completions, NoiseFloor, Longest, LongestQualifying;
    InterruptedMeans(attempts, fault, end);
    OutageOfIsLongest(Completions(attempts), fault);
    VerdictOffer(attempts, fault, end);
    var i := OutageOf(Completions(attempts), fault).value;
    assert LongestQualifying(Completions(attempts), fault, i);
  }

  lemma VerdictOffer(attempts: seq<Attempt>, fault: real, end: Option<real>)
    requires MeasureRto(attempts, fault, end).verdict.Interrupted?
    ensures var o := MeasureRto(attempts, fault, end).verdict;
      o.quotable == if o.attributable then Some(o.ended - fault) else None
  {
    hide *;
    OutageExists(attempts, fault, end);
    VerdictIsOutage(attempts, fault, end);
    OutageOffer(Sort(Served(attempts)), Completions(attempts), fault, OutageOf(Completions(attempts), fault).value);
  }

  lemma OutageExists(attempts: seq<Attempt>, fault: real, end: Option<real>)
    requires MeasureRto(attempts, fault, end).verdict.Interrupted?
    ensures OutageOf(Completions(attempts), fault).Some?
  {
    hide MeasureRto, Completions, NoiseFloor, Longest, OutageOf;
    InterruptedMeans(attempts, fault, end);
  }

  lemma OutageOffer(records: seq<Keyed<real>>, times: seq<real>, fault: real, i: nat)
    requires i + 1 < |times| == |records|
    ensures var o := JudgeOutage(records, times, fault, i);
      o.Interrupted? && o.quotable == if o.attributable then Some(o.ended - fault) else None
  {
    hide *;
    JudgedBy(records, times, fault, i);
    var late := LateGaps(times, fault);
    OfferOf(times[i], times[i + 1], fault, InFlightFraction(records[i], records[i + 1]),
            Over(late, NoiseFloor(times, fault)), TailAttribution(HealthyGaps(times, fault), late));
  }

  lemma OfferOf(started: real, ended: real, fault: real, fraction: real, qualifying: nat, attribution: Attribution)
    ensures var o := OutageVerdict(started, ended, fault, fraction, qualifying, attribution);
      o.Interrupted? && o.quotable == if o.attributable then Some(o.ended - fault) else None
  {
  }

  /** An interruption is tested exactly when 20 healthy gaps closed before the fault, and otherwise offered
      as it is. In a tested report the exceedances are those gaps, before the fault and after it, beyond the
      healthy 95th percentile: at most 5% of the healthy ones, and every qualifying gap. The outage is
      offered as a recovery time exactly when they became at least 1.5 times as frequent, with some before
      the fault; the time offered is that from the fault to the end of the longest qualifying gap. */
  lemma AttributionMeans(attempts: seq<Attempt>, fault: real, end: Option<real>)
    requires MeasureRto(attempts, fault, end).verdict.Interrupted?
    ensures var o := MeasureRto(attempts, fault, end).verdict;
            && o.attributable == o.quotable.Some? && OffersItsEnd(Completions(attempts), fault, o)
            && (o.attribution.Untestable? <==> |HealthyGaps(Completions(attempts), fault)| < 20)
            && (o.attribution.Untestable? ==> o.attributable)
            && (o.attribution.Tested? ==>
                  var t, times := o.attribution, Completions(attempts);
                  && Counts(t, HealthyGaps(times, fault), LateGaps(times, fault))
                  && 20 * t.preOver <= t.preGaps
                  && 1 <= o.qualifying <= t.postOver
                  && (o.attributable <==> t.preOver > 0 && 2 * t.postOver * t.preGaps >= 3 * t.preOver * t.postGaps))
  {
    OfferIs(attempts, fault, end);
    hide MeasureRto, Completions, HealthyGaps, LateGaps, NoiseFloor, TailAttribution, Counts, OffersItsEnd;
    var times := Completions(attempts);
    assert Ascending(times) by {
      CompletionsAscending(attempts);
    }
    InterruptedMeans(attempts, fault, end);
    VerdictAttribution(attempts, fault, end);
    AttributionOf(times, fault, OutageOf(times, fault).value, HealthyGaps(times, fault), LateGaps(times, fault));
  }

  lemma CountsOf(healthy: seq<real>, late: seq<real>)
    ensures var t := TailAttribution(healthy, late);
      && (t.Untestable? <==> |healthy| < 20 || late == [])
      && (t.Tested? ==> Counts(t, healthy, late))
  {
    hide Over, SortReals;
  }

  lemma AttributionOf(times: seq<real>, fault: real, i: nat, healthy: seq<real>, late: seq<real>)
    requires Ascending(times) && healthy == HealthyGaps(times, fault) && late == LateGaps(times, fault)
    requires i + 1 < |times| && Qualifies(times, fault, NoiseFloor(times, fault), i)
    ensures var t := TailAttribution(healthy, late);
            && (t.Untestable? <==> |healthy| < 20)
            && (t.Tested? ==>
                  && Counts(t, healthy, late)
                  && 20 * t.preOver <= t.preGaps
                  && 1 <= Over(late, NoiseFloor(times, fault)) <= t.postOver
                  && (t.heavier <==> t.preOver > 0 && 2 * t.postOver * t.preGaps >= 3 * t.preOver * t.postGaps))
  {
    hide NoiseFloor, HealthyGaps, LateGaps, Ascending;
    var t := TailAttribution(healthy, late);
    var k := LateHas(times, fault, i);
    CountsOf(healthy, late);
    if t.Tested? {
      var v := t.reference;
      assert Quantile(healthy, 0.95) == Some(v);
      AtMostFivePercent(healthy, v);
      QualifyingAreExceedances(times, fault, v, i);
      hide Quantile, Over, Qualifies;
      if t.preOver > 0 {
        RatioOf(t.preOver, t.preGaps, t.postOver, t.postGaps);
      }
    }
  }

  /** The rates of a tested report: the exceedances expected after the fault at the rate before it, and by
      what factor they became more frequent, when there were any before. */
  lemma RatesMean(healthy: seq<real>, late: seq<real>)
    requires TailAttribution(healthy, late).Tested?
    ensures var t := TailAttribution(healthy, late);
      && t.expected * t.preGaps as real == t.preOver as real * t.postGaps as real
      && (t.ratio.Some? <==> t.preOver > 0)
      && (t.ratio.Some? ==> t.ratio.value * (t.preOver * t.postGaps) as real == (t.postOver * t.preGaps) as real)
  {
    hide Over, Quantile;
    var t := TailAttribution(healthy, late);
    RatesOf(t.preOver, t.preGaps, t.postOver, t.postGaps);
  }

  lemma RatesOf(preOver: nat, pre: nat, postOver: nat, post: nat)
    requires pre > 0 && post > 0
    ensures var a, b := preOver as real / pre as real, postOver as real / post as real;
      && a * post as real * pre as real == preOver as real * post as real
      && (a > 0.0 <==> preOver > 0)
      && (a > 0.0 ==> (b / a) * (preOver * post) as real == (postOver * pre) as real)
  {
    var p, q := pre as real, post as real;
    var a, b := preOver as real / p, postOver as real / q;
    assert a * p == preOver as real && b * q == postOver as real;
    if a > 0.0 {
      var c := b / a;
      assert c * a == b;
      assert (preOver * post) as real == a * p * q && (postOver * pre) as real == b * q * p;
      assert c * (a * p * q) == (c * a) * p * q;
    }
  }

  // ----- A run in which service stopped for good -----

  lemma {:induction false} NothingQualifies(times: seq<real>, fault: real, floor: real, n: nat)
    requires n < |times| && forall i | 0 <= i < |times| :: times[i] < fault
    ensures Longest(times, fault, floor, n).None?
  {
    if n > 0 {
      NothingQualifies(times, fault, floor, n - 1);
    }
  }

  /** When no write was served at or after the fault, the report never says so: it either blames the
      probe's coverage or claims that no interruption was detectable, the latter exactly when the
      attempts themselves, failed ones included, reach close enough to the end of the run. */
  lemma SilentAfterFault(attempts: seq<Attempt>, fault: real, end: Option<real>)
    requires var times := Completions(attempts); |times| >= 2 && forall i | 0 <= i < |times| :: times[i] < fault
    ensures MeasureRto(attempts, fault, end).verdict
         == if CoverageTruncated(Completions(attempts), LastCompletion(attempts), fault, end) then CoverageLost else NoInterruption
  {
    hide Completions, NoiseFloor, LastCompletion, CoverageTruncated, Longest, JudgeOutage, Resolution, FirstFailure,
      FirstServedAfter, CountLt, Sort, Served;
    var times := Completions(attempts);
    NothingQualifies(times, fault, NoiseFloor(times, fault), |times| - 1);
  }

  const FIRST := Attempt(1, 0.0, 1.0, Ok, 0)
  const SECOND := Attempt(2, 1.0, 2.0, Ok, 0)
  const HANGING := Attempt(3, 2.0, 63.0, Timeout, 0)

  lemma DeadClusterServed()
    ensures Served([FIRST, SECOND, HANGING]) == [Keyed(1.0, 0.0), Keyed(2.0, 1.0)]
    ensures LastCompletion([FIRST, SECOND, HANGING]) == Some(63.0)
  {
    assert [FIRST, SECOND, HANGING][1..] == [SECOND, HANGING] && [SECOND, HANGING][1..] == [HANGING];
    assert Served([HANGING]) == [] && LastCompletion([HANGING]) == Some(63.0);
    assert Served([SECOND, HANGING]) == [Keyed(2.0, 1.0)] && LastCompletion([SECOND, HANGING]) == Some(63.0);
  }

  lemma DeadClusterTimes()
    ensures Completions([FIRST, SECOND, HANGING]) == [1.0, 2.0]
  {
    DeadClusterServed();
    var keys := Keys(Served([FIRST, SECOND, HANGING]));
    assert keys == [1.0, 2.0];
    hide *;
    assert Ascending([1.0, 2.0]) by {
      TwoAscending();
    }
    SortRealsAscending(keys);
    AscendingUnique(SortReals(keys), keys);
    CompletionsOf([FIRST, SECOND, HANGING]);
  }

  lemma TwoAscending()
    ensures Ascending([1.0, 2.0])
  {
  }

  lemma CompletionsOf(attempts: seq<Attempt>)
    ensures Completions(attempts) == SortReals(Keys(Served(attempts)))
  {
  }

  /** One such run: two served writes, then a write that times out a minute after the fault, at the
      very end of the run. It is reported as measurable, with no interruption detectable. */
  lemma DeadClusterReadsAsNoInterruption()
    ensures MeasureRto([FIRST, SECOND, HANGING], 3.0, Some(63.0)).verdict.NoInterruption?
  {
    var run := [FIRST, SECOND, HANGING];
    DeadClusterTimes();
    DeadClusterServed();
    CompletionsAscending(run);
    hide MeasureRto, Completions, Period, LastCompletion, Ascending, NoiseFloor, Served;
    FloorNonNegative([1.0, 2.0], 3.0);
    SilentAfterFault(run, 3.0, Some(63.0));
  }
}
