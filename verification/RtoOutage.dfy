/** The reported outage is the longest silence of the served span that ends after the fault. */
module RtoOutage {
  import opened Options
  import opened Ordering
  import opened Quantiles
  import opened RtoAnalysis

  // ----- Silences -----

  /** [u, v] lies within the served span and no served write completes strictly inside it. */
  ghost predicate Silence(times: seq<real>, u: real, v: real) {
    && times != []
    && times[0] <= u <= v <= times[|times| - 1]
    && forall i | 0 <= i < |times| :: !(u < times[i] < v)
  }

  /** A silence of positive length lies inside one gap. */
  lemma {:induction false} SilenceInsideGap(times: seq<real>, u: real, v: real) returns (i: nat)
    requires Ascending(times) && Silence(times, u, v) && u < v
    ensures i + 1 < |times| && times[i] <= u && v <= times[i + 1]
  {
    if |times| == 1 {
      assert false;
    } else if times[1] <= u {
      var rest := times[1..];
      assert rest[|rest| - 1] == times[|times| - 1];
      var j := SilenceInsideGap(rest, u, v);
      i := j + 1;
    } else {
      assert !(u < times[1] < v);
      i := 0;
    }
  }

  lemma {:induction false} HealthyHas(times: seq<real>, fault: real, i: nat)
    requires i + 1 < |times| && times[i + 1] < fault
    ensures Gap(times, i) in HealthyGaps(times, fault)
  {
    if i == 0 {
    } else {
      HealthyHas(times[1..], fault, i - 1);
    }
  }

  lemma {:induction false} GapsNonNegative(times: seq<real>, fault: real)
    requires Ascending(times)
    ensures forall x | x in HealthyGaps(times, fault) :: x >= 0.0
    ensures forall x | x in Gaps(times) :: x >= 0.0
  {
    if |times| < 2 {
    } else {
      assert times[0] <= times[1];
      GapsNonNegative(times[1..], fault);
    }
  }

  lemma QuantileNonNegative(values: seq<real>, q: real)
    requires 0.0 <= q <= 1.0 && forall x | x in values :: x >= 0.0
    ensures Quantile(values, q).Or(0.0) >= 0.0
  {
    var v := Quantile(values, q);
    if v.Some? {
      QuantileCovers(values, q, v.value);
    }
  }

  lemma FloorNonNegative(times: seq<real>, fault: real)
    requires Ascending(times)
    ensures Period(times, fault) >= 0.0 && NoiseFloor(times, fault) >= 0.0
  {
    GapsNonNegative(times, fault);
    QuantileNonNegative(HealthyGaps(times, fault), 0.95);
    QuantileNonNegative(Gaps(times), 0.95);
  }

  /** The floor is at least every gap that closed before the fault. */
  lemma FloorAboveHealthyGaps(times: seq<real>, fault: real, i: nat)
    requires Ascending(times) && i + 1 < |times| && times[i + 1] < fault
    ensures Gap(times, i) <= NoiseFloor(times, fault)
  {
    HealthyHas(times, fault, i);
    FloorNonNegative(times, fault);
  }

  lemma CompletionsAscending(attempts: seq<Attempt>)
    ensures Ascending(Completions(attempts))
  {
    SortRealsAscending(Keys(Served(attempts)));
  }

  function OutageOf(times: seq<real>, fault: real): (r: Option<nat>)
    ensures r.Some? ==> r.value + 1 < |times|
  {
    if |times| < 2 then None else Longest(times, fault, NoiseFloor(times, fault), |times| - 1)
  }

  lemma SilenceAgainst(times: seq<real>, fault: real, floor: real, u: real, v: real)
    requires Ascending(times) && Silence(times, u, v) && v >= fault && |times| >= 2 && floor >= 0.0
    ensures var o := Longest(times, fault, floor, |times| - 1);
            v - u <= if o.Some? then Gap(times, o.value) else floor
  {
    if u < v {
      var i := SilenceInsideGap(times, u, v);
      hide Ascending, Silence, Longest;
      assert v - u <= Gap(times, i) && times[i + 1] >= fault;
      if Qualifies(times, fault, floor, i) {
        LongestIsLongest(times, fault, floor, |times| - 1, i);
      }
    }
  }

  lemma SilenceBound(times: seq<real>, fault: real, u: real, v: real)
    requires Ascending(times) && Silence(times, u, v) && v >= fault && |times| >= 2
    ensures var o := OutageOf(times, fault);
            v - u <= if o.Some? then Gap(times, o.value) else NoiseFloor(times, fault)
  {
    hide NoiseFloor, Longest, Silence, Ascending;
    FloorNonNegative(times, fault);
    SilenceAgainst(times, fault, NoiseFloor(times, fault), u, v);
  }

  lemma {:induction false} LongestQualifies(times: seq<real>, fault: real, floor: real, n: nat)
    requires n < |times|
    ensures Longest(times, fault, floor, n).None? <==> forall i | 0 <= i < n :: !Qualifies(times, fault, floor, i)
  {
    if n > 0 {
      LongestQualifies(times, fault, floor, n - 1);
    }
  }

  lemma OutageOfIff(times: seq<real>, fault: real)
    ensures OutageOf(times, fault).Some? <==>
            exists i :: 0 <= i < |times| - 1 && Qualifies(times, fault, NoiseFloor(times, fault), i)
  {
    hide NoiseFloor, Longest;
    if |times| >= 2 {
      LongestQualifies(times, fault, NoiseFloor(times, fault), |times| - 1);
    }
  }

  /** The verdict reports an interruption exactly when some gap qualifies, and then it is the longest. */
  lemma InterruptedMeans(attempts: seq<Attempt>, fault: real, end: Option<real>)
    ensures var times, verdict := Completions(attempts), MeasureRto(attempts, fault, end).verdict;
            var o := OutageOf(times, fault);
            && (verdict.Interrupted? <==> o.Some?)
            && (o.Some? <==> exists i :: 0 <= i < |times| - 1 && Qualifies(times, fault, NoiseFloor(times, fault), i))
            && (o.Some? ==>
                  && verdict.started == times[o.value] && verdict.ended == times[o.value + 1]
                  && verdict.duration == Gap(times, o.value) && verdict.rto == verdict.ended - fault)
  {
    hide Completions, NoiseFloor, CoverageTruncated, LastCompletion, TailAttribution, LateGaps, InFlightFraction;
    OutageOfIff(Completions(attempts), fault);
  }

  /** No silence of the served span that ends at or after the fault is longer than the reported
      outage; when none is reported, every such silence is within the noise floor. */
  lemma OutageIsLongestSilence(attempts: seq<Attempt>, fault: real, end: Option<real>, u: real, v: real)
    requires Silence(Completions(attempts), u, v) && v >= fault && |Completions(attempts)| >= 2
    ensures var times, verdict := Completions(attempts), MeasureRto(attempts, fault, end).verdict;
            v - u <= if verdict.Interrupted? then verdict.duration else NoiseFloor(times, fault)
  {
    hide MeasureRto, NoiseFloor, Silence;
    CompletionsAscending(attempts);
    InterruptedMeans(attempts, fault, end);
    SilenceBound(Completions(attempts), fault, u, v);
  }

  lemma GapIsSilence(times: seq<real>, i: nat)
    requires Ascending(times) && i + 1 < |times|
    ensures Silence(times, times[i], times[i + 1])
  {
    forall j | 0 <= j < |times| ensures !(times[i] < times[j] < times[i + 1]) {
      assert j <= i ==> times[j] <= times[i];
      assert j > i ==> times[i + 1] <= times[j];
    }
  }

  /** The reported outage is itself a silence: it opens and closes with served writes, ends at or
      after the fault, and is longer than the noise floor. */
  lemma OutageIsASilence(attempts: seq<Attempt>, fault: real, end: Option<real>)
    requires MeasureRto(attempts, fault, end).verdict.Interrupted?
    ensures var times, o := Completions(attempts), MeasureRto(attempts, fault, end).verdict;
            && Silence(times, o.started, o.ended)
            && o.duration == o.ended - o.started > NoiseFloor(times, fault)
            && o.rto == o.ended - fault >= 0.0
  {
    hide MeasureRto, NoiseFloor, Silence;
    CompletionsAscending(attempts);
    InterruptedMeans(attempts, fault, end);
    var times := Completions(attempts);
    GapIsSilence(times, OutageOf(times, fault).value);
  }

  lemma HalfOf(x: real, d: real)
    requires d > 0.0
    ensures x / d >= 0.5 <==> 2.0 * x >= d
  {
    var f := x / d;
    assert f * d == x;
    if f >= 0.5 {
      assert (f - 0.5) * d >= 0.0;
    } else {
      assert (0.5 - f) * d > 0.0;
    }
  }

  lemma FractionOf(x: real, d: real)
    requires d > 0.0 && 0.0 <= x
    ensures x / d >= 0.0
  {
  }

  /** A write that closes a gap was in flight for between none and all of it, and for at least half of it
      exactly when it was dispatched by the middle of the gap. */
  lemma InFlightIff(before: Keyed<real>, after: Keyed<real>)
    requires before.key < after.key && after.value <= after.key
    ensures 0.0 <= InFlightFraction(before, after) <= 1.0
    ensures InFlightFraction(before, after) >= 0.5 <==> 2.0 * after.value <= before.key + after.key
  {
    var start := if after.value >= before.key then after.value else before.key;
    HalfOf(after.key - start, after.key - before.key);
    FractionOf(after.key - start, after.key - before.key);
  }
}
