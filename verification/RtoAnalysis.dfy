/** How the probe's attempts become a recovery time: gaps between served writes, a noise floor
    taken from the healthy part of the run, and a verdict on the longest gap above it. */
module RtoAnalysis {
  import opened Options
  import opened Ordering
  import opened Quantiles

  datatype Outcome = Ok | Timeout | ConnError | Refused

  datatype Attempt = Attempt(seqId: int, dispatch: real, complete: real, outcome: Outcome, worker: int)

  /** Served writes as (completion, dispatch), in recorded order. */
  function Served(attempts: seq<Attempt>): seq<Keyed<real>> {
    if attempts == [] then []
    else ServedOne(attempts[0]) + Served(attempts[1..])
  }

  function ServedOne(a: Attempt): seq<Keyed<real>> {
    if a.outcome.Ok? then [Keyed(a.complete, a.dispatch)] else []
  }

  lemma {:induction false} ServedAppend(a: seq<Attempt>, b: seq<Attempt>)
    ensures Served(a + b) == Served(a) + Served(b)
  {
    if a == [] {
      assert a + b == b;
    } else {
      assert (a + b)[1..] == a[1..] + b;
      ServedAppend(a[1..], b);
    }
  }

  /** Completion times of the served writes, ascending. */
  function Completions(attempts: seq<Attempt>): seq<real> {
    SortReals(Keys(Served(attempts)))
  }

  function Gaps(times: seq<real>): (r: seq<real>)
    ensures |r| == if times == [] then 0 else |times| - 1
    ensures forall i | 0 <= i < |r| :: r[i] == times[i + 1] - times[i]
  {
    if |times| < 2 then [] else [times[1] - times[0]] + Gaps(times[1..])
  }

  /** Gaps that closed before the fault. */
  function HealthyGaps(times: seq<real>, fault: real): seq<real> {
    if |times| < 2 then []
    else (if times[1] < fault then [times[1] - times[0]] else []) + HealthyGaps(times[1..], fault)
  }

  /** Gaps that closed at or after the fault. */
  function LateGaps(times: seq<real>, fault: real): seq<real> {
    if |times| < 2 then []
    else (if times[1] >= fault then [times[1] - times[0]] else []) + LateGaps(times[1..], fault)
  }

  // ----- Resolution and noise floor -----

  /** 95th percentile of the healthy gaps; of all gaps when that is absent or zero. */
  function Resolution(times: seq<real>, fault: real): Option<real> {
    var healthy := Quantile(HealthyGaps(times, fault), 0.95);
    if healthy.Some? && healthy.value != 0.0 then healthy else Quantile(Gaps(times), 0.95)
  }

  function Period(times: seq<real>, fault: real): real {
    Resolution(times, fault).Or(0.0)
  }

  function NoiseFloor(times: seq<real>, fault: real): real {
    var healthy := HealthyGaps(times, fault);
    if healthy != [] then MaxOf(healthy) + Period(times, fault) else 2.0 * Period(times, fault)
  }

  // ----- The outage -----

  function Gap(times: seq<real>, i: nat): real
    requires i + 1 < |times|
  {
    times[i + 1] - times[i]
  }

  predicate Qualifies(times: seq<real>, fault: real, floor: real, i: nat)
    requires i + 1 < |times|
  {
    times[i + 1] >= fault && Gap(times, i) > floor
  }

  /** The first of the longest qualifying gaps among the first n. */
  function Longest(times: seq<real>, fault: real, floor: real, n: nat): (r: Option<nat>)
    requires n < |times| || n == 0
    ensures r.Some? ==> r.value < n && Qualifies(times, fault, floor, r.value)
  {
    if n == 0 then None
    else
      var best := Longest(times, fault, floor, n - 1);
      if Qualifies(times, fault, floor, n - 1) && (best.None? || Gap(times, n - 1) > Gap(times, best.value))
      then Some(n - 1) else best
  }

  lemma {:induction false} LongestIsLongest(times: seq<real>, fault: real, floor: real, n: nat, i: nat)
    requires i < n < |times| && Qualifies(times, fault, floor, i)
    ensures var r := Longest(times, fault, floor, n); r.Some? && Gap(times, i) <= Gap(times, r.value)
  {
    if i < n - 1 {
      LongestIsLongest(times, fault, floor, n - 1, i);
    }
  }

  // ----- Tail attribution -----

  datatype Attribution =
    | Untestable
    | Tested(reference: real, preGaps: nat, postGaps: nat, preOver: nat, postOver: nat,
             expected: real, ratio: Option<real>, heavier: bool)

  function Over(s: seq<real>, v: real): nat {
    |s| - CountLe(s, v)
  }

  function TailAttribution(pre: seq<real>, post: seq<real>): Attribution {
    if |pre| < 20 || post == [] then Untestable
    else
      var reference := Quantile(pre, 0.95).Or(0.0);
      var preOver, postOver := Over(pre, reference), Over(post, reference);
      var preRate := preOver as real / |pre| as real;
      var postRate := postOver as real / |post| as real;
      var ratio := if preRate > 0.0 then Some(postRate / preRate) else None;
      Tested(reference, |pre|, |post|, preOver, postOver, preRate * |post| as real, ratio,
             ratio.Some? && ratio.value >= 1.5)
  }

  // ----- The report -----

  datatype Verdict =
    | TooFewServed
    | StillOpen(since: real, atLeast: real)
    | CoverageLost
    | NoInterruption
    | Interrupted(rto: real, started: real, ended: real, duration: real, inFlightFraction: real,
                  closedInFlight: bool, qualifying: nat, attribution: Attribution,
                  attributable: bool, quotable: Option<real>)

  datatype Report = Report(
    resolution: Option<real>,
    detectionLag: Option<real>,
    nextWriteAfterFault: Option<real>,
    servedAfter: nat,
    servedBefore: nat,
    lastObservation: Option<real>,
    observationEnd: Option<real>,
    coverageGap: Option<real>,
    coverageTruncated: Option<bool>,
    noiseFloor: Option<real>,
    verdict: Verdict)

  function Least(a: Option<real>, x: real): Option<real> {
    if a.Some? && a.value <= x then a else Some(x)
  }

  /** Completion of the earliest attempt that failed at or after the fault. */
  function FirstFailure(attempts: seq<Attempt>, fault: real): Option<real> {
    if attempts == [] then None
    else if !attempts[0].outcome.Ok? && attempts[0].complete >= fault
    then Least(FirstFailure(attempts[1..], fault), attempts[0].complete)
    else FirstFailure(attempts[1..], fault)
  }

  /** The first served completion at or after the fault. */
  function FirstServedAfter(times: seq<real>, fault: real): Option<real> {
    if times == [] then None
    else if times[0] >= fault then Some(times[0])
    else FirstServedAfter(times[1..], fault)
  }

  /** Completion of the last attempt of any outcome. */
  function LastCompletion(attempts: seq<Attempt>): Option<real> {
    if attempts == [] then None
    else
      var rest := LastCompletion(attempts[1..]);
      if rest.Some? && rest.value >= attempts[0].complete then rest else Some(attempts[0].complete)
  }

  function Minus(a: Option<real>, x: real): Option<real> {
    if a.Some? then Some(a.value - x) else None
  }

  const COVERAGE_SLACK_PERIODS := 20.0

  function CoverageGap(last: Option<real>, end: Option<real>): Option<real> {
    if end.Some? && last.Some? then Some(end.value - last.value) else None
  }

  predicate CoverageTruncated(times: seq<real>, last: Option<real>, fault: real, end: Option<real>) {
    var gap := CoverageGap(last, end);
    gap.Some? && gap.value > Period(times, fault) * COVERAGE_SLACK_PERIODS
  }

  /** How much of the gap the closing write was in flight for. */
  function InFlightFraction(before: Keyed<real>, after: Keyed<real>): real {
    var duration := after.key - before.key;
    var start := if after.value >= before.key then after.value else before.key;
    var overlap := if after.key - start > 0.0 then after.key - start else 0.0;
    if duration == 0.0 then 0.0
    else if overlap / duration < 1.0 then overlap / duration else 1.0
  }

  function OutageVerdict(started: real, ended: real, fault: real, fraction: real, qualifying: nat, attribution: Attribution): Verdict {
    var attributable := attribution.Untestable? || attribution.heavier;
    Interrupted(ended - fault, started, ended, ended - started, fraction, fraction >= 0.5, qualifying, attribution,
                attributable, if attributable then Some(ended - fault) else None)
  }

  function JudgeOutage(records: seq<Keyed<real>>, times: seq<real>, fault: real, i: nat): Verdict
    requires i + 1 < |times| == |records|
  {
    var late := LateGaps(times, fault);
    OutageVerdict(times[i], times[i + 1], fault, InFlightFraction(records[i], records[i + 1]),
                  Over(late, NoiseFloor(times, fault)), TailAttribution(HealthyGaps(times, fault), late))
  }

  /** No closed gap qualified: the last served write may open one, or the probe may have gone blind. */
  function JudgeNoOutage(lastServed: real, openGap: real, floor: real, fault: real, truncated: bool): Verdict {
    if lastServed >= fault && openGap > floor then StillOpen(lastServed, openGap)
    else if truncated then CoverageLost
    else NoInterruption
  }

  function Judge(records: seq<Keyed<real>>, times: seq<real>, last: Option<real>, fault: real, end: Option<real>): Verdict
    requires |records| == |times|
  {
    if |times| < 2 then TooFewServed
    else
      match Longest(times, fault, NoiseFloor(times, fault), |times| - 1)
      case Some(i) => JudgeOutage(records, times, fault, i)
      case None =>
        var lastServed := times[|times| - 1];
        JudgeNoOutage(lastServed, last.Or(lastServed) - lastServed, NoiseFloor(times, fault), fault,
                      CoverageTruncated(times, last, fault, end))
  }

  function Summarise(records: seq<Keyed<real>>, times: seq<real>, failure: Option<real>, last: Option<real>,
                     fault: real, end: Option<real>): Report
    requires |records| == |times|
  {
    var resolution := Resolution(times, fault);
    var gap := CoverageGap(last, end);
    Report(
      if resolution == Some(0.0) then None else resolution,
      Minus(failure, fault),
      Minus(FirstServedAfter(times, fault), fault),
      |times| - CountLt(times, fault),
      CountLt(times, fault),
      last,
      end,
      gap,
      if gap.Some? then Some(CoverageTruncated(times, last, fault, end)) else None,
      if |times| < 2 then None else Some(NoiseFloor(times, fault)),
      Judge(records, times, last, fault, end))
  }

  function MeasureRto(attempts: seq<Attempt>, fault: real, end: Option<real>): Report {
    Summarise(Sort(Served(attempts)), Completions(attempts), FirstFailure(attempts, fault),
              LastCompletion(attempts), fault, end)
  }
}
