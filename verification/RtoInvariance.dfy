/** The report does not depend on the order racing workers recorded their attempts in, and moving the
    whole run along the clock moves only its absolute times. */
module RtoInvariance {
  import opened Options
  import opened Ordering
  import opened Quantiles
  import opened RtoAnalysis

  // ----- Recording order -----

  lemma ServedOneFirst(x: Attempt, rest: seq<Attempt>)
    ensures Served([x] + rest) == ServedOne(x) + Served(rest)
  {
    assert ([x] + rest)[1..] == rest;
  }

  lemma ServedRemoveAt(a: seq<Attempt>, i: nat)
    requires i < |a|
    ensures multiset(Served(a)) == multiset(Served(a[..i] + a[i + 1..])) + multiset(ServedOne(a[i]))
  {
    hide *;
    var low, x, high := a[..i], a[i], a[i + 1..];
    assert a == low + ([x] + high);
    ServedAppend(low, [x] + high);
    ServedAppend(low, high);
    ServedOneFirst(x, high);
    assert Served(a) == Served(low) + (ServedOne(x) + Served(high));
  }

  lemma {:induction false} ServedPermutation(a: seq<Attempt>, b: seq<Attempt>)
    requires multiset(a) == multiset(b)
    ensures multiset(Served(a)) == multiset(Served(b))
  {
    if a == [] {
      assert |multiset(b)| == 0;
    } else {
      hide *;
      var i := DropPair(a, b);
      ServedPermutation(a[..0] + a[1..], b[..i] + b[i + 1..]);
      ServedRemoveAt(a, 0);
      ServedRemoveAt(b, i);
    }
  }

  predicate LateFailure(a: Attempt, fault: real) {
    !a.outcome.Ok? && a.complete >= fault
  }

  lemma {:induction false} FirstFailureIsLeast(attempts: seq<Attempt>, fault: real)
    ensures var r := FirstFailure(attempts, fault);
            && (r.Some? ==> exists a :: a in attempts && LateFailure(a, fault) && a.complete == r.value)
            && (forall a | a in attempts && LateFailure(a, fault) :: r.Some? && r.value <= a.complete)
  {
    if attempts != [] {
      FirstFailureIsLeast(attempts[1..], fault);
      assert attempts == [attempts[0]] + attempts[1..];
    }
  }

  lemma {:induction false} LastCompletionIsGreatest(attempts: seq<Attempt>)
    ensures var r := LastCompletion(attempts);
            && (r.Some? ==> exists a :: a in attempts && a.complete == r.value)
            && (forall a | a in attempts :: r.Some? && r.value >= a.complete)
  {
    if attempts != [] {
      LastCompletionIsGreatest(attempts[1..]);
      assert attempts == [attempts[0]] + attempts[1..];
    }
  }

  lemma FirstPermutation(a: seq<Attempt>, b: seq<Attempt>, fault: real)
    requires forall x :: x in a <==> x in b
    ensures FirstFailure(a, fault) == FirstFailure(b, fault)
  {
    hide FirstFailure, LateFailure;
    FirstFailureIsLeast(a, fault);
    FirstFailureIsLeast(b, fault);
  }

  lemma LastPermutation(a: seq<Attempt>, b: seq<Attempt>)
    requires forall x :: x in a <==> x in b
    ensures LastCompletion(a) == LastCompletion(b)
  {
    hide LastCompletion;
    LastCompletionIsGreatest(a);
    LastCompletionIsGreatest(b);
  }

  lemma ExtremesPermutation(a: seq<Attempt>, b: seq<Attempt>, fault: real)
    requires multiset(a) == multiset(b)
    ensures FirstFailure(a, fault) == FirstFailure(b, fault)
    ensures LastCompletion(a) == LastCompletion(b)
  {
    hide *;
    SameMembers(a, b);
    FirstPermutation(a, b, fault);
    LastPermutation(a, b);
  }

  /** The verdict without the in-flight share of the closing write. */
  function WithoutInFlight(v: Verdict): Verdict {
    if v.Interrupted? then v.(inFlightFraction := 0.0, closedInFlight := false) else v
  }

  function Anonymous(r: Report): Report {
    r.(verdict := WithoutInFlight(r.verdict))
  }

  lemma OnlyInFlightReadsRecords(r: seq<Keyed<real>>, q: seq<Keyed<real>>, times: seq<real>, failure: Option<real>,
                                 last: Option<real>, fault: real, end: Option<real>)
    requires |r| == |q| == |times|
    ensures Anonymous(Summarise(r, times, failure, last, fault, end)) == Anonymous(Summarise(q, times, failure, last, fault, end))
  {
    hide NoiseFloor, Resolution, TailAttribution, HealthyGaps, LateGaps, InFlightFraction, FirstServedAfter, CountLt, Over;
  }

  /** Two records of the same attempts give the same report, except for the in-flight share of the
      closing write; and that too when served completion times identify their writes. */
  lemma RecordingOrderIrrelevant(a: seq<Attempt>, b: seq<Attempt>, fault: real, end: Option<real>)
    requires multiset(a) == multiset(b)
    ensures Anonymous(MeasureRto(a, fault, end)) == Anonymous(MeasureRto(b, fault, end))
    ensures DistinctKeys(Served(a)) ==> MeasureRto(a, fault, end) == MeasureRto(b, fault, end)
  {
    ServedPermutation(a, b);
    KeysPermutation(Served(a), Served(b));
    SortRealsPermutation(Keys(Served(a)), Keys(Served(b)));
    ExtremesPermutation(a, b, fault);
    assert Completions(a) == Completions(b);
    if DistinctKeys(Served(a)) {
      SortPermutation(Served(a), Served(b));
    }
    hide Summarise, Anonymous, Completions, FirstFailure, LastCompletion, Served, DistinctKeys;
    OnlyInFlightReadsRecords(Sort(Served(a)), Sort(Served(b)), Completions(a), FirstFailure(a, fault), LastCompletion(a), fault, end);
  }

  // ----- Rebasing -----

  function ShiftAttempt(a: Attempt, d: real): Attempt {
    a.(dispatch := a.dispatch + d, complete := a.complete + d)
  }

  function Shift(attempts: seq<Attempt>, d: real): (r: seq<Attempt>)
    ensures |r| == |attempts| && forall i | 0 <= i < |r| :: r[i] == ShiftAttempt(attempts[i], d)
  {
    if attempts == [] then [] else [ShiftAttempt(attempts[0], d)] + Shift(attempts[1..], d)
  }

  function ShiftTime(t: Option<real>, d: real): Option<real> {
    if t.Some? then Some(t.value + d) else None
  }

  function ShiftVerdict(v: Verdict, d: real): Verdict {
    match v
    case StillOpen(since, atLeast) => StillOpen(since + d, atLeast)
    case Interrupted(_, started, ended, _, _, _, _, _, _, _) => v.(started := started + d, ended := ended + d)
    case _ => v
  }

  /** Only times quoted on the run's clock move; lags, durations, floors and judgements stay. */
  function ShiftReport(r: Report, d: real): Report {
    r.(lastObservation := ShiftTime(r.lastObservation, d),
       observationEnd := ShiftTime(r.observationEnd, d),
       verdict := ShiftVerdict(r.verdict, d))
  }

  function ShiftTimes(times: seq<real>, d: real): (r: seq<real>)
    ensures |r| == |times| && forall i | 0 <= i < |r| :: r[i] == times[i] + d
  {
    if times == [] then [] else [times[0] + d] + ShiftTimes(times[1..], d)
  }

  function ShiftRecord(x: Keyed<real>, d: real): Keyed<real> {
    Keyed(x.key + d, x.value + d)
  }

  function ShiftRecords(s: seq<Keyed<real>>, d: real): (r: seq<Keyed<real>>)
    ensures |r| == |s| && forall i | 0 <= i < |r| :: r[i] == ShiftRecord(s[i], d)
  {
    if s == [] then [] else [ShiftRecord(s[0], d)] + ShiftRecords(s[1..], d)
  }

  lemma ServedUnfold(attempts: seq<Attempt>)
    ensures attempts == [] ==> Served(attempts) == []
    ensures attempts != [] ==> Served(attempts) == ServedOne(attempts[0]) + Served(attempts[1..])
  {
    hide ServedOne;
  }

  lemma ShiftRecordsAppend(s: seq<Keyed<real>>, t: seq<Keyed<real>>, d: real)
    ensures ShiftRecords(s + t, d) == ShiftRecords(s, d) + ShiftRecords(t, d)
  {
    hide *;
  }

  lemma ServedOneShift(a: Attempt, d: real)
    ensures ServedOne(ShiftAttempt(a, d)) == ShiftRecords(ServedOne(a), d)
  {
  }

  lemma {:induction false} ServedShift(attempts: seq<Attempt>, d: real)
    ensures Served(Shift(attempts, d)) == ShiftRecords(Served(attempts), d)
  {
    hide *;
    var shifted := Shift(attempts, d);
    ServedUnfold(attempts);
    ServedUnfold(shifted);
    if attempts != [] {
      assert shifted[1..] == Shift(attempts[1..], d);
      ServedShift(attempts[1..], d);
      ServedOneShift(attempts[0], d);
      ShiftRecordsAppend(ServedOne(attempts[0]), Served(attempts[1..]), d);
    }
  }

  lemma ShiftRecordsCons(x: Keyed<real>, s: seq<Keyed<real>>, d: real)
    ensures ShiftRecords([x] + s, d) == [ShiftRecord(x, d)] + ShiftRecords(s, d)
  {
  }

  lemma {:induction false} InsertShift(x: Keyed<real>, s: seq<Keyed<real>>, d: real)
    ensures Insert(ShiftRecord(x, d), ShiftRecords(s, d)) == ShiftRecords(Insert(x, s), d)
  {
    ShiftRecordsCons(x, s, d);
    if s == [] || x.key <= s[0].key {
    } else {
      var rest := Insert(x, s[1..]);
      InsertShift(x, s[1..], d);
      ShiftRecordsCons(s[0], rest, d);
      ShiftRecordsCons(s[0], s[1..], d);
      assert s == [s[0]] + s[1..];
      assert ShiftRecords(s, d)[1..] == ShiftRecords(s[1..], d);
      assert Insert(x, s) == [s[0]] + rest;
    }
  }

  lemma {:induction false} SortShift(s: seq<Keyed<real>>, d: real)
    ensures Sort(ShiftRecords(s, d)) == ShiftRecords(Sort(s), d)
  {
    var t := ShiftRecords(s, d);
    if s != [] {
      SortShift(s[1..], d);
      assert t[1..] == ShiftRecords(s[1..], d) && t[0] == ShiftRecord(s[0], d);
      InsertShift(s[0], Sort(s[1..]), d);
      hide Insert;
    }
  }

  lemma ShiftKeys(s: seq<Keyed<real>>, d: real)
    ensures Keys(ShiftRecords(s, d)) == ShiftTimes(Keys(s), d)
  {
  }

  lemma CompletionsAreKeys(attempts: seq<Attempt>)
    ensures Completions(attempts) == Keys(Sort(Served(attempts)))
  {
    SortKeys(Served(attempts));
  }

  lemma CompletionsShift(attempts: seq<Attempt>, d: real)
    ensures Completions(Shift(attempts, d)) == ShiftTimes(Completions(attempts), d)
    ensures Sort(Served(Shift(attempts, d))) == ShiftRecords(Sort(Served(attempts)), d)
  {
    hide *;
    ServedShift(attempts, d);
    SortShift(Served(attempts), d);
    CompletionsAreKeys(attempts);
    CompletionsAreKeys(Shift(attempts, d));
    ShiftKeys(Sort(Served(attempts)), d);
  }

  lemma {:induction false} GapsShift(times: seq<real>, fault: real, d: real)
    ensures HealthyGaps(ShiftTimes(times, d), fault + d) == HealthyGaps(times, fault)
    ensures LateGaps(ShiftTimes(times, d), fault + d) == LateGaps(times, fault)
    ensures Gaps(ShiftTimes(times, d)) == Gaps(times)
  {
    if |times| >= 2 {
      GapsShift(times[1..], fault, d);
      assert ShiftTimes(times, d)[1..] == ShiftTimes(times[1..], d);
    }
  }

  lemma {:induction false} LongestShift(times: seq<real>, fault: real, floor: real, n: nat, d: real)
    requires n < |times| || n == 0
    ensures Longest(ShiftTimes(times, d), fault + d, floor, n) == Longest(times, fault, floor, n)
  {
    hide ShiftTimes;
    if n > 0 {
      LongestShift(times, fault, floor, n - 1, d);
    }
  }

  lemma {:induction false} CountShift(times: seq<real>, fault: real, d: real)
    ensures CountLt(ShiftTimes(times, d), fault + d) == CountLt(times, fault)
    ensures FirstServedAfter(ShiftTimes(times, d), fault + d) == ShiftTime(FirstServedAfter(times, fault), d)
  {
    if times != [] {
      CountShift(times[1..], fault, d);
      assert ShiftTimes(times, d)[1..] == ShiftTimes(times[1..], d);
    }
  }

  lemma {:induction false} ExtremesShift(attempts: seq<Attempt>, fault: real, d: real)
    ensures FirstFailure(Shift(attempts, d), fault + d) == ShiftTime(FirstFailure(attempts, fault), d)
    ensures LastCompletion(Shift(attempts, d)) == ShiftTime(LastCompletion(attempts), d)
  {
    if attempts != [] {
      ExtremesShift(attempts[1..], fault, d);
    }
  }

  lemma InFlightShift(before: Keyed<real>, after: Keyed<real>, d: real)
    ensures InFlightFraction(ShiftRecord(before, d), ShiftRecord(after, d))
         == InFlightFraction(before, after)
  {
    assert (after.key + d) - (before.key + d) == after.key - before.key;
    assert (after.key + d) - (after.value + d) == after.key - after.value;
  }

  lemma FloorShift(times: seq<real>, fault: real, d: real)
    ensures Resolution(ShiftTimes(times, d), fault + d) == Resolution(times, fault)
    ensures NoiseFloor(ShiftTimes(times, d), fault + d) == NoiseFloor(times, fault)
  {
    GapsShift(times, fault, d);
    hide ShiftTimes, HealthyGaps, Gaps, Quantile;
  }

  lemma CoverageShift(times: seq<real>, last: Option<real>, fault: real, end: Option<real>, d: real)
    ensures CoverageGap(ShiftTime(last, d), ShiftTime(end, d)) == CoverageGap(last, end)
    ensures CoverageTruncated(ShiftTimes(times, d), ShiftTime(last, d), fault + d, ShiftTime(end, d))
         == CoverageTruncated(times, last, fault, end)
  {
    FloorShift(times, fault, d);
    hide ShiftTimes, Resolution;
  }

  lemma OutageVerdictShift(started: real, ended: real, fault: real, fraction: real, qualifying: nat,
                           attribution: Attribution, d: real)
    ensures OutageVerdict(started + d, ended + d, fault + d, fraction, qualifying, attribution)
         == ShiftVerdict(OutageVerdict(started, ended, fault, fraction, qualifying, attribution), d)
  {
    assert (ended + d) - (fault + d) == ended - fault && (ended + d) - (started + d) == ended - started;
  }

  lemma OutageShift(records: seq<Keyed<real>>, times: seq<real>, fault: real, i: nat, d: real)
    requires i + 1 < |times| == |records|
    ensures JudgeOutage(ShiftRecords(records, d), ShiftTimes(times, d), fault + d, i)
         == ShiftVerdict(JudgeOutage(records, times, fault, i), d)
  {
    hide *;
    var r, q := ShiftRecords(records, d), ShiftTimes(times, d);
    GapsShift(times, fault, d);
    FloorShift(times, fault, d);
    InFlightShift(records[i], records[i + 1], d);
    JudgedBy(records, times, fault, i);
    JudgedBy(r, q, fault + d, i);
    var late := LateGaps(times, fault);
    OutageVerdictShift(times[i], times[i + 1], fault, InFlightFraction(records[i], records[i + 1]),
                       Over(late, NoiseFloor(times, fault)), TailAttribution(HealthyGaps(times, fault), late), d);
  }

  lemma JudgedBy(records: seq<Keyed<real>>, times: seq<real>, fault: real, i: nat)
    requires i + 1 < |times| == |records|
    ensures JudgeOutage(records, times, fault, i) ==
            OutageVerdict(times[i], times[i + 1], fault, InFlightFraction(records[i], records[i + 1]),
                          Over(LateGaps(times, fault), NoiseFloor(times, fault)),
                          TailAttribution(HealthyGaps(times, fault), LateGaps(times, fault)))
  {
    hide OutageVerdict, InFlightFraction, Over, LateGaps, NoiseFloor, TailAttribution, HealthyGaps;
  }

  lemma OpenGapShift(times: seq<real>, last: Option<real>, d: real)
    requires times != []
    ensures var t, n := ShiftTimes(times, d), |times| - 1;
            t[n] == times[n] + d && ShiftTime(last, d).Or(t[n]) - t[n] == last.Or(times[n]) - times[n]
  {
  }

  lemma JudgeSome(records: seq<Keyed<real>>, times: seq<real>, last: Option<real>, fault: real, end: Option<real>, i: nat)
    requires 2 <= |times| == |records| && Longest(times, fault, NoiseFloor(times, fault), |times| - 1) == Some(i)
    ensures Judge(records, times, last, fault, end) == JudgeOutage(records, times, fault, i)
  {
    hide JudgeOutage, JudgeNoOutage, CoverageTruncated, Longest, NoiseFloor;
  }

  lemma JudgeFew(records: seq<Keyed<real>>, times: seq<real>, last: Option<real>, fault: real, end: Option<real>, d: real)
    requires |times| == |records| < 2
    ensures Judge(records, times, last, fault, end) == TooFewServed == ShiftVerdict(TooFewServed, d)
  {
    hide JudgeOutage, JudgeNoOutage, CoverageTruncated, Longest, NoiseFloor;
  }

  lemma JudgeNone(records: seq<Keyed<real>>, times: seq<real>, last: Option<real>, fault: real, end: Option<real>)
    requires 2 <= |times| == |records| && Longest(times, fault, NoiseFloor(times, fault), |times| - 1) == None
    ensures Judge(records, times, last, fault, end)
         == JudgeNoOutage(times[|times| - 1], last.Or(times[|times| - 1]) - times[|times| - 1], NoiseFloor(times, fault),
                          fault, CoverageTruncated(times, last, fault, end))
  {
    hide JudgeOutage, JudgeNoOutage, CoverageTruncated, Longest, NoiseFloor;
  }

  lemma NoOutageShift(lastServed: real, openGap: real, floor: real, fault: real, truncated: bool, d: real)
    ensures JudgeNoOutage(lastServed + d, openGap, floor, fault + d, truncated)
         == ShiftVerdict(JudgeNoOutage(lastServed, openGap, floor, fault, truncated), d)
  {
  }

  lemma JudgeShift(records: seq<Keyed<real>>, times: seq<real>, last: Option<real>, fault: real, end: Option<real>, d: real)
    requires |times| == |records|
    ensures Judge(ShiftRecords(records, d), ShiftTimes(times, d), ShiftTime(last, d), fault + d, ShiftTime(end, d))
         == ShiftVerdict(Judge(records, times, last, fault, end), d)
  {
    hide *;
    var t, r, f, n := ShiftTimes(times, d), ShiftRecords(records, d), NoiseFloor(times, fault), |times| - 1;
    assert |t| == |times| && |r| == |records|;
    if |times| < 2 {
      JudgeFew(records, times, last, fault, end, d);
      JudgeFew(r, t, ShiftTime(last, d), fault + d, ShiftTime(end, d), d);
    } else {
      FloorShift(times, fault, d);
      LongestShift(times, fault, f, n, d);
      match Longest(times, fault, f, n) {
        case Some(i) =>
          JudgeSome(records, times, last, fault, end, i);
          JudgeSome(r, t, ShiftTime(last, d), fault + d, ShiftTime(end, d), i);
          OutageShift(records, times, fault, i, d);
        case None =>
          JudgeNone(records, times, last, fault, end);
          JudgeNone(r, t, ShiftTime(last, d), fault + d, ShiftTime(end, d));
          CoverageShift(times, last, fault, end, d);
          OpenGapShift(times, last, d);
          NoOutageShift(times[n], last.Or(times[n]) - times[n], f, fault, CoverageTruncated(times, last, fault, end), d);
      }
    }
  }

  lemma SummariseShift(records: seq<Keyed<real>>, times: seq<real>, failure: Option<real>, last: Option<real>,
                       fault: real, end: Option<real>, d: real)
    requires |times| == |records|
    ensures Summarise(ShiftRecords(records, d), ShiftTimes(times, d), ShiftTime(failure, d), ShiftTime(last, d),
                      fault + d, ShiftTime(end, d))
         == ShiftReport(Summarise(records, times, failure, last, fault, end), d)
  {
    hide ShiftTimes, ShiftRecords, Judge, NoiseFloor, Resolution, CountLt, FirstServedAfter, ShiftVerdict, CoverageTruncated;
    JudgeShift(records, times, last, fault, end, d);
    FloorShift(times, fault, d);
    CoverageShift(times, last, fault, end, d);
    CountShift(times, fault, d);
  }

  /** Moving every attempt, the fault and the end of observation by the same skew moves the absolute
      fields of the report by that skew and changes nothing else. */
  lemma RebasingMovesOnlyTheClock(attempts: seq<Attempt>, fault: real, end: Option<real>, d: real)
    ensures MeasureRto(Shift(attempts, d), fault + d, ShiftTime(end, d)) == ShiftReport(MeasureRto(attempts, fault, end), d)
  {
    hide Summarise, ShiftReport, ShiftTimes, ShiftRecords, FirstFailure, LastCompletion, Served, Shift;
    CompletionsShift(attempts, d);
    ExtremesShift(attempts, fault, d);
    SummariseShift(Sort(Served(attempts)), Completions(attempts), FirstFailure(attempts, fault),
                   LastCompletion(attempts), fault, end, d);
  }
}
