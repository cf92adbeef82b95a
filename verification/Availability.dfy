/** The audit writer's recovery time: the longest gap between acknowledged writes that closes after the
    fault and stands out from the healthy ones. */
module Availability {
  import opened Options
  import opened Ordering
  import opened RtoAnalysis
  import opened RtoOutage
  import opened AuditProtocol
  import opened AuditLoss

  /** Completion times of the acknowledged writes, in recorded order. */
  function Acked(attempts: seq<AuditProtocol.Attempt>): seq<real> {
    if attempts == [] then []
    else
      var n := |attempts| - 1;
      Acked(attempts[..n]) + if attempts[n].mark.Ack? then [attempts[n].at] else []
  }

  /** The upper median of all gaps. */
  function TypicalGap(acked: seq<real>): Option<real> {
    var gaps := Gaps(acked);
    if gaps == [] then None else Some(SortReals(gaps)[|gaps| / 2])
  }

  /** Above the longest healthy gap by a typical one; none without a healthy gap or a nonzero median. */
  function DetectionFloor(acked: seq<real>, fault: real): Option<real> {
    var healthy, typical := HealthyGaps(acked, fault), TypicalGap(acked);
    if healthy != [] && typical.Some? && typical.value != 0.0 then Some(MaxOf(healthy) + typical.value) else None
  }

  const COVERAGE_SLACK_CADENCES := 10.0

  predicate Truncated(acked: seq<real>, end: Option<real>) {
    end.Some? && acked != [] &&
    end.value - MaxOf(acked) > TypicalGap(acked).Or(0.0) * COVERAGE_SLACK_CADENCES
  }

  function FirstAfter(acked: seq<real>, fault: real): Option<real> {
    if acked == [] then None
    else
      var rest := FirstAfter(acked[1..], fault);
      if acked[0] < fault then rest else Least(rest, acked[0])
  }

  function LastBefore(acked: seq<real>, fault: real): Option<real> {
    if acked == [] then None
    else
      var rest := LastBefore(acked[1..], fault);
      if acked[0] >= fault then rest
      else if rest.Some? && rest.value >= acked[0] then rest else Some(acked[0])
  }

  datatype Availability =
    | NothingAfterFault
    | NeverClosed
    | Available(rto: real, writeGap: Option<real>, outageObserved: bool)

  function OutageAt(acked: seq<real>, fault: real): (r: Option<nat>)
    ensures r.Some? ==> r.value + 1 < |acked|
  {
    var floor := DetectionFloor(acked, fault);
    if floor.Some? && |acked| > 1 then Longest(acked, fault, floor.value, |acked| - 1) else None
  }

  function AvailabilityRto(attempts: seq<AuditProtocol.Attempt>, fault: real, end: Option<real>): Availability {
    Judge(Acked(attempts), fault, end)
  }

  function Judge(acked: seq<real>, fault: real, end: Option<real>): Availability {
    var first, last := FirstAfter(acked, fault), LastBefore(acked, fault);
    if first.None? then NothingAfterFault
    else
      var outage := OutageAt(acked, fault);
      if outage.Some? then Available(acked[outage.value + 1] - fault, Some(Gap(acked, outage.value)), true)
      else if Truncated(acked, end) then NeverClosed
      else Available(first.value - fault,
                     if last.Some? && last.value != 0.0 then Some(first.value - last.value) else None, false)
  }

  // ----- On the writer's own record -----

  lemma {:induction false} AckedAscending(attempts: seq<AuditProtocol.Attempt>)
    requires forall i, j | 0 <= i <= j < |attempts| :: attempts[i].at <= attempts[j].at
    ensures Ascending(Acked(attempts))
    ensures attempts != [] ==> forall t | t in Acked(attempts) :: t <= attempts[|attempts| - 1].at
  {
    if attempts != [] {
      var n := |attempts| - 1;
      AckedAscending(attempts[..n]);
      var before := Acked(attempts[..n]);
      forall i | 0 <= i < |before| ensures before[i] <= attempts[n].at {
        assert before[i] in before;
        assert attempts[..n][n - 1].at <= attempts[n].at;
      }
    }
  }

  lemma RecordAscending(turns: seq<Turn>)
    requires Clocked(turns)
    ensures Ascending(Acked(Attempts(turns)))
  {
    hide Clocked;
    var a := Attempts(turns);
    forall i, j | 0 <= i <= j < |a| ensures a[i].at <= a[j].at {
      EndsInOrder(turns, i, j);
    }
    AckedAscending(a);
  }

  lemma GapNonNegative(acked: seq<real>, i: nat)
    requires Ascending(acked) && i + 1 < |acked|
    ensures Gap(acked, i) >= 0.0
  {
  }

  lemma TypicalNonNegative(acked: seq<real>)
    requires Ascending(acked) && TypicalGap(acked).Some?
    ensures TypicalGap(acked).value >= 0.0
  {
    var gaps := Gaps(acked);
    var sorted := SortReals(gaps);
    SameMembers(sorted, gaps);
    assert sorted[|gaps| / 2] in gaps;
    var i :| 0 <= i < |gaps| && gaps[i] == sorted[|gaps| / 2];
    GapNonNegative(acked, i);
  }

  /** The floor clears every gap that closed before the fault. */
  lemma FloorClearsHealthy(acked: seq<real>, fault: real, i: nat)
    requires Ascending(acked) && DetectionFloor(acked, fault).Some? && i + 1 < |acked| && acked[i + 1] < fault
    ensures 0.0 <= Gap(acked, i) < DetectionFloor(acked, fault).value
  {
    hide TypicalGap, Ascending;
    HealthyHas(acked, fault, i);
    TypicalNonNegative(acked);
    GapNonNegative(acked, i);
  }

  lemma FloorPositive(acked: seq<real>, fault: real)
    requires Ascending(acked) && DetectionFloor(acked, fault).Some?
    ensures DetectionFloor(acked, fault).value > 0.0
  {
    hide TypicalGap, HealthyGaps, Ascending;
    TypicalNonNegative(acked);
    GapsNonNegative(acked, fault);
  }

  lemma {:induction false} FirstAfterIs(acked: seq<real>, fault: real)
    ensures FirstAfter(acked, fault).Some? <==> exists t :: t in acked && t >= fault
    ensures FirstAfter(acked, fault).Some? ==>
              var f := FirstAfter(acked, fault).value;
              f in acked && f >= fault && forall t | t in acked && t >= fault :: f <= t
  {
    if acked != [] {
      FirstAfterIs(acked[1..], fault);
      assert forall t :: t in acked <==> t == acked[0] || t in acked[1..] by {
        assert acked == [acked[0]] + acked[1..];
      }
      if t :| t in acked && t >= fault {
        assert t == acked[0] || t in acked[1..];
      }
      if acked[0] >= fault {
        assert acked[0] in acked;
      }
    }
  }

  lemma OutageAtMeans(acked: seq<real>, fault: real)
    ensures var floor, o := DetectionFloor(acked, fault), OutageAt(acked, fault);
      && (o.Some? <==> floor.Some? && exists i :: 0 <= i < |acked| - 1 && Qualifies(acked, fault, floor.value, i))
      && (o.Some? ==> acked[o.value + 1] >= fault)
  {
    hide DetectionFloor, Longest;
    var floor := DetectionFloor(acked, fault);
    if floor.Some? && |acked| > 1 {
      LongestQualifies(acked, fault, floor.value, |acked| - 1);
    }
  }

  /** An outage is observed just when some gap that closes at or after the fault exceeds the floor. */
  lemma OutageObservedIff(acked: seq<real>, fault: real, end: Option<real>)
    ensures var a, floor := Judge(acked, fault, end), DetectionFloor(acked, fault);
      a.Available? && a.outageObserved <==>
        floor.Some? && exists i :: 0 <= i < |acked| - 1 && Qualifies(acked, fault, floor.value, i)
  {
    hide DetectionFloor, Truncated, FirstAfter, LastBefore, OutageAt;
    OutageAtMeans(acked, fault);
    FirstAfterIs(acked, fault);
    var o := OutageAt(acked, fault);
    if o.Some? {
      assert acked[o.value + 1] in acked;
    }
  }

  /** On the writer's own record an observed outage is the longest gap of the whole run, before the fault
      or after it, and the recovery time runs from the fault to its end. */
  lemma OutageIsLongest(turns: seq<Turn>, fault: real, end: Option<real>)
    requires Clocked(turns)
    requires var a := AvailabilityRto(Attempts(turns), fault, end); a.Available? && a.outageObserved
    ensures var acked, a := Acked(Attempts(turns)), AvailabilityRto(Attempts(turns), fault, end);
      exists o :: 0 <= o < |acked| - 1 && acked[o + 1] >= fault && LongestGap(acked, o) &&
                  a.rto == acked[o + 1] - fault && a.writeGap == Some(Gap(acked, o))
  {
    hide Acked, Attempts, Clocked, Truncated, FirstAfter, LastBefore, OutageAt, DetectionFloor, LongestGap;
    RecordAscending(turns);
    var acked := Acked(Attempts(turns));
    OutageAtMeans(acked, fault);
    LongestOfAll(acked, fault, OutageAt(acked, fault).value);
  }

  ghost predicate LongestGap(acked: seq<real>, o: nat)
    requires o + 1 < |acked|
  {
    forall i | 0 <= i < |acked| - 1 :: Gap(acked, i) <= Gap(acked, o)
  }

  lemma LongestOfAll(acked: seq<real>, fault: real, o: nat)
    requires Ascending(acked) && OutageAt(acked, fault) == Some(o)
    ensures LongestGap(acked, o)
  {
    hide DetectionFloor, Ascending, Longest, Gap;
    var floor := DetectionFloor(acked, fault).value;
    forall i | 0 <= i < |acked| - 1 ensures Gap(acked, i) <= Gap(acked, o) {
      if acked[i + 1] < fault {
        FloorClearsHealthy(acked, fault, i);
      } else if Qualifies(acked, fault, floor, i) {
        LongestIsLongest(acked, fault, floor, |acked| - 1, i);
      }
    }
  }

  lemma JudgeMeans(acked: seq<real>, fault: real, end: Option<real>)
    ensures var a := Judge(acked, fault, end);
      && (a.NothingAfterFault? <==> forall t | t in acked :: t < fault)
      && (a.Available? && a.outageObserved <==> OutageAt(acked, fault).Some?)
      && (a.NeverClosed? <==> !a.NothingAfterFault? && OutageAt(acked, fault).None? && Truncated(acked, end))
      && (OutageAt(acked, fault).Some? ==>
            var o := OutageAt(acked, fault).value;
            a == Available(acked[o + 1] - fault, Some(Gap(acked, o)), true))
  {
    hide DetectionFloor, Truncated, FirstAfter, LastBefore, OutageAt;
    OutageAtMeans(acked, fault);
    FirstAfterIs(acked, fault);
    if OutageAt(acked, fault).Some? {
      assert acked[OutageAt(acked, fault).value + 1] in acked;
    }
  }

  /** A silence at the end of the run, longer than the slack, goes unreported exactly when an earlier outage
      has closed; without a write acknowledged after the fault the report says just that. */
  lemma SilenceUnreportedIff(acked: seq<real>, fault: real, end: Option<real>)
    requires Truncated(acked, end)
    ensures var a := Judge(acked, fault, end);
      && (a.NothingAfterFault? <==> forall t | t in acked :: t < fault)
      && (!a.NothingAfterFault? && !a.NeverClosed? <==>
            DetectionFloor(acked, fault).Some? &&
            exists i :: 0 <= i < |acked| - 1 && Qualifies(acked, fault, DetectionFloor(acked, fault).value, i))
  {
    hide DetectionFloor, Truncated, Judge, OutageAt;
    JudgeMeans(acked, fault, end);
    OutageAtMeans(acked, fault);
    if OutageAt(acked, fault).Some? {
      FirstAfterIs(acked, fault);
    }
  }

  /** Once an outage has closed, when the run ended no longer matters. */
  lemma ClosedOutageIgnoresEnd(acked: seq<real>, fault: real, end: Option<real>, other: Option<real>)
    requires Judge(acked, fault, end).Available? && Judge(acked, fault, end).outageObserved
    ensures Judge(acked, fault, other) == Judge(acked, fault, end)
  {
    hide Judge, OutageAt;
    JudgeMeans(acked, fault, end);
    JudgeMeans(acked, fault, other);
  }

  /** On the writer's own record no silence that ends at or after the fault is longer than the outage that
      is reported, or than the floor, if there is one, when none is. */
  lemma SilenceWithinOutage(turns: seq<Turn>, fault: real, end: Option<real>, u: real, v: real)
    requires Clocked(turns)
    requires var acked := Acked(Attempts(turns));
      |acked| > 1 && Silence(acked, u, v) && v >= fault && DetectionFloor(acked, fault).Some?
    ensures var acked, a := Acked(Attempts(turns)), AvailabilityRto(Attempts(turns), fault, end);
      if a.Available? && a.outageObserved then a.writeGap.Some? && v - u <= a.writeGap.value
      else v - u <= DetectionFloor(acked, fault).value
  {
    var acked := Acked(Attempts(turns));
    RecordAscending(turns);
    hide Acked, Attempts, DetectionFloor, Silence, Ascending, Longest, Judge;
    FloorPositive(acked, fault);
    SilenceAgainst(acked, fault, DetectionFloor(acked, fault).value, u, v);
    JudgeMeans(acked, fault, end);
  }

  // ----- What is reported without an outage -----

  /** The typical gap m: the upper median of the gaps between acknowledgements, zero when there is none. */
  ghost predicate IsTypical(acked: seq<real>, m: real) {
    var gaps := Gaps(acked);
    if gaps == [] then m == 0.0 else CountLt(gaps, m) <= |gaps| / 2 < CountLe(gaps, m)
  }

  lemma TypicalIs(acked: seq<real>, m: real)
    ensures IsTypical(acked, m) <==> m == TypicalGap(acked).Or(0.0)
  {
    hide SortReals, Gaps, CountLt, CountLe;
    var gaps := Gaps(acked);
    if gaps != [] {
      RankCount(gaps, |gaps| / 2);
      if IsTypical(acked, m) {
        RankIs(gaps, |gaps| / 2, m);
      }
    }
  }

  ghost predicate IsLast(acked: seq<real>, last: real) {
    last in acked && forall t | t in acked :: t <= last
  }

  ghost predicate SomeOutage(acked: seq<real>, fault: real) {
    && DetectionFloor(acked, fault).Some?
    && exists i :: 0 <= i < |acked| - 1 && Qualifies(acked, fault, DetectionFloor(acked, fault).value, i)
  }

  lemma TruncatedIff(acked: seq<real>, end: Option<real>)
    ensures Truncated(acked, end) <==>
            end.Some? && exists last, m :: IsLast(acked, last) && IsTypical(acked, m) && end.value - last > 10.0 * m
  {
    hide TypicalGap, IsTypical;
    TypicalIs(acked, TypicalGap(acked).Or(0.0));
    if acked != [] {
      assert IsLast(acked, MaxOf(acked));
      forall last, m | IsLast(acked, last) && IsTypical(acked, m)
        ensures last == MaxOf(acked) && m == TypicalGap(acked).Or(0.0)
      {
        TypicalIs(acked, m);
      }
    }
  }

  /** A run is reported as never having closed exactly when something was acknowledged at or after the fault,
      no gap qualifies as an outage, and the run outlived the last acknowledgement by more than ten typical
      gaps. */
  lemma NeverClosedIff(acked: seq<real>, fault: real, end: Option<real>)
    ensures Judge(acked, fault, end).NeverClosed? <==>
            && (exists t :: t in acked && t >= fault) && !SomeOutage(acked, fault)
            && end.Some? && exists last, m :: IsLast(acked, last) && IsTypical(acked, m) && end.value - last > 10.0 * m
  {
    hide DetectionFloor, Truncated, Judge, OutageAt, IsLast, IsTypical;
    JudgeMeans(acked, fault, end);
    OutageAtMeans(acked, fault);
    TruncatedIff(acked, end);
    assert (exists t :: t in acked && t >= fault) <==> !forall t | t in acked :: t < fault;
  }

  lemma {:induction false} LastBeforeIs(acked: seq<real>, fault: real)
    ensures var r := LastBefore(acked, fault);
      && (r.Some? ==> r.value in acked && r.value < fault)
      && (forall t | t in acked && t < fault :: r.Some? && t <= r.value)
  {
    if acked != [] {
      LastBeforeIs(acked[1..], fault);
      assert acked == [acked[0]] + acked[1..];
    }
  }

  /** The acknowledgements on either side of the fault: the least at or after it, and the greatest before. */
  ghost predicate Around(acked: seq<real>, fault: real, first: real, last: Option<real>) {
    && first in acked && first >= fault && (forall t | t in acked && t >= fault :: first <= t)
    && (last.Some? ==> last.value in acked && last.value < fault)
    && (forall t | t in acked && t < fault :: last.Some? && t <= last.value)
  }

  /** When no outage is observed, the recovery time runs to the first acknowledgement at or after the fault,
      and the write gap from the last one before it; there is no gap without one, or when that one is
      recorded at exactly 0. */
  lemma WithoutOutage(acked: seq<real>, fault: real, end: Option<real>)
    requires Judge(acked, fault, end).Available? && !Judge(acked, fault, end).outageObserved
    ensures var a := Judge(acked, fault, end);
      exists last :: Around(acked, fault, a.rto + fault, last) &&
        a.writeGap == (if last.Some? && last.value != 0.0 then Some(a.rto + fault - last.value) else None)
  {
    hide DetectionFloor, Truncated, FirstAfter, LastBefore, OutageAt;
    FirstAfterIs(acked, fault);
    LastBeforeIs(acked, fault);
    assert Around(acked, fault, FirstAfter(acked, fault).value, LastBefore(acked, fault));
  }

  // ----- The acknowledgements behind the record -----

  predicate IsAckAt(a: AuditProtocol.Attempt, t: real) {
    a.mark.Ack? && a.at == t
  }

  /** The places in the record of the writes acknowledged at that time. */
  ghost function AckedAt(attempts: seq<AuditProtocol.Attempt>, t: real): set<int> {
    set i | 0 <= i < |attempts| && IsAckAt(attempts[i], t)
  }

  lemma AckedAtNext(attempts: seq<AuditProtocol.Attempt>, x: AuditProtocol.Attempt, t: real)
    ensures |AckedAt(attempts + [x], t)| == |AckedAt(attempts, t)| + if IsAckAt(x, t) then 1 else 0
  {
    if IsAckAt(x, t) {
      assert AckedAt(attempts + [x], t) == AckedAt(attempts, t) + {|attempts|};
    } else {
      assert AckedAt(attempts + [x], t) == AckedAt(attempts, t);
    }
  }

  lemma AckedNext(attempts: seq<AuditProtocol.Attempt>, x: AuditProtocol.Attempt, t: real)
    ensures multiset(Acked(attempts + [x]))[t] == multiset(Acked(attempts))[t] + if IsAckAt(x, t) then 1 else 0
  {
    assert (attempts + [x])[..|attempts|] == attempts;
    assert Acked(attempts + [x]) == Acked(attempts) + if x.mark.Ack? then [x.at] else [];
  }

  lemma NoneAcked(t: real)
    ensures multiset(Acked([]))[t] == |AckedAt([], t)| == 0
  {
    assert AckedAt([], t) == {};
  }

  /** The acknowledgement times are those of the writes marked acknowledged, each as often as recorded. */
  lemma {:induction false} AckedAre(attempts: seq<AuditProtocol.Attempt>, t: real)
    ensures multiset(Acked(attempts))[t] == |AckedAt(attempts, t)|
  {
    hide *;
    if attempts == [] {
      NoneAcked(t);
    } else {
      var before, x := attempts[..|attempts| - 1], attempts[|attempts| - 1];
      assert attempts == before + [x];
      AckedAre(before, t);
      AckedNext(before, x, t);
      AckedAtNext(before, x, t);
    }
  }

  // ----- An outage that raises its own threshold -----

  lemma TypicalIff(acked: seq<real>, x: real)
    requires |acked| > 1
    ensures TypicalGap(acked).Some?
    ensures TypicalGap(acked).value >= x <==> CountLt(Gaps(acked), x) <= |Gaps(acked)| / 2
  {
    hide Gaps, SortReals;
    RankIff(Gaps(acked), |Gaps(acked)| / 2, x);
  }

  lemma LongestDecides(acked: seq<real>, fault: real, floor: real, i: nat)
    requires i + 1 < |acked| && acked[i + 1] >= fault && LongestGap(acked, i)
    ensures Gap(acked, i) > floor <==> exists j :: 0 <= j < |acked| - 1 && Qualifies(acked, fault, floor, j)
  {
    hide Gap;
    assert Gap(acked, i) > floor ==> Qualifies(acked, fault, floor, i);
  }

  lemma FloorIs(acked: seq<real>, fault: real)
    requires HealthyGaps(acked, fault) != [] && TypicalGap(acked).Some?
    ensures var floor, typical := DetectionFloor(acked, fault), TypicalGap(acked).value;
      floor == if typical == 0.0 then None else Some(MaxOf(HealthyGaps(acked, fault)) + typical)
  {
    hide TypicalGap, HealthyGaps;
  }

  /** The longest gap of a run hides, with its excess over the longest healthy gap, exactly when the median
      gap is zero or no more than half of all gaps are shorter than that excess: a long outage with few
      acknowledgements around it raises the median that is meant to detect it. */
  lemma HiddenIff(acked: seq<real>, fault: real, i: nat)
    requires i + 1 < |acked| && acked[i + 1] >= fault && LongestGap(acked, i)
    requires HealthyGaps(acked, fault) != []
    ensures var excess := Gap(acked, i) - MaxOf(HealthyGaps(acked, fault));
      OutageAt(acked, fault).None? <==>
        TypicalGap(acked) == Some(0.0) || CountLt(Gaps(acked), excess) <= |Gaps(acked)| / 2
  {
    hide *;
    var longest := MaxOf(HealthyGaps(acked, fault));
    TypicalIff(acked, Gap(acked, i) - longest);
    FloorIs(acked, fault);
    OutageAtMeans(acked, fault);
    LongestDecides(acked, fault, longest + TypicalGap(acked).value, i);
  }

  /** One such outage: seven seconds without an acknowledgement, against one-second gaps before the fault. */
  lemma OutageHidesItself()
    ensures Judge([1.0, 2.0, 9.0], 2.5, None) == Available(6.5, Some(7.0), false)
  {
    var acked := [1.0, 2.0, 9.0];
    ThreeAcks(1.0, 2.0, 9.0, 2.5);
    hide HealthyGaps, TypicalGap;
    assert DetectionFloor(acked, 2.5) == Some(8.0);
    hide DetectionFloor;
    OutageAtMeans(acked, 2.5);
    EndsAround(acked, 2.5);
  }

  lemma EndsAround(s: seq<real>, fault: real)
    requires |s| == 3 && s[0] < s[1] < fault <= s[2]
    ensures FirstAfter(s, fault) == Some(s[2]) && LastBefore(s, fault) == Some(s[1])
  {
    var t := s[1..];
    assert t[1..] == [s[2]] && t[1..][1..] == [];
    assert FirstAfter(t[1..], fault) == Some(s[2]) && LastBefore(t[1..], fault) == None;
    assert FirstAfter(t, fault) == Some(s[2]) && LastBefore(t, fault) == Some(s[1]);
  }

  lemma ThreeAcks(a: real, b: real, c: real, fault: real)
    requires b < fault <= c && b - a <= c - b
    ensures HealthyGaps([a, b, c], fault) == [b - a]
    ensures TypicalGap([a, b, c]) == Some(c - b)
  {
    hide *;
    OneHealthy([a, b, c], fault);
    SortedPair(b - a, c - b);
    TypicalOfTwo([a, b, c], b - a, c - b);
  }

  lemma TypicalOfTwo(acked: seq<real>, x: real, y: real)
    requires |acked| == 3 && x == acked[1] - acked[0] && y == acked[2] - acked[1] && SortReals([x, y]) == [x, y]
    ensures TypicalGap(acked) == Some(y)
  {
    hide SortReals, Gaps;
    assert Gaps(acked) == [x, y];
  }

  lemma OneHealthy(s: seq<real>, fault: real)
    requires |s| == 3 && s[1] < fault <= s[2]
    ensures HealthyGaps(s, fault) == [s[1] - s[0]]
  {
    var late := s[1..];
    assert HealthyGaps(late[1..], fault) == [];
    assert HealthyGaps(late, fault) == [];
  }

  lemma SortedPair(x: real, y: real)
    requires x <= y
    ensures SortReals([x, y]) == [x, y]
  {
    hide *;
    SortRealsAscending([x, y]);
    AscendingUnique(SortReals([x, y]), [x, y]) by {
      PairAscends(x, y);
    }
  }

  lemma PairAscends(x: real, y: real)
    requires x <= y
    ensures Ascending([x, y])
  {
  }
}
