/** What the audit writer's detection floor depends on: it is settled before the fault exactly when there
    is no healthy gap, and then there is no floor. */
module AvailabilityFloor {
  import opened Options
  import opened Ordering
  import opened RtoAnalysis
  import opened RtoFloor
  import opened AuditProtocol
  import opened AuditLoss
  import opened Availability

  /** Acknowledgement times of a writer's record. */
  function AckTimes(turns: seq<Turn>): seq<real> {
    Acked(Attempts(turns))
  }

  /** Two records that agree on everything acknowledged before the fault. */
  ghost predicate SameBefore(a: seq<Turn>, b: seq<Turn>, fault: real) {
    Below(AckTimes(a), fault) == Below(AckTimes(b), fault)
  }

  lemma AckTimesNext(turns: seq<Turn>, t: Turn)
    ensures AckTimes(turns + [t]) == AckTimes(turns) + if t.outcome.Returned? then [t.ended] else []
  {
    hide Attempts;
    AttemptsNext(turns, t);
    var a := Attempts(turns);
    assert (a + [AuditProtocol.Attempt(t.ended, |turns| + 1, MarkOf(t.outcome))])[..|a|] == a;
  }

  // ----- The healthy gaps are those before the fault -----

  lemma AscendingSplit(s: seq<real>, fault: real)
    requires Ascending(s)
    ensures s == Below(s, fault) + AtLeast(s, fault)
    ensures AllBelow(Below(s, fault), fault) && AllAtLeast(AtLeast(s, fault), fault)
    ensures HealthyGaps(s, fault) == Gaps(Below(s, fault))
  {
    SortRealsAscending(s);
    AscendingUnique(SortReals(s), s);
    SortSplit(s, fault);
    SplitSides(s, fault);
    var low, high := SortReals(Below(s, fault)), SortReals(AtLeast(s, fault));
    SortSides(Below(s, fault), fault);
    SortSides(AtLeast(s, fault), fault);
    hide *;
    BelowJoin(low, high, fault);
    HealthyGapsOfSplit(low, high, fault);
  }

  /** Without a healthy gap no continuation of the run has a floor. */
  lemma NoFloorForAny(turns: seq<Turn>, other: seq<Turn>, fault: real)
    requires Clocked(turns) && Clocked(other) && SameBefore(turns, other, fault)
    requires HealthyGaps(AckTimes(turns), fault) == []
    ensures DetectionFloor(AckTimes(turns), fault) == DetectionFloor(AckTimes(other), fault) == None
  {
    RecordAscending(turns);
    RecordAscending(other);
    AscendingSplit(AckTimes(turns), fault);
    AscendingSplit(AckTimes(other), fault);
    hide HealthyGaps, Below, AckTimes, TypicalGap;
  }

  // ----- Continuing a run from the fault on -----

  function BeatAt(fault: real, g: real, i: nat): real {
    fault + i as real * g
  }

  /** Acknowledged writes at the fault and every g seconds after it. */
  function Beats(fault: real, g: real, n: nat): (r: seq<Turn>)
    ensures |r| == n
    ensures forall i | 0 <= i < n :: r[i] == Turn(BeatAt(fault, g, i), BeatAt(fault, g, i), Returned)
  {
    seq(n, i requires 0 <= i => Turn(BeatAt(fault, g, i), BeatAt(fault, g, i), Returned))
  }

  function BeatTimes(fault: real, g: real, n: nat): (r: seq<real>)
    ensures |r| == n && forall i | 0 <= i < n :: r[i] == BeatAt(fault, g, i)
  {
    seq(n, i requires 0 <= i => BeatAt(fault, g, i))
  }

  lemma {:induction false} BeatsAcked(turns: seq<Turn>, fault: real, g: real, n: nat)
    ensures AckTimes(turns + Beats(fault, g, n)) == AckTimes(turns) + BeatTimes(fault, g, n)
  {
    hide AckTimes, BeatAt;
    if n == 0 {
      assert turns + Beats(fault, g, 0) == turns && AckTimes(turns) + BeatTimes(fault, g, 0) == AckTimes(turns);
    } else {
      BeatsAcked(turns, fault, g, n - 1);
      var less := turns + Beats(fault, g, n - 1);
      var last := Turn(BeatAt(fault, g, n - 1), BeatAt(fault, g, n - 1), Returned);
      assert turns + Beats(fault, g, n) == less + [last];
      AckTimesNext(less, last);
      assert BeatTimes(fault, g, n) == BeatTimes(fault, g, n - 1) + [BeatAt(fault, g, n - 1)];
    }
  }

  lemma BeatRises(fault: real, g: real, i: nat)
    ensures BeatAt(fault, g, i + 1) - BeatAt(fault, g, i) == g
    ensures BeatAt(fault, g, 0) == fault
    ensures g >= 0.0 ==> BeatAt(fault, g, i) >= fault
  {
    assert (i + 1) as real * g == i as real * g + g;
    if g >= 0.0 {
      assert i as real * g >= 0.0;
    }
  }

  lemma BeatsClocked(turns: seq<Turn>, fault: real, g: real, n: nat)
    requires Clocked(turns) && g >= 0.0 && (turns != [] ==> turns[|turns| - 1].ended <= fault)
    ensures Clocked(turns + Beats(fault, g, n))
  {
    hide BeatAt;
    var all, k := turns + Beats(fault, g, n), |turns|;
    forall i | 0 <= i < |all| ensures all[i].started <= all[i].ended {
      assert i < k ==> all[i] == turns[i];
    }
    forall i | 0 <= i < |all| - 1 ensures all[i].ended <= all[i + 1].started {
      if i + 1 < k {
        assert all[i] == turns[i] && all[i + 1] == turns[i + 1];
      } else {
        BeatRises(fault, g, if i < k then 0 else i - k);
      }
    }
  }

  /** The turns that ended before the fault come first. */
  lemma {:induction false} Cut(turns: seq<Turn>, fault: real) returns (k: nat)
    requires Clocked(turns)
    ensures k <= |turns| && (k > 0 ==> turns[k - 1].ended < fault)
    ensures AckTimes(turns[..k]) == Below(AckTimes(turns), fault)
  {
    if turns == [] {
      k := 0;
    } else {
      var n := |turns| - 1;
      var t := turns[n];
      assert Clocked(turns[..n]);
      k := Cut(turns[..n], fault);
      assert turns == turns[..n] + [t] && turns[..n][..k] == turns[..k];
      hide AckTimes, Below, Clocked;
      var before := AckTimes(turns[..n]);
      AckTimesNext(turns[..n], t);
      assert before + [] == before;
      if t.ended < fault {
        k := |turns|;
        EarlyAcks(turns, fault);
        assert turns[..k] == turns;
      } else {
        BelowNext(before, t.ended, fault);
        assert Below(before, fault) + [] == Below(before, fault);
      }
    }
  }

  lemma {:induction false} BelowNext(s: seq<real>, x: real, fault: real)
    ensures Below(s + [x], fault) == Below(s, fault) + if x < fault then [x] else []
  {
    if s == [] {
      assert [] + [x] == [x] && [x][1..] == [];
    } else {
      assert (s + [x])[1..] == s[1..] + [x];
      BelowNext(s[1..], x, fault);
    }
  }

  /** When the last turn ended before the fault, so did every acknowledgement. */
  lemma EarlyAcks(turns: seq<Turn>, fault: real)
    requires Clocked(turns) && turns != [] && turns[|turns| - 1].ended < fault
    ensures Below(AckTimes(turns), fault) == AckTimes(turns)
  {
    var s := AckTimes(turns);
    hide Clocked;
    forall i | 0 <= i < |s| ensures s[i] < fault {
      assert s[i] in s;
      AckedBy(turns, s[i]);
    }
    BelowJoin(s, [], fault);
    assert s + [] == s;
  }

  lemma {:induction false} AckedBy(turns: seq<Turn>, x: real)
    requires Clocked(turns) && x in AckTimes(turns)
    ensures turns != [] && x <= turns[|turns| - 1].ended
  {
    var n := |turns| - 1;
    if turns != [] {
      var t := turns[n];
      assert turns == turns[..n] + [t];
      AckTimesNext(turns[..n], t);
      if x != t.ended || !t.outcome.Returned? {
        assert Clocked(turns[..n]);
        hide AckTimes;
        AckedBy(turns[..n], x);
        EndsInOrder(turns, n - 1, n);
      }
    }
  }

  /** The healthy part of the record, followed by beats g seconds apart. */
  lemma Continue(turns: seq<Turn>, fault: real, g: real, n: nat) returns (other: seq<Turn>)
    requires Clocked(turns) && g >= 0.0
    ensures Clocked(other) && SameBefore(turns, other, fault)
    ensures AckTimes(other) == Below(AckTimes(turns), fault) + BeatTimes(fault, g, n)
  {
    var k := Cut(turns, fault);
    assert Clocked(turns[..k]);
    other := turns[..k] + Beats(fault, g, n);
    BeatsClocked(turns[..k], fault, g, n);
    BeatsAcked(turns[..k], fault, g, n);
    hide AckTimes, Below, Clocked, Beats, BeatAt;
    SplitSides(AckTimes(turns), fault);
    forall i | 0 <= i < n ensures BeatTimes(fault, g, n)[i] >= fault {
      BeatRises(fault, g, i);
    }
    BelowJoin(Below(AckTimes(turns), fault), BeatTimes(fault, g, n), fault);
  }

  /** Enough beats make their own spacing the median gap. */
  lemma BeatsAreTypical(low: seq<real>, fault: real, g: real)
    ensures TypicalGap(low + BeatTimes(fault, g, |low| + 4)) == Some(g)
  {
    hide BeatAt, SortReals;
    var p := |low|;
    var times := low + BeatTimes(fault, g, p + 4);
    var gaps := Gaps(times);
    forall i | p <= i < |gaps| ensures gaps[i] == g {
      BeatRises(fault, g, i - p);
      assert times[i] == BeatAt(fault, g, i - p) && times[i + 1] == BeatAt(fault, g, i - p + 1);
    }
    CountLtAtMost(gaps, g, p);
    CountLeAtLeast(gaps, g, p);
    RankIs(gaps, |gaps| / 2, g);
  }

  lemma ContinuedFloor(turns: seq<Turn>, fault: real, g: real) returns (other: seq<Turn>)
    requires Clocked(turns) && g > 0.0 && HealthyGaps(AckTimes(turns), fault) != []
    ensures Clocked(other) && SameBefore(turns, other, fault)
    ensures DetectionFloor(AckTimes(other), fault) == Some(MaxOf(HealthyGaps(AckTimes(turns), fault)) + g)
  {
    hide *;
    var low := Below(AckTimes(turns), fault);
    other := Continue(turns, fault, g, |low| + 4);
    BeatsAreTypical(low, fault, g);
    RecordAscending(turns);
    RecordAscending(other);
    AckTimesAre(turns);
    AckTimesAre(other);
    AscendingSplit(AckTimes(turns), fault);
    AscendingSplit(AckTimes(other), fault);
    SameBelow(turns, other, fault);
    FloorIs(AckTimes(other), fault);
  }

  lemma SameBelow(a: seq<Turn>, b: seq<Turn>, fault: real)
    requires SameBefore(a, b, fault)
    ensures Below(AckTimes(a), fault) == Below(AckTimes(b), fault)
  {
  }

  lemma AckTimesAre(turns: seq<Turn>)
    ensures AckTimes(turns) == Acked(Attempts(turns))
  {
  }

  /** The floor is settled by what was acknowledged before the fault exactly when no gap closed before it:
      otherwise two records that agree until the fault, and only differ in the cadence after it, have
      different floors. */
  lemma FloorSettledIff(turns: seq<Turn>, fault: real)
    requires Clocked(turns)
    ensures HealthyGaps(AckTimes(turns), fault) == [] <==>
            forall other | Clocked(other) && SameBefore(turns, other, fault) ::
              DetectionFloor(AckTimes(other), fault) == DetectionFloor(AckTimes(turns), fault)
  {
    if HealthyGaps(AckTimes(turns), fault) == [] {
      forall other | Clocked(other) && SameBefore(turns, other, fault)
        ensures DetectionFloor(AckTimes(other), fault) == DetectionFloor(AckTimes(turns), fault)
      {
        NoFloorForAny(turns, other, fault);
      }
    } else {
      hide *;
      var slow := ContinuedFloor(turns, fault, 1.0);
      var slower := ContinuedFloor(turns, fault, 2.0);
    }
  }
}
