/** What the noise floor depends on: the healthy part of the run only, exactly when the healthy
    95th percentile is positive. */
module RtoFloor {
  import opened Ordering
  import opened Quantiles
  import opened RtoAnalysis
  import opened RtoOutage

  function Below(s: seq<real>, fault: real): seq<real> {
    if s == [] then [] else (if s[0] < fault then [s[0]] else []) + Below(s[1..], fault)
  }

  function AtLeast(s: seq<real>, fault: real): seq<real> {
    if s == [] then [] else (if s[0] >= fault then [s[0]] else []) + AtLeast(s[1..], fault)
  }

  ghost predicate AllBelow(s: seq<real>, fault: real) {
    forall i | 0 <= i < |s| :: s[i] < fault
  }

  ghost predicate AllAtLeast(s: seq<real>, fault: real) {
    forall i | 0 <= i < |s| :: s[i] >= fault
  }

  lemma {:induction false} SplitMembers(s: seq<real>, fault: real)
    ensures multiset(s) == multiset(Below(s, fault)) + multiset(AtLeast(s, fault))
  {
    if s == [] {
    } else {
      var x, low, high := s[0], Below(s[1..], fault), AtLeast(s[1..], fault);
      SplitMembers(s[1..], fault);
      assert s == [x] + s[1..];
      assert multiset(s) == multiset{x} + (multiset(low) + multiset(high));
      if x < fault {
        assert Below(s, fault) == [x] + low && AtLeast(s, fault) == high;
      } else {
        assert Below(s, fault) == low && AtLeast(s, fault) == [x] + high;
      }
    }
  }

  lemma {:induction false} SplitSides(s: seq<real>, fault: real)
    ensures AllBelow(Below(s, fault), fault) && AllAtLeast(AtLeast(s, fault), fault)
  {
    if s != [] {
      SplitSides(s[1..], fault);
    }
  }

  lemma SortSides(s: seq<real>, fault: real)
    ensures AllBelow(s, fault) ==> AllBelow(SortReals(s), fault)
    ensures AllAtLeast(s, fault) ==> AllAtLeast(SortReals(s), fault)
  {
    var r := SortReals(s);
    SameMembers(r, s);
    forall i | 0 <= i < |r| ensures exists j :: 0 <= j < |s| && s[j] == r[i] {
      assert r[i] in r;
    }
  }

  lemma AscendingJoin(s: seq<real>, t: seq<real>, fault: real)
    requires Ascending(s) && Ascending(t) && AllBelow(s, fault) && AllAtLeast(t, fault)
    ensures Ascending(s + t)
  {
    forall i, j | 0 <= i <= j < |s + t| ensures (s + t)[i] <= (s + t)[j] {
      if i < |s| <= j {
        assert s[i] < fault <= t[j - |s|];
      }
    }
  }

  /** Sorting puts everything before the fault first. */
  lemma SortSplit(s: seq<real>, fault: real)
    ensures SortReals(s) == SortReals(Below(s, fault)) + SortReals(AtLeast(s, fault))
    ensures AllBelow(SortReals(Below(s, fault)), fault) && AllAtLeast(SortReals(AtLeast(s, fault)), fault)
  {
    var low, high := Below(s, fault), AtLeast(s, fault);
    SplitMembers(s, fault);
    SplitSides(s, fault);
    SortSides(low, fault);
    SortSides(high, fault);
    SortRealsAscending(low);
    SortRealsAscending(high);
    SortRealsAscending(s);
    hide *;
    AscendingJoin(SortReals(low), SortReals(high), fault);
    assert multiset(SortReals(low) + SortReals(high)) == multiset(s);
    AscendingUnique(SortReals(s), SortReals(low) + SortReals(high));
  }

  lemma {:induction false} NoHealthyGaps(times: seq<real>, fault: real)
    requires AllAtLeast(times, fault)
    ensures HealthyGaps(times, fault) == []
  {
    if |times| >= 2 {
      NoHealthyGaps(times[1..], fault);
    }
  }

  lemma {:induction false} HealthyGapsOfSplit(low: seq<real>, high: seq<real>, fault: real)
    requires AllBelow(low, fault) && AllAtLeast(high, fault)
    ensures HealthyGaps(low + high, fault) == Gaps(low)
  {
    if low == [] {
      assert low + high == high;
      NoHealthyGaps(high, fault);
    } else {
      assert (low + high)[1..] == low[1..] + high;
      HealthyGapsOfSplit(low[1..], high, fault);
    }
  }

  /** Served completions before the fault, in recorded order. */
  function PreFault(attempts: seq<Attempt>, fault: real): seq<real> {
    Below(Keys(Served(attempts)), fault)
  }

  lemma HealthyGapsArePreFault(attempts: seq<Attempt>, fault: real)
    ensures HealthyGaps(Completions(attempts), fault) == Gaps(SortReals(PreFault(attempts, fault)))
  {
    var s := Keys(Served(attempts));
    SortSplit(s, fault);
    HealthyGapsOfSplit(SortReals(Below(s, fault)), SortReals(AtLeast(s, fault)), fault);
  }

  /** The healthy 95th percentile, zero when there is none. */
  function HealthyPeriod(attempts: seq<Attempt>, fault: real): real {
    Quantile(HealthyGaps(Completions(attempts), fault), 0.95).Or(0.0)
  }

  ghost predicate SamePreFault(a: seq<Attempt>, b: seq<Attempt>, fault: real) {
    multiset(PreFault(a, fault)) == multiset(PreFault(b, fault))
  }

  lemma SameHealthyGaps(a: seq<Attempt>, b: seq<Attempt>, fault: real)
    requires SamePreFault(a, b, fault)
    ensures HealthyGaps(Completions(a), fault) == HealthyGaps(Completions(b), fault)
  {
    HealthyGapsArePreFault(a, fault);
    HealthyGapsArePreFault(b, fault);
    SortRealsPermutation(PreFault(a, fault), PreFault(b, fault));
  }

  /** With a positive healthy percentile, nothing that completes at or after the fault moves the
      resolution or the floor that has to detect the outage. */
  lemma FloorIgnoresPostFault(a: seq<Attempt>, b: seq<Attempt>, fault: real)
    requires SamePreFault(a, b, fault) && HealthyPeriod(a, fault) > 0.0
    ensures Resolution(Completions(a), fault) == Resolution(Completions(b), fault)
    ensures NoiseFloor(Completions(a), fault) == NoiseFloor(Completions(b), fault)
  {
    SameHealthyGaps(a, b, fault);
  }

  // A zero or absent healthy percentile makes the floor fall back to all gaps: then it is never
  // settled before the fault.

  function Beats(start: real, n: nat): (r: seq<Attempt>)
    ensures |r| == n
  {
    if n == 0 then [] else Beats(start, n - 1) + [Attempt(0, start + (n - 1) as real, start + (n - 1) as real, Ok, 0)]
  }

  /** Served completion times, in recorded order. */
  function ServedTimes(attempts: seq<Attempt>): seq<real> {
    Keys(Served(attempts))
  }

  lemma ServedTimesSplit(a: seq<Attempt>, b: seq<Attempt>)
    ensures ServedTimes(a + b) == ServedTimes(a) + ServedTimes(b)
  {
    ServedAppend(a, b);
  }

  lemma ServedTimesOne(a: Attempt)
    ensures ServedTimes([a]) == if a.outcome.Ok? then [a.complete] else []
  {
    assert Served([a]) == ServedOne(a) + Served([]);
  }

  lemma {:induction false} BeatTimes(start: real, n: nat)
    ensures var r := ServedTimes(Beats(start, n)); |r| == n && forall i | 0 <= i < n :: r[i] == start + i as real
  {
    if n > 0 {
      BeatTimes(start, n - 1);
      var last := Attempt(0, start + (n - 1) as real, start + (n - 1) as real, Ok, 0);
      ServedTimesSplit(Beats(start, n - 1), [last]);
      ServedTimesOne(last);
    }
  }

  /** The served attempts that complete before the fault. */
  function KeepPreFault(attempts: seq<Attempt>, fault: real): seq<Attempt> {
    if attempts == [] then []
    else (if attempts[0].outcome.Ok? && attempts[0].complete < fault then [attempts[0]] else [])
         + KeepPreFault(attempts[1..], fault)
  }

  lemma {:induction false} KeepPreFaultTimes(attempts: seq<Attempt>, fault: real)
    ensures ServedTimes(KeepPreFault(attempts, fault)) == PreFault(attempts, fault)
  {
    if attempts != [] {
      var a, rest := attempts[0], attempts[1..];
      var kept := KeepPreFault(rest, fault);
      KeepPreFaultTimes(rest, fault);
      assert attempts == [a] + rest;
      ServedTimesOne(a);
      ServedTimesSplit([a], rest);
      ServedTimesSplit([a], kept);
      if a.outcome.Ok? {
        assert ServedTimes(attempts)[1..] == ServedTimes(rest);
        if a.complete < fault {
          assert KeepPreFault(attempts, fault) == [a] + kept;
        } else {
          assert KeepPreFault(attempts, fault) == kept;
        }
      } else {
        assert KeepPreFault(attempts, fault) == kept;
        assert ServedTimes(attempts) == ServedTimes(rest);
      }
    }
  }

  lemma {:induction false} NoneBelow(t: seq<real>, fault: real)
    requires AllAtLeast(t, fault)
    ensures Below(t, fault) == [] && AtLeast(t, fault) == t
  {
    if t != [] {
      NoneBelow(t[1..], fault);
      assert t == [t[0]] + t[1..];
    }
  }

  lemma {:induction false} BelowJoin(s: seq<real>, t: seq<real>, fault: real)
    requires AllBelow(s, fault) && AllAtLeast(t, fault)
    ensures Below(s + t, fault) == s && AtLeast(s + t, fault) == t
  {
    if s == [] {
      assert s + t == t;
      NoneBelow(t, fault);
    } else {
      assert s[0] < fault;
      assert (s + t)[1..] == s[1..] + t && s == [s[0]] + s[1..];
      BelowJoin(s[1..], t, fault);
    }
  }

  /** The healthy part of a run, continued by n served writes one second apart from the fault on. */
  function Continued(attempts: seq<Attempt>, fault: real, n: nat): seq<Attempt> {
    KeepPreFault(attempts, fault) + Beats(fault, n)
  }

  lemma ContinuedSplit(attempts: seq<Attempt>, fault: real, n: nat)
    ensures var pre, beats := PreFault(attempts, fault), ServedTimes(Beats(fault, n));
            var all := ServedTimes(Continued(attempts, fault, n));
            all == pre + beats && Below(all, fault) == pre && AtLeast(all, fault) == beats
  {
    KeepPreFaultTimes(attempts, fault);
    ServedTimesSplit(KeepPreFault(attempts, fault), Beats(fault, n));
    BeatTimes(fault, n);
    SplitSides(ServedTimes(attempts), fault);
    BelowJoin(PreFault(attempts, fault), ServedTimes(Beats(fault, n)), fault);
  }

  lemma BeatsSorted(start: real, n: nat)
    ensures SortReals(ServedTimes(Beats(start, n))) == ServedTimes(Beats(start, n))
  {
    var beats := ServedTimes(Beats(start, n));
    BeatTimes(start, n);
    SortRealsAscending(beats);
    AscendingUnique(SortReals(beats), beats);
  }

  lemma ContinuedTimes(attempts: seq<Attempt>, fault: real, n: nat)
    ensures SamePreFault(attempts, Continued(attempts, fault, n), fault)
    ensures Completions(Continued(attempts, fault, n))
         == SortReals(PreFault(attempts, fault)) + ServedTimes(Beats(fault, n))
  {
    hide Continued, SortReals, Below, AtLeast;
    ContinuedSplit(attempts, fault, n);
    BeatsSorted(fault, n);
    SortSplit(ServedTimes(Continued(attempts, fault, n)), fault);
  }

  /** If all but p of the values are at least v, and p is under 95%, the quantile is at least v. */
  lemma QuantileAtLeast(s: seq<real>, v: real, p: nat)
    requires s != [] && 20 * p < 19 * |s| && forall i | p <= i < |s| :: s[i] >= v
    ensures Quantile(s, 0.95).Some? && Quantile(s, 0.95).value >= v
  {
    var u := Quantile(s, 0.95).value;
    QuantileCovers(s, 0.95, u);
    if u < v {
      CountLtAtMost(s, v, p);
      CountLeLt(s, u, v);
    }
  }

  /** With a zero healthy percentile the floor is the longest healthy gap, plus what all gaps say. */
  lemma FloorOnFallback(attempts: seq<Attempt>, fault: real)
    requires HealthyPeriod(attempts, fault) == 0.0
    ensures var times := Completions(attempts);
            var healthy, period := HealthyGaps(times, fault), Quantile(Gaps(times), 0.95).Or(0.0);
            NoiseFloor(times, fault) == if healthy != [] then MaxOf(healthy) + period else 2.0 * period
  {
  }

  lemma QuietPeriod(attempts: seq<Attempt>, fault: real)
    requires HealthyPeriod(attempts, fault) == 0.0
    ensures Quantile(Gaps(Completions(Continued(attempts, fault, 0))), 0.95).Or(0.0) == 0.0
  {
    ContinuedTimes(attempts, fault, 0);
    HealthyGapsArePreFault(attempts, fault);
    assert ServedTimes(Beats(fault, 0)) == [];
    assert Completions(Continued(attempts, fault, 0)) == SortReals(PreFault(attempts, fault));
  }

  lemma BusyPeriod(attempts: seq<Attempt>, fault: real, n: nat)
    requires n == 20 * |PreFault(attempts, fault)| + 21
    ensures Quantile(Gaps(Completions(Continued(attempts, fault, n))), 0.95).Or(0.0) >= 1.0
  {
    var p := |PreFault(attempts, fault)|;
    var times := Completions(Continued(attempts, fault, n));
    hide Completions, Continued, PreFault, Quantile;
    ContinuedTimes(attempts, fault, n);
    var beats := ServedTimes(Beats(fault, n));
    BeatTimes(fault, n);
    hide ServedTimes, Beats;
    var gaps := Gaps(times);
    assert |times| == p + n;
    forall i | p <= i < |gaps| ensures gaps[i] >= 1.0 {
      assert times[i] == beats[i - p] && times[i + 1] == beats[i + 1 - p];
    }
    QuantileAtLeast(gaps, 1.0, p);
  }

  lemma ContinuedFloors(attempts: seq<Attempt>, fault: real, n: nat)
    requires HealthyPeriod(attempts, fault) == 0.0 && n == 20 * |PreFault(attempts, fault)| + 21
    ensures NoiseFloor(Completions(Continued(attempts, fault, n)), fault)
            > NoiseFloor(Completions(Continued(attempts, fault, 0)), fault)
  {
    hide Continued, Completions, NoiseFloor, Gaps, Quantile, PreFault;
    forall k: nat ensures SamePreFault(attempts, Continued(attempts, fault, k), fault) {
      ContinuedTimes(attempts, fault, k);
    }
    SameHealthyGaps(attempts, Continued(attempts, fault, 0), fault);
    SameHealthyGaps(attempts, Continued(attempts, fault, n), fault);
    FloorOnFallback(Continued(attempts, fault, 0), fault);
    FloorOnFallback(Continued(attempts, fault, n), fault);
    QuietPeriod(attempts, fault);
    BusyPeriod(attempts, fault, n);
  }

  /** The floor is settled by the healthy part of the run exactly when the healthy percentile is positive. */
  lemma FloorSettledIff(attempts: seq<Attempt>, fault: real)
    ensures HealthyPeriod(attempts, fault) > 0.0 <==>
            forall other | SamePreFault(attempts, other, fault) ::
              NoiseFloor(Completions(other), fault) == NoiseFloor(Completions(attempts), fault)
  {
    if HealthyPeriod(attempts, fault) > 0.0 {
      forall other | SamePreFault(attempts, other, fault)
        ensures NoiseFloor(Completions(other), fault) == NoiseFloor(Completions(attempts), fault)
      {
        FloorIgnoresPostFault(attempts, other, fault);
      }
    } else {
      var times := Completions(attempts);
      SortRealsAscending(Keys(Served(attempts)));
      GapsNonNegative(times, fault);
      QuantileNonNegative(HealthyGaps(times, fault), 0.95);
      var n := 20 * |PreFault(attempts, fault)| + 21;
      ContinuedFloors(attempts, fault, n);
      ContinuedTimes(attempts, fault, 0);
      ContinuedTimes(attempts, fault, n);
    }
  }
}
