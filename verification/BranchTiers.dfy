/** Which tiers of a measured curve the interpolation works on. */
module BranchTiers {
  import opened Ordering
  import opened EngineComparison

  /** No two different tiers were measured at one concurrency. */
  ghost predicate DistinctConcurrencies(curve: seq<Tier>) {
    forall t, u | t in curve && u in curve && t.concurrency == u.concurrency :: t == u
  }

  /** The first tier, by concurrency, to reach the curve's greatest throughput. */
  ghost predicate IsPeak(curve: seq<Tier>, peak: Tier) {
    && peak in curve
    && forall t | t in curve :: t.tps < peak.tps || (t.tps == peak.tps && peak.concurrency <= t.concurrency)
  }

  /** A tier measured at no more than the peak's concurrency. */
  ghost predicate Rising(curve: seq<Tier>, t: Tier) {
    t in curve && exists peak :: IsPeak(curve, peak) && t.concurrency <= peak.concurrency
  }

  /** The sorted tiers are the curve's, by concurrency. */
  ghost predicate Sorted(curve: seq<Tier>, tiers: seq<Keyed<Tier>>) {
    && (forall k | 0 <= k < |tiers| :: tiers[k].key == tiers[k].value.concurrency && tiers[k].value in curve)
    && (forall k, l | 0 <= k <= l < |tiers| :: tiers[k].key <= tiers[l].key)
    && (forall t | t in curve :: exists k :: 0 <= k < |tiers| && tiers[k].value == t)
  }

  lemma SortAscends(s: seq<Keyed<Tier>>)
    ensures forall k, l | 0 <= k <= l < |s| :: Sort(s)[k].key <= Sort(s)[l].key
  {
    SortKeys(s);
    SortRealsAscending(Keys(s));
    hide Sort, SortReals;
    var keys := Keys(Sort(s));
    assert Ascending(keys);
    forall k, l | 0 <= k <= l < |s| ensures Sort(s)[k].key <= Sort(s)[l].key {
      assert keys[k] <= keys[l];
    }
  }

  lemma TiersSorted(curve: seq<Tier>)
    ensures Sorted(curve, ByConcurrency(curve))
  {
    hide Sort, Labelled;
    var raw, tiers := Labelled(curve), ByConcurrency(curve);
    assert tiers == Sort(raw);
    hide ByConcurrency;
    SortAscends(raw);
    SameMembers(tiers, raw);
    forall k | 0 <= k < |tiers| ensures tiers[k].key == tiers[k].value.concurrency && tiers[k].value in curve {
      assert tiers[k] in raw;
    }
    forall t | t in curve ensures exists k :: 0 <= k < |tiers| && tiers[k].value == t {
      var k := SortedTiers(curve, t);
    }
  }

  lemma {:induction false} PeakIs(curve: seq<Tier>)
    requires curve != []
    ensures IsPeak(curve, ByConcurrency(curve)[PeakPosition(curve)].value)
  {
    TiersSorted(curve);
    hide PeakAt, ByConcurrency;
    var tiers, p := ByConcurrency(curve), PeakPosition(curve);
    forall t | t in curve
      ensures t.tps < tiers[p].value.tps || (t.tps == tiers[p].value.tps && tiers[p].value.concurrency <= t.concurrency)
    {
      var k :| 0 <= k < |tiers| && tiers[k].value == t;
      assert k >= p ==> tiers[p].key <= tiers[k].key;
    }
  }

  lemma OnePeak(curve: seq<Tier>, p: Tier, q: Tier)
    requires DistinctConcurrencies(curve) && IsPeak(curve, p) && IsPeak(curve, q)
    ensures p == q
  {
  }

  lemma UpToPeak(curve: seq<Tier>, tiers: seq<Keyed<Tier>>, p: nat, t: Tier)
    requires DistinctConcurrencies(curve) && Sorted(curve, tiers) && p < |tiers| && IsPeak(curve, tiers[p].value)
    ensures Rising(curve, t) <==> exists k :: 0 <= k <= p && tiers[k].value == t
  {
    if k :| 0 <= k <= p && tiers[k].value == t {
      assert tiers[k].key <= tiers[p].key;
    }
    if Rising(curve, t) {
      var peak :| IsPeak(curve, peak) && t.concurrency <= peak.concurrency;
      OnePeak(curve, peak, tiers[p].value);
      var k :| 0 <= k < |tiers| && tiers[k].value == t;
      if k > p {
        assert tiers[p].key <= tiers[k].key;
        assert tiers[p].value == t;
      }
    }
  }

  /** The position of the first tier to reach the greatest throughput. */
  function PeakPosition(curve: seq<Tier>): (p: nat)
    requires curve != []
    ensures p < |ByConcurrency(curve)|
  {
    PeakAt(ByConcurrency(curve), |curve| - 1)
  }

  lemma {:induction false} BranchIsSorted(curve: seq<Tier>)
    requires curve != []
    ensures Branch(curve) == Sort(PointsOf(ByConcurrency(curve)[..PeakPosition(curve) + 1]))
  {
    hide Sort, PeakAt, PointsOf, ByConcurrency;
  }

  lemma {:induction false} BranchPoints(curve: seq<Tier>, x: Point)
    requires curve != []
    ensures var tiers := ByConcurrency(curve);
      x in Branch(curve) <==> exists k :: 0 <= k <= PeakPosition(curve) && x == Keyed(tiers[k].value.tps, tiers[k].value.latency)
  {
    hide *;
    var tiers, p := ByConcurrency(curve), PeakPosition(curve);
    var points := PointsOf(tiers[..p + 1]);
    SameMembers(Sort(points), points);
    BranchIsSorted(curve);
    if x in points {
      var k :| 0 <= k < |points| && points[k] == x;
      assert x == Keyed(tiers[k].value.tps, tiers[k].value.latency);
    }
    if k :| 0 <= k <= p && x == Keyed(tiers[k].value.tps, tiers[k].value.latency) {
      assert points[k] == x;
    }
  }

  /** The branch holds the throughput and latency of the curve's tiers measured at no more than the
      concurrency of the first tier to reach the greatest throughput, and nothing else. */
  lemma {:induction false} BranchIs(curve: seq<Tier>, x: Point)
    requires curve != [] && DistinctConcurrencies(curve)
    ensures x in Branch(curve) <==> exists t :: Rising(curve, t) && t.tps == x.key && t.latency == x.value
  {
    hide *;
    var tiers, p := ByConcurrency(curve), PeakPosition(curve);
    TiersSorted(curve);
    PeakIs(curve);
    BranchPoints(curve, x);
    forall t ensures Rising(curve, t) <==> exists k :: 0 <= k <= p && tiers[k].value == t {
      UpToPeak(curve, tiers, p, t);
    }
    if x in Branch(curve) {
      var k :| 0 <= k <= p && x == Keyed(tiers[k].value.tps, tiers[k].value.latency);
      assert Rising(curve, tiers[k].value);
    }
  }

  /** A latency is given exactly where the throughput is reached by some tier of the curve, and lies at or
      above that of some tier measured at no more than the peak's concurrency. */
  lemma DefinedOnTiers(curve: seq<Tier>, tps: real)
    requires curve != [] && DistinctConcurrencies(curve)
    ensures Interpolate(curve, tps).Some? <==>
            exists t, u :: Rising(curve, t) && u in curve && t.tps <= tps <= u.tps
  {
    hide Branch, Interpolate, Rising, DistinctConcurrencies;
    DefinedIff(curve, tps);
    if p, q :| p in Branch(curve) && q in Branch(curve) && p.key <= tps <= q.key {
      BranchIs(curve, p);
      BranchIs(curve, q);
      var t :| Rising(curve, t) && t.tps == p.key;
      var u :| Rising(curve, u) && u.tps == q.key;
      RisingIn(curve, u);
    }
    if t, u :| Rising(curve, t) && u in curve && t.tps <= tps <= u.tps {
      var b := Branch(curve);
      BranchIs(curve, Keyed(t.tps, t.latency));
      BranchReachesPeak(curve);
      assert b[|b| - 1] in b && Keyed(t.tps, t.latency) in b;
    }
  }

  lemma RisingIn(curve: seq<Tier>, t: Tier)
    requires Rising(curve, t)
    ensures t in curve
  {
  }
}
