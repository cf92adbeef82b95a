/** Comparing two engines: latency interpolated on the rising branch of each engine's curve, and the
    points at which both were measured under the same throughput. */
module EngineComparison {
  import opened Numbers
  import opened Options
  import opened Ordering
  import opened Quantiles

  datatype Tier = Tier(concurrency: real, tps: real, latency: real)

  /** A throughput and the latency measured at it. */
  type Point = Keyed<real>

  // ----- The rising branch -----

  function Labelled(curve: seq<Tier>): (r: seq<Keyed<Tier>>)
    ensures |r| == |curve| && forall i | 0 <= i < |r| :: r[i] == Keyed(curve[i].concurrency, curve[i])
  {
    seq(|curve|, i requires 0 <= i < |curve| => Keyed(curve[i].concurrency, curve[i]))
  }

  function ByConcurrency(curve: seq<Tier>): (r: seq<Keyed<Tier>>)
    ensures |r| == |curve|
  {
    Sort(Labelled(curve))
  }

  /** The first position of the greatest throughput among the first n + 1 tiers. */
  function PeakAt(tiers: seq<Keyed<Tier>>, n: nat): (p: nat)
    requires n < |tiers|
    ensures p <= n
    ensures forall i | 0 <= i <= n :: tiers[i].value.tps <= tiers[p].value.tps
    ensures forall i | 0 <= i < p :: tiers[i].value.tps < tiers[p].value.tps
  {
    if n == 0 then 0
    else
      var p := PeakAt(tiers, n - 1);
      if tiers[n].value.tps > tiers[p].value.tps then n else p
  }

  function PointsOf(tiers: seq<Keyed<Tier>>): (r: seq<Point>)
    ensures |r| == |tiers|
    ensures forall i | 0 <= i < |r| :: r[i] == Keyed(tiers[i].value.tps, tiers[i].value.latency)
  {
    seq(|tiers|, i requires 0 <= i < |tiers| => Keyed(tiers[i].value.tps, tiers[i].value.latency))
  }

  /** The tiers up to the peak, by throughput. */
  function Branch(curve: seq<Tier>): (r: seq<Point>)
    requires curve != []
    ensures r != []
  {
    var tiers := ByConcurrency(curve);
    Sort(PointsOf(tiers[..PeakAt(tiers, |tiers| - 1) + 1]))
  }

  // ----- Interpolation -----

  function Line(a: Point, b: Point, tps: real): real {
    if b.key == a.key then a.value
    else a.value + (b.value - a.value) * (tps - a.key) / (b.key - a.key)
  }

  predicate Brackets(points: seq<Point>, i: nat, tps: real)
    requires i + 1 < |points|
  {
    points[i].key <= tps <= points[i + 1].key
  }

  /** The first pair of neighbours around the throughput decides. */
  function Scan(points: seq<Point>, i: nat, tps: real): real
    requires i < |points|
    decreases |points| - i
  {
    if i + 1 == |points| then points[i].value
    else if Brackets(points, i, tps) then Line(points[i], points[i + 1], tps)
    else Scan(points, i + 1, tps)
  }

  function At(points: seq<Point>, tps: real): Option<real>
    requires points != []
  {
    if tps < points[0].key || tps > points[|points| - 1].key then None
    else Some(Scan(points, 0, tps))
  }

  function Interpolate(curve: seq<Tier>, tps: real): Option<real>
    requires curve != []
  {
    At(Branch(curve), tps)
  }

  // ----- What interpolation gives -----

  ghost predicate ByKey(points: seq<Point>) {
    forall i, j | 0 <= i <= j < |points| :: points[i].key <= points[j].key
  }

  lemma SortByKey(s: seq<Point>)
    ensures ByKey(Sort(s))
  {
    SortKeys(s);
    SortRealsAscending(Keys(s));
    hide Sort, SortReals;
    var k := Keys(Sort(s));
    assert Ascending(k);
    forall i, j | 0 <= i <= j < |Sort(s)| ensures Sort(s)[i].key <= Sort(s)[j].key {
      assert k[i] <= k[j];
    }
  }

  lemma BranchByKey(curve: seq<Tier>)
    requires curve != []
    ensures ByKey(Branch(curve))
  {
    hide Sort, PointsOf, PeakAt, ByKey;
    var tiers := ByConcurrency(curve);
    SortByKey(PointsOf(tiers[..PeakAt(tiers, |tiers| - 1) + 1]));
  }

  /** A latency is given exactly between the least and the greatest throughput of the branch. */
  lemma DefinedIff(curve: seq<Tier>, tps: real)
    requires curve != []
    ensures Interpolate(curve, tps).Some? <==>
            exists p, q :: p in Branch(curve) && q in Branch(curve) && p.key <= tps <= q.key
  {
    hide Branch, At, ByKey;
    BranchByKey(curve);
    AtDefinedIff(Branch(curve), tps);
  }

  lemma AtDefinedIff(points: seq<Point>, tps: real)
    requires points != [] && ByKey(points)
    ensures At(points, tps).Some? <==> exists p, q :: p in points && q in points && p.key <= tps <= q.key
  {
    hide Scan;
    assert points[0] in points && points[|points| - 1] in points;
    forall p | p in points ensures points[0].key <= p.key <= points[|points| - 1].key {
      var i :| 0 <= i < |points| && points[i] == p;
    }
  }

  lemma SortedTiers(curve: seq<Tier>, t: Tier) returns (k: nat)
    requires t in curve
    ensures k < |ByConcurrency(curve)| && ByConcurrency(curve)[k].value == t
  {
    hide Sort;
    var raw := Labelled(curve);
    SameMembers(ByConcurrency(curve), raw);
    var i :| 0 <= i < |curve| && curve[i] == t;
    assert raw[i] in ByConcurrency(curve);
    k :| 0 <= k < |ByConcurrency(curve)| && ByConcurrency(curve)[k] == raw[i];
  }

  lemma PeakInBranch(curve: seq<Tier>)
    requires curve != []
    ensures var tiers := ByConcurrency(curve);
      exists x :: x in Branch(curve) && x.key == tiers[PeakAt(tiers, |tiers| - 1)].value.tps
  {
    hide Sort, PeakAt, ByConcurrency;
    var tiers := ByConcurrency(curve);
    var p := PeakAt(tiers, |tiers| - 1);
    var upTo := PointsOf(tiers[..p + 1]);
    SameMembers(Sort(upTo), upTo);
    assert upTo[p] in upTo;
    hide PointsOf;
    assert upTo[p] in Branch(curve);
  }

  /** The greatest throughput of the branch is that of the whole curve. */
  lemma BranchReachesPeak(curve: seq<Tier>)
    requires curve != []
    ensures forall t | t in curve :: t.tps <= Branch(curve)[|Branch(curve)| - 1].key
  {
    hide Branch, ByConcurrency, PeakAt;
    BranchByKey(curve);
    PeakInBranch(curve);
    var tiers, b := ByConcurrency(curve), Branch(curve);
    var p := PeakAt(tiers, |tiers| - 1);
    var x :| x in b && x.key == tiers[p].value.tps;
    var j :| 0 <= j < |b| && b[j] == x;
    forall t | t in curve ensures t.tps <= b[|b| - 1].key {
      var k := SortedTiers(curve, t);
      assert tiers[k].value.tps <= tiers[p].value.tps;
    }
  }

  lemma LineBetween(a: Point, b: Point, tps: real)
    requires a.key <= tps <= b.key
    ensures a.value <= b.value ==> a.value <= Line(a, b, tps) <= b.value
    ensures a.value >= b.value ==> a.value >= Line(a, b, tps) >= b.value
    ensures tps == a.key ==> Line(a, b, tps) == a.value
    ensures tps == b.key && a.key < b.key ==> Line(a, b, tps) == b.value
  {
    if a.key < b.key {
      var f := (tps - a.key) / (b.key - a.key);
      assert f * (b.key - a.key) == tps - a.key;
      Fraction(tps - a.key, b.key - a.key);
      LineIsPart(a, b, tps);
      hide Line, Part;
      Partly(b.value - a.value, f);
    }
  }

  lemma Fraction(x: real, d: real)
    requires 0.0 <= x <= d && d > 0.0
    ensures 0.0 <= x / d <= 1.0
    ensures x == 0.0 ==> x / d == 0.0
    ensures x == d ==> x / d == 1.0
  {
  }

  lemma LineIsPart(a: Point, b: Point, tps: real)
    requires a.key < b.key
    ensures Line(a, b, tps) == a.value + Part(b.value - a.value, (tps - a.key) / (b.key - a.key))
  {
  }

  /** A fraction of a rise, or of a fall. */
  lemma Partly(w: real, f: real)
    requires 0.0 <= f <= 1.0
    ensures w >= 0.0 ==> 0.0 <= Part(w, f) <= w
    ensures w <= 0.0 ==> w <= Part(w, f) <= 0.0
    ensures f == 0.0 ==> Part(w, f) == 0.0
    ensures f == 1.0 ==> Part(w, f) == w
  {
    if w >= 0.0 {
      NonNegativeProduct(w, f);
      NonNegativeProduct(w, 1.0 - f);
    } else {
      NonNegativeProduct(-w, f);
      NonNegativeProduct(-w, 1.0 - f);
    }
  }

  function Part(w: real, f: real): real {
    w * f
  }

  /** The bracket the scan settles on. */
  lemma {:induction false} ScanBracket(points: seq<Point>, i: nat, tps: real) returns (k: nat)
    requires ByKey(points) && i + 1 < |points| && points[i].key <= tps <= points[|points| - 1].key
    ensures i <= k && k + 1 < |points| && Brackets(points, k, tps)
    ensures Scan(points, i, tps) == Line(points[k], points[k + 1], tps)
    ensures forall j | i <= j < k :: !Brackets(points, j, tps)
    decreases |points| - i
  {
    hide Line;
    if Brackets(points, i, tps) {
      k := i;
    } else {
      k := ScanBracket(points, i + 1, tps);
    }
  }

  ghost predicate Between(x: real, y: real, z: real) {
    y <= x <= z || z <= x <= y
  }

  /** The latency on the straight line between the first two neighbours that bracket the throughput. */
  ghost predicate Interpolates(points: seq<Point>, k: int, tps: real, latency: real) {
    && 0 <= k < |points| - 1 && Brackets(points, k, tps) && (forall j | 0 <= j < k :: !Brackets(points, j, tps))
    && Between(latency, points[k].value, points[k + 1].value)
    && (points[k].key == points[k + 1].key ==> latency == points[k].value)
    && (latency - points[k].value) * (points[k + 1].key - points[k].key)
       == (points[k + 1].value - points[k].value) * (tps - points[k].key)
  }

  lemma LineIsLinear(a: Point, b: Point, tps: real)
    requires a.key <= tps <= b.key
    ensures a.key == b.key ==> Line(a, b, tps) == a.value
    ensures (Line(a, b, tps) - a.value) * (b.key - a.key) == (b.value - a.value) * (tps - a.key)
  {
    if a.key < b.key {
      LineIsPart(a, b, tps);
      hide Line;
      PartOfWhole(b.value - a.value, tps - a.key, b.key - a.key, Line(a, b, tps) - a.value);
    } else {
      NoProduct(Line(a, b, tps) - a.value, b.key - a.key);
      NoProduct(b.value - a.value, tps - a.key);
    }
  }

  lemma NoProduct(x: real, y: real)
    requires y == 0.0
    ensures x * y == 0.0
  {
  }

  lemma PartOfWhole(w: real, x: real, d: real, part: real)
    requires d > 0.0 && part == Part(w, x / d)
    ensures part * d == w * x
  {
    var f := x / d;
    assert f * d == x;
    assert part * d == w * (f * d);
  }

  /** An interpolated latency lies on the straight line between two neighbouring tiers that bracket the
      throughput, and so between their latencies. */
  lemma StaysBetween(curve: seq<Tier>, tps: real)
    requires curve != [] && Interpolate(curve, tps).Some?
    ensures var b, r := Branch(curve), Interpolate(curve, tps).value;
      if |b| == 1 then r == b[0].value else exists k :: Interpolates(b, k, tps, r)
  {
    BranchByKey(curve);
    hide Branch, Line, Interpolates;
    var b := Branch(curve);
    if |b| > 1 {
      var k := ScanBracket(b, 0, tps);
      LineInterpolates(b, k, tps);
    }
  }

  lemma LineInterpolates(points: seq<Point>, k: nat, tps: real)
    requires k + 1 < |points| && Brackets(points, k, tps) && forall j | 0 <= j < k :: !Brackets(points, j, tps)
    ensures Interpolates(points, k, tps, Line(points[k], points[k + 1], tps))
  {
    hide Line;
    LineBetween(points[k], points[k + 1], tps);
    LineIsLinear(points[k], points[k + 1], tps);
  }

  ghost predicate DistinctThroughputs(points: seq<Point>) {
    forall i, j | 0 <= i < j < |points| :: points[i].key != points[j].key
  }

  /** At a branch tier's own throughput the tier's own latency comes back. */
  lemma TierComesBack(curve: seq<Tier>, p: Point)
    requires curve != [] && p in Branch(curve) && DistinctThroughputs(Branch(curve))
    ensures Interpolate(curve, p.key) == Some(p.value)
  {
    hide Branch, At, ByKey, DistinctThroughputs;
    BranchByKey(curve);
    PointComesBack(Branch(curve), p);
  }

  lemma PointComesBack(points: seq<Point>, p: Point)
    requires p in points && ByKey(points) && DistinctThroughputs(points)
    ensures At(points, p.key) == Some(p.value)
  {
    hide Line, Scan, DistinctThroughputs;
    var i :| 0 <= i < |points| && points[i] == p;
    assert points[0].key <= points[i].key <= points[|points| - 1].key;
    hide ByKey;
    if |points| == 1 {
      LastScan(points, p.key);
    } else {
      var k := ScanBracket(points, 0, p.key);
      LineBetween(points[k], points[k + 1], p.key);
      AtBracket(points, i, k);
    }
  }

  lemma LastScan(points: seq<Point>, tps: real)
    requires |points| == 1
    ensures Scan(points, 0, tps) == points[0].value
  {
  }

  /** A bracket around a tier's own throughput has that tier at one of its ends. */
  lemma AtBracket(points: seq<Point>, i: nat, k: nat)
    requires ByKey(points) && DistinctThroughputs(points) && i < |points| && k + 1 < |points|
    requires Brackets(points, k, points[i].key)
    ensures i == k || (i == k + 1 && points[k].key < points[i].key)
  {
  }

  ghost predicate LatencyRises(points: seq<Point>) {
    forall i, j | 0 <= i <= j < |points| :: points[i].value <= points[j].value
  }

  lemma LineRises(a: Point, b: Point, t: real, u: real)
    requires a.key <= t <= u <= b.key && a.value <= b.value
    ensures Line(a, b, t) <= Line(a, b, u)
  {
    if a.key < b.key {
      LineIsPart(a, b, t);
      LineIsPart(a, b, u);
      var d := b.key - a.key;
      Ratio(t - a.key, u - a.key, d);
      Product(b.value - a.value, (t - a.key) / d, (u - a.key) / d);
    }
  }

  lemma Ratio(x: real, y: real, d: real)
    requires x <= y && d > 0.0
    ensures x / d <= y / d
  {
  }

  lemma Product(w: real, f: real, g: real)
    requires w >= 0.0 && f <= g
    ensures w * f <= w * g
  {
    assert 0.0 <= w * (g - f);
  }

  /** Where latency rises with throughput along the branch, so does the interpolation. */
  lemma InterpolationRises(curve: seq<Tier>, t: real, u: real)
    requires curve != [] && t <= u && LatencyRises(Branch(curve))
    requires Interpolate(curve, t).Some? && Interpolate(curve, u).Some?
    ensures Interpolate(curve, t).value <= Interpolate(curve, u).value
  {
    BranchByKey(curve);
    hide Branch, Line;
    var b := Branch(curve);
    if |b| > 1 {
      var k := ScanBracket(b, 0, t);
      var l := ScanBracket(b, 0, u);
      LineBetween(b[k], b[k + 1], t);
      LineBetween(b[l], b[l + 1], u);
      assert l < k ==> b[l + 1].key <= b[k].key && Brackets(b, l, t);
      if k == l {
        LineRises(b[k], b[k + 1], t, u);
      }
    }
  }

  // ----- Matched throughput -----

  function Throughputs(curve: seq<Tier>): (r: seq<real>)
    ensures |r| == |curve| && forall i | 0 <= i < |r| :: r[i] == curve[i].tps
  {
    seq(|curve|, i requires 0 <= i < |curve| => curve[i].tps)
  }

  function LowerEnd(a: seq<Tier>, b: seq<Tier>): real
    requires a != [] && b != []
  {
    var x, y := MinOf(Throughputs(a)), MinOf(Throughputs(b));
    if x >= y then x else y
  }

  function UpperEnd(a: seq<Tier>, b: seq<Tier>): real
    requires a != [] && b != []
  {
    var x, y := MaxOf(Throughputs(a)), MaxOf(Throughputs(b));
    if x <= y then x else y
  }

  /** Three decimals, halves to even. */
  function Round3(x: real): real {
    RoundHalfEven(x * 1000.0) as real / 1000.0
  }

  function Utilisation(tps: real, peak: real): Option<real> {
    if peak != 0.0 then Some(tps / peak) else None
  }

  /** The rounded distance of two utilisations; none when either is missing or zero. */
  function UtilisationGap(u: Option<real>, v: Option<real>): Option<real> {
    if u.Some? && u.value != 0.0 && v.Some? && v.value != 0.0
    then Some(Round3(if u.value >= v.value then u.value - v.value else v.value - u.value)) else None
  }

  datatype Match = Match(tps: real, first: real, second: real, gap: Option<real>)

  function MatchAt(a: seq<Tier>, b: seq<Tier>, tps: real): Option<Match>
    requires a != [] && b != []
  {
    var ya, yb := Interpolate(a, tps), Interpolate(b, tps);
    if !(LowerEnd(a, b) <= tps <= UpperEnd(a, b)) then None
    else if ya.None? || yb.None? || ya.value <= 0.0 then None
    else Some(Match(tps, ya.value, yb.value,
                    UtilisationGap(Utilisation(tps, MaxOf(Throughputs(a))), Utilisation(tps, MaxOf(Throughputs(b))))))
  }

  function Matches(a: seq<Tier>, b: seq<Tier>, candidates: seq<real>): seq<Match>
    requires a != [] && b != []
  {
    if candidates == [] then []
    else
      var n := |candidates| - 1;
      var m := MatchAt(a, b, candidates[n]);
      Matches(a, b, candidates[..n]) + if m.Some? then [m.value] else []
  }

  /** Every throughput measured in either engine, once, ascending. */
  function Candidates(a: seq<Tier>, b: seq<Tier>): seq<real> {
    Collapse(SortReals(Throughputs(a) + Throughputs(b)))
  }

  /** A point replaces the best so far when its gap is strictly less. */
  function Better(best: Option<Match>, m: Match): Option<Match> {
    if m.gap.Some? && (best.None? || best.value.gap.None? || m.gap.value < best.value.gap.value) then Some(m) else best
  }

  /** The first of the matches with the least gap. */
  function LeastConfounded(matches: seq<Match>): Option<Match> {
    if matches == [] then None
    else
      var n := |matches| - 1;
      Better(LeastConfounded(matches[..n]), matches[n])
  }

  method MatchedThroughput(a: seq<Tier>, b: seq<Tier>)
      returns (comparable: bool, points: seq<Match>, least: Option<Match>)
    requires a != [] && b != []
    ensures points == if LowerEnd(a, b) > UpperEnd(a, b) then [] else Matches(a, b, Candidates(a, b))
    ensures comparable <==> points != []
    ensures least == LeastConfounded(points)
  {
    hide Interpolate, Candidates, UtilisationGap, Utilisation, LeastConfounded;
    points, comparable, least := [], false, None;
    var lo, hi := LowerEnd(a, b), UpperEnd(a, b);
    if lo > hi {
      LeastOfNone();
      return;
    }
    var candidates := Candidates(a, b);
    var i := 0;
    while i < |candidates|
      invariant 0 <= i <= |candidates| && points == Matches(a, b, candidates[..i])
    {
      var tps := candidates[i];
      assert candidates[..i + 1][..i] == candidates[..i];
      i := i + 1;
      if !(lo <= tps <= hi) {
        assert points + [] == points;
        continue;
      }
      var ya, yb := Interpolate(a, tps), Interpolate(b, tps);
      if ya.None? || yb.None? || ya.value <= 0.0 {
        assert points + [] == points;
        continue;
      }
      var u, v := Utilisation(tps, MaxOf(Throughputs(a))), Utilisation(tps, MaxOf(Throughputs(b)));
      points := points + [Match(tps, ya.value, yb.value, UtilisationGap(u, v))];
    }
    assert candidates[..i] == candidates;
    comparable := points != [];
    least := FindLeastConfounded(points);
  }

  lemma LeastOfNone()
    ensures LeastConfounded([]) == None
  {
  }

  method FindLeastConfounded(matches: seq<Match>) returns (best: Option<Match>)
    ensures best == LeastConfounded(matches)
  {
    best := None;
    var i := 0;
    while i < |matches|
      invariant 0 <= i <= |matches| && best == LeastConfounded(matches[..i])
    {
      var m := matches[i];
      assert matches[..i + 1][..i] == matches[..i];
      if m.gap.Some? && (best.None? || best.value.gap.None? || m.gap.value < best.value.gap.value) {
        best := Some(m);
      }
      i := i + 1;
    }
    assert matches[..i] == matches;
  }

  // ----- The least confounded point -----

  lemma RoundMonotone(x: real, y: real)
    requires x <= y
    ensures Round3(x) <= Round3(y)
  {
    HalfEvenMonotone(x * 1000.0, y * 1000.0);
  }

  lemma HalfEvenMonotone(x: real, y: real)
    requires x <= y
    ensures RoundHalfEven(x) <= RoundHalfEven(y)
  {
  }

  function Distance(tps: real, p: real, q: real): real
    requires p > 0.0 && q > 0.0
  {
    if tps / p >= tps / q then tps / p - tps / q else tps / q - tps / p
  }

  lemma Inverse(t: real, p: real)
    requires p > 0.0
    ensures t / p == Part(t, 1.0 / p)
  {
  }

  lemma PartRises(t: real, u: real, g: real)
    requires t <= u && g >= 0.0
    ensures Part(t, g) <= Part(u, g)
  {
    NonNegativeProduct(u - t, g);
  }

  lemma PartLess(t: real, x: real, y: real)
    requires t >= 0.0 && y <= x
    ensures Part(t, x - y) == Part(t, x) - Part(t, y)
    ensures Part(t, y) <= Part(t, x)
  {
    NonNegativeProduct(t, x - y);
  }

  function Apart(x: real, y: real): real {
    if x >= y then x - y else y - x
  }

  /** The distance of two utilisations is proportional to the throughput. */
  lemma DistanceIs(t: real, p: real, q: real)
    requires 0.0 <= t && p > 0.0 && q > 0.0
    ensures Distance(t, p, q) == Part(t, Apart(1.0 / p, 1.0 / q))
  {
    hide Part;
    var x, y := 1.0 / p, 1.0 / q;
    Inverse(t, p);
    Inverse(t, q);
    if x >= y {
      PartLess(t, x, y);
    } else {
      PartLess(t, y, x);
    }
  }

  lemma DistanceRises(t: real, u: real, p: real, q: real)
    requires 0.0 <= t <= u && p > 0.0 && q > 0.0
    ensures Distance(t, p, q) <= Distance(u, p, q)
  {
    hide Distance, Part;
    DistanceIs(t, p, q);
    DistanceIs(u, p, q);
    PartRises(t, u, Apart(1.0 / p, 1.0 / q));
  }

  lemma GapIs(a: seq<Tier>, b: seq<Tier>, tps: real)
    requires a != [] && b != [] && tps >= 0.0 && MatchAt(a, b, tps).Some?
    ensures var gap, p, q := MatchAt(a, b, tps).value.gap, MaxOf(Throughputs(a)), MaxOf(Throughputs(b));
      if tps == 0.0 then gap == None else p > 0.0 && q > 0.0 && gap == Some(Round3(Distance(tps, p, q)))
  {
    hide Interpolate, MaxOf, MinOf, Round3, Throughputs;
    if tps > 0.0 {
      Quotient(tps, MaxOf(Throughputs(a)));
      Quotient(tps, MaxOf(Throughputs(b)));
    }
  }

  lemma Quotient(x: real, d: real)
    requires x > 0.0 && d > 0.0
    ensures x / d > 0.0
  {
  }

  ghost predicate NonNegative(curve: seq<Tier>) {
    forall t | t in curve :: t.tps >= 0.0
  }

  ghost predicate TpsAscend(matches: seq<Match>) {
    forall i, j | 0 <= i < j < |matches| :: matches[i].tps < matches[j].tps
  }

  /** The points of ascending candidates: their throughputs ascend, and so do their gaps. */
  lemma {:induction false} MatchesAscend(a: seq<Tier>, b: seq<Tier>, c: seq<real>)
    requires a != [] && b != []
    requires forall i, j | 0 <= i < j < |c| :: c[i] < c[j]
    ensures forall m | m in Matches(a, b, c) :: m.tps in c && Some(m) == MatchAt(a, b, m.tps)
    ensures TpsAscend(Matches(a, b, c))
  {
    hide MatchAt;
    if c != [] {
      var n := |c| - 1;
      MatchesAscend(a, b, c[..n]);
      MatchTps(a, b, c[n]);
      var before := Matches(a, b, c[..n]);
      forall i | 0 <= i < |before| ensures before[i].tps < c[n] {
        assert before[i] in before;
      }
    }
  }

  lemma MatchTps(a: seq<Tier>, b: seq<Tier>, tps: real)
    requires a != [] && b != []
    ensures MatchAt(a, b, tps).Some? ==> MatchAt(a, b, tps).value.tps == tps
  {
    hide Interpolate, LowerEnd, UpperEnd, UtilisationGap, Utilisation;
  }

  lemma CandidatesAscend(a: seq<Tier>, b: seq<Tier>)
    requires NonNegative(a) && NonNegative(b)
    ensures var c := Candidates(a, b); forall i, j | 0 <= i < j < |c| :: c[i] < c[j]
    ensures forall x | x in Candidates(a, b) :: x >= 0.0
  {
    hide SortReals, Collapse;
    var s := Throughputs(a) + Throughputs(b);
    SortRealsAscending(s);
    CollapseAscends(SortReals(s));
    SameMembers(SortReals(s), s);
    forall x | x in Candidates(a, b) ensures x >= 0.0 {
      assert x in s;
      var i :| 0 <= i < |s| && s[i] == x;
      assert if i < |a| then a[i] in a else b[i - |a|] in b;
    }
  }

  lemma GapRises(a: seq<Tier>, b: seq<Tier>, t: real, u: real)
    requires a != [] && b != [] && 0.0 < t <= u && MatchAt(a, b, t).Some? && MatchAt(a, b, u).Some?
    ensures MatchAt(a, b, t).value.gap.Some? && MatchAt(a, b, u).value.gap.Some?
    ensures MatchAt(a, b, t).value.gap.value <= MatchAt(a, b, u).value.gap.value
  {
    hide MatchAt, Round3, Distance;
    GapIs(a, b, t);
    GapIs(a, b, u);
    var p, q := MaxOf(Throughputs(a)), MaxOf(Throughputs(b));
    DistanceRises(t, u, p, q);
    RoundMonotone(Distance(t, p, q), Distance(u, p, q));
  }

  /** Where throughputs ascend and gaps never fall, the least gap is at the first point that has one. */
  ghost predicate Confounded(matches: seq<Match>) {
    && (forall m | m in matches :: m.gap.Some? <==> m.tps > 0.0)
    && forall i, j | 0 <= i < j < |matches| && matches[i].tps > 0.0 && matches[j].tps > 0.0 ::
         matches[i].tps < matches[j].tps && matches[i].gap.value <= matches[j].gap.value
  }

  ghost predicate LowestLoaded(matches: seq<Match>, least: Option<Match>) {
    && (least.Some? <==> exists m :: m in matches && m.tps > 0.0)
    && (least.Some? ==> least.value in matches && least.value.tps > 0.0 &&
                        forall m | m in matches && m.tps > 0.0 :: least.value.tps <= m.tps)
  }

  lemma ConfoundedPrefix(matches: seq<Match>)
    requires Confounded(matches) && matches != []
    ensures Confounded(matches[..|matches| - 1])
  {
    var less := matches[..|matches| - 1];
    forall m | m in less ensures m.gap.Some? <==> m.tps > 0.0 {
      assert m in matches;
    }
  }

  /** An eligible point after an eligible point has the larger throughput and no smaller gap. */
  lemma LastIsHighest(matches: seq<Match>, m: Match)
    requires Confounded(matches) && matches != [] && m in matches[..|matches| - 1]
    requires m.tps > 0.0 && matches[|matches| - 1].tps > 0.0
    ensures m.gap.Some? && matches[|matches| - 1].gap.Some?
    ensures m.tps < matches[|matches| - 1].tps && m.gap.value <= matches[|matches| - 1].gap.value
  {
    var n := |matches| - 1;
    assert matches[n] in matches;
    var i :| 0 <= i < n && matches[..n][i] == m;
    assert matches[i] == m && m in matches;
  }

  lemma LowestStep(less: seq<Match>, last: Match, best: Option<Match>)
    requires LowestLoaded(less, best)
    requires last.tps > 0.0 && best.Some? ==> best.value.tps <= last.tps
    ensures LowestLoaded(less + [last], if last.tps > 0.0 && best.None? then Some(last) else best)
  {
    assert forall m :: m in less + [last] <==> m in less || m == last;
  }

  lemma LeastStep(matches: seq<Match>)
    requires Confounded(matches) && matches != []
    requires LowestLoaded(matches[..|matches| - 1], LeastConfounded(matches[..|matches| - 1]))
    ensures LowestLoaded(matches, LeastConfounded(matches))
  {
    hide *;
    var n := |matches| - 1;
    var less, last := matches[..n], matches[n];
    var best := LeastConfounded(less);
    assert matches == less + [last];
    BetterIs(matches, best);
    LowestStep(less, last, best);
    LeastUnfolds(matches);
  }

  lemma LeastUnfolds(matches: seq<Match>)
    requires matches != []
    ensures LeastConfounded(matches) == Better(LeastConfounded(matches[..|matches| - 1]), matches[|matches| - 1])
  {
  }

  lemma BetterIs(matches: seq<Match>, best: Option<Match>)
    requires Confounded(matches) && matches != [] && LowestLoaded(matches[..|matches| - 1], best)
    ensures var last := matches[|matches| - 1];
      && (last.tps > 0.0 && best.Some? ==> best.value.tps <= last.tps)
      && Better(best, last) == if last.tps > 0.0 && best.None? then Some(last) else best
  {
    var last := matches[|matches| - 1];
    assert last in matches && (last.gap.Some? <==> last.tps > 0.0);
    if best.Some? && last.tps > 0.0 {
      LastIsHighest(matches, best.value);
    }
  }

  lemma {:induction false} LeastIsFirst(matches: seq<Match>)
    requires Confounded(matches)
    ensures LowestLoaded(matches, LeastConfounded(matches))
  {
    if matches != [] {
      hide Confounded, LowestLoaded, LeastConfounded;
      ConfoundedPrefix(matches);
      LeastIsFirst(matches[..|matches| - 1]);
      LeastStep(matches);
    }
  }

  /** The least confounded point is always the lowest load at which both engines did any work: the gap in
      utilisation grows with throughput, and rounding keeps its order. */
  lemma LeastConfoundedIsLowest(a: seq<Tier>, b: seq<Tier>)
    requires a != [] && b != [] && NonNegative(a) && NonNegative(b)
    ensures var points := Matches(a, b, Candidates(a, b)); LowestLoaded(points, LeastConfounded(points))
  {
    hide MatchAt, Candidates, NonNegative, LowestLoaded, LeastConfounded, Matches;
    CandidatesAscend(a, b);
    var c := Candidates(a, b);
    var points := Matches(a, b, c);
    MatchesAscend(a, b, c);
    forall m | m in points ensures m.gap.Some? <==> m.tps > 0.0 {
      GapIs(a, b, m.tps);
    }
    forall i, j | 0 <= i < j < |points| && points[i].tps > 0.0 && points[j].tps > 0.0
      ensures points[i].tps < points[j].tps && points[i].gap.value <= points[j].gap.value
    {
      assert points[i] in points && points[j] in points;
      GapRises(a, b, points[i].tps, points[j].tps);
    }
    LeastIsFirst(points);
  }

  lemma {:induction false} MatchesHold(a: seq<Tier>, b: seq<Tier>, c: seq<real>, m: Match)
    requires a != [] && b != []
    ensures m in Matches(a, b, c) <==> exists x :: x in c && MatchAt(a, b, x) == Some(m)
  {
    hide MatchAt;
    if c != [] {
      var n := |c| - 1;
      MatchesHold(a, b, c[..n], m);
      assert forall x :: x in c <==> x in c[..n] || x == c[n] by {
        assert c == c[..n] + [c[n]];
      }
    }
  }

  lemma CandidatesAre(a: seq<Tier>, b: seq<Tier>, x: real)
    ensures x in Candidates(a, b) <==> exists t :: (t in a || t in b) && t.tps == x
  {
    hide SortReals, Collapse;
    var s := Throughputs(a) + Throughputs(b);
    SortRealsAscending(s);
    CollapseAscends(SortReals(s));
    SameMembers(SortReals(s), s);
    if x in s {
      var i :| 0 <= i < |s| && s[i] == x;
      assert if i < |a| then a[i] in a && a[i].tps == x else b[i - |a|] in b && b[i - |a|].tps == x;
    }
    if t :| (t in a || t in b) && t.tps == x {
      if t in a {
        var i :| 0 <= i < |a| && a[i] == t;
        assert s[i] == x;
      } else {
        var i :| 0 <= i < |b| && b[i] == t;
        assert s[|a| + i] == x;
      }
    }
  }

  lemma BranchFromCurve(curve: seq<Tier>, p: Point)
    requires curve != [] && p in Branch(curve)
    ensures exists t :: t in curve && t.tps == p.key
  {
    hide Sort, PeakAt;
    var raw := Labelled(curve);
    var tiers := ByConcurrency(curve);
    var upTo := PointsOf(tiers[..PeakAt(tiers, |tiers| - 1) + 1]);
    SameMembers(Sort(upTo), upTo);
    var i :| 0 <= i < |upTo| && upTo[i] == p;
    SameMembers(tiers, raw);
    assert tiers[i] in raw;
    var k :| 0 <= k < |raw| && raw[k] == tiers[i];
    assert curve[k] in curve;
  }

  lemma ThroughputIn(curve: seq<Tier>, x: real)
    requires exists t :: t in curve && t.tps == x
    ensures x in Throughputs(curve)
  {
    var t :| t in curve && t.tps == x;
    var i :| 0 <= i < |curve| && curve[i] == t;
    assert Throughputs(curve)[i] == x;
  }

  function Peak(curve: seq<Tier>): real
    requires curve != []
  {
    MaxOf(Throughputs(curve))
  }

  lemma BranchWithin(curve: seq<Tier>, p: Point)
    requires curve != [] && p in Branch(curve)
    ensures MinOf(Throughputs(curve)) <= p.key <= Peak(curve)
  {
    hide Branch, MinOf, MaxOf, Throughputs;
    BranchFromCurve(curve, p);
    ThroughputIn(curve, p.key);
  }

  lemma PeakIsReached(curve: seq<Tier>)
    requires curve != []
    ensures exists t :: t in curve && t.tps == Peak(curve)
  {
    hide MaxOf;
    var i :| 0 <= i < |curve| && Throughputs(curve)[i] == Peak(curve);
    assert curve[i] in curve;
  }

  lemma BranchEnds(curve: seq<Tier>)
    requires curve != []
    ensures var b := Branch(curve); b[|b| - 1].key == Peak(curve) && b[0].key >= MinOf(Throughputs(curve))
  {
    hide *;
    var b := Branch(curve);
    BranchReachesPeak(curve);
    PeakIsReached(curve);
    BranchWithin(curve, b[0]);
    BranchWithin(curve, b[|b| - 1]);
  }

  lemma ReachedIff(curve: seq<Tier>, tps: real)
    requires curve != []
    ensures Interpolate(curve, tps).Some? <==> Branch(curve)[0].key <= tps <= Peak(curve)
  {
    BranchEnds(curve);
    hide Branch, Scan, Peak;
  }

  lemma CommonRange(a: seq<Tier>, b: seq<Tier>, tps: real)
    requires a != [] && b != []
    ensures tps <= UpperEnd(a, b) <==> tps <= Peak(a) && tps <= Peak(b)
    ensures tps >= LowerEnd(a, b) <==> tps >= MinOf(Throughputs(a)) && tps >= MinOf(Throughputs(b))
  {
    hide MinOf, MaxOf, Throughputs;
  }

  /** A throughput up to the end of the common range gives a point exactly when both rising branches reach
      down to it and the first engine's latency there is positive: within the range it fails exactly below
      the start of a branch, where the falling part of that curve set the range. The point carries both
      engines' interpolated latencies. */
  lemma MatchedIff(a: seq<Tier>, b: seq<Tier>, tps: real)
    requires a != [] && b != []
    ensures MatchAt(a, b, tps).Some? <==>
              && Branch(a)[0].key <= tps && Branch(b)[0].key <= tps && tps <= UpperEnd(a, b)
              && Interpolate(a, tps).Some? && Interpolate(a, tps).value > 0.0
    ensures tps <= UpperEnd(a, b) ==> (Interpolate(a, tps).Some? <==> Branch(a)[0].key <= tps)
    ensures MatchAt(a, b, tps).Some? ==>
              var m := MatchAt(a, b, tps).value;
              m.tps == tps && Some(m.first) == Interpolate(a, tps) && Some(m.second) == Interpolate(b, tps)
  {
    hide Interpolate, Branch, MinOf, Peak, UtilisationGap, Utilisation, Throughputs, UpperEnd, LowerEnd;
    ReachedIff(a, tps);
    ReachedIff(b, tps);
    BranchEnds(a);
    BranchEnds(b);
    CommonRange(a, b, tps);
  }

  /** The points are those of every throughput measured in either engine, and nothing else. */
  lemma PointsAre(a: seq<Tier>, b: seq<Tier>, m: Match)
    requires a != [] && b != []
    ensures m in Matches(a, b, Candidates(a, b)) <==>
            MatchAt(a, b, m.tps) == Some(m) && exists t :: (t in a || t in b) && t.tps == m.tps
  {
    hide MatchAt, Candidates, Matches;
    MatchesHold(a, b, Candidates(a, b), m);
    CandidatesAre(a, b, m.tps);
    forall x | MatchAt(a, b, x) == Some(m) ensures x == m.tps {
      MatchTps(a, b, x);
    }
  }

  /** Curves whose ranges do not overlap have no point anyway. */
  lemma NoOverlapNoPoint(a: seq<Tier>, b: seq<Tier>)
    requires a != [] && b != [] && LowerEnd(a, b) > UpperEnd(a, b)
    ensures Matches(a, b, Candidates(a, b)) == []
  {
    hide Candidates, Matches, Interpolate, MinOf, MaxOf, Throughputs, UtilisationGap, Utilisation;
    var r := Matches(a, b, Candidates(a, b));
    if r != [] {
      MatchesHold(a, b, Candidates(a, b), r[0]);
    }
  }

  /** The common range is taken from whole curves but only rising branches are interpolated: past the peak
      a tier may lie in the range and still give no point. */
  lemma RangeIsNotCoverage()
    ensures var a := [Tier(1.0, 50.0, 1.0), Tier(2.0, 100.0, 2.0), Tier(3.0, 10.0, 3.0)];
      LowerEnd(a, a) == 10.0 && UpperEnd(a, a) == 100.0 && Interpolate(a, 10.0) == None
  {
    var a := [Tier(1.0, 50.0, 1.0), Tier(2.0, 100.0, 2.0), Tier(3.0, 10.0, 3.0)];
    EndsOf(a);
    FallingBranch(a);
  }

  lemma EndsOf(a: seq<Tier>)
    requires |a| == 3 && a[0].tps == 50.0 && a[1].tps == 100.0 && a[2].tps == 10.0
    ensures LowerEnd(a, a) == 10.0 && UpperEnd(a, a) == 100.0
  {
    hide MinOf, MaxOf;
    var s := Throughputs(a);
    assert s[0] in s && s[1] in s && s[2] in s;
  }

  lemma FallingBranch(a: seq<Tier>)
    requires |a| == 3 && a[0].tps == 50.0 && a[1].tps == 100.0 && a[2].tps == 10.0
    requires a[0].concurrency < a[1].concurrency < a[2].concurrency
    ensures Interpolate(a, 10.0) == None
  {
    var raw := seq(|a|, i requires 0 <= i < |a| => Keyed(a[i].concurrency, a[i]));
    SortedStays(raw);
    var tiers := ByConcurrency(a);
    assert tiers == raw;
    var p := PeakAt(tiers, 2);
    assert p == 1;
    var upTo := PointsOf(tiers[..2]);
    hide Sort, PeakAt, Scan;
    SameMembers(Sort(upTo), upTo);
    assert Branch(a)[0] in upTo;
  }

  lemma SortedStays(s: seq<Keyed<Tier>>)
    requires |s| == 3 && s[0].key < s[1].key < s[2].key
    ensures Sort(s) == s
  {
    var r := Sort(s);
    SortKeys(s);
    SortRealsAscending(Keys(s));
    hide Sort, SortReals;
    assert Ascending(Keys(s));
    AscendingUnique(SortReals(Keys(s)), Keys(s));
    SameMembers(r, s);
    forall i | 0 <= i < 3 ensures r[i] == s[i] {
      assert r[i] in r && Keys(r)[i] == Keys(s)[i];
    }
  }

  // ----- The figures of a point -----

  /** A number of three decimals. */
  ghost predicate ThreeDecimals(x: real) {
    exists k :: x == Mark(k, 0.001)
  }

  lemma Round3Is(x: real)
    ensures -0.0005 <= Round3(x) - x <= 0.0005 && ThreeDecimals(Round3(x))
  {
    var k := RoundHalfEven(x * 1000.0);
    hide RoundHalfEven;
    assert Round3(x) == Mark(k, 0.001);
  }

  /** The gap is the distance of the throughput's shares of the two peaks, to three decimals; only a
      throughput of zero has none. */
  lemma GapMeans(a: seq<Tier>, b: seq<Tier>, tps: real)
    requires a != [] && b != [] && tps >= 0.0 && MatchAt(a, b, tps).Some?
    ensures var gap, p, q := MatchAt(a, b, tps).value.gap, Peak(a), Peak(b);
      && (gap.None? <==> tps == 0.0)
      && (tps > 0.0 ==>
            && p > 0.0 && q > 0.0 && ThreeDecimals(gap.value)
            && var apart := if tps / p >= tps / q then tps / p - tps / q else tps / q - tps / p;
               apart - 0.0005 <= gap.value <= apart + 0.0005)
  {
    GapIs(a, b, tps);
    hide MatchAt, Round3, MaxOf, Throughputs;
    if tps > 0.0 {
      Round3Is(Distance(tps, Peak(a), Peak(b)));
    }
  }

  /** Match i has the least of the gaps, and no earlier one has it too. */
  ghost predicate FirstLeast(matches: seq<Match>, i: int) {
    && 0 <= i < |matches| && matches[i].gap.Some?
    && forall j | 0 <= j < |matches| && matches[j].gap.Some? ::
         matches[i].gap.value <= matches[j].gap.value && (j < i ==> matches[i].gap.value < matches[j].gap.value)
  }

  /** The least confounded point, of any list: the first with the least gap, if one has a gap. */
  lemma {:induction false} LeastConfoundedIs(matches: seq<Match>)
    ensures var r := LeastConfounded(matches);
      if r.Some? then exists i :: FirstLeast(matches, i) && matches[i] == r.value
      else forall m | m in matches :: m.gap.None?
  {
    if matches != [] {
      var n := |matches| - 1;
      LeastConfoundedIs(matches[..n]);
      LeastUnfolds(matches);
      hide LeastConfounded;
      var before := LeastConfounded(matches[..n]);
      assert matches == matches[..n] + [matches[n]];
      if before.None? {
        assert forall j | 0 <= j < n :: matches[j] in matches[..n];
        assert matches[n].gap.Some? ==> FirstLeast(matches, n);
      } else {
        var i :| FirstLeast(matches[..n], i) && matches[..n][i] == before.value;
        assert forall j | 0 <= j < n :: matches[..n][j] == matches[j];
        assert FirstLeast(matches, if Better(before, matches[n]) == before then i else n);
      }
    }
  }

  /** The points come in order of throughput, each once. */
  lemma PointsAscend(a: seq<Tier>, b: seq<Tier>)
    requires a != [] && b != []
    ensures TpsAscend(Matches(a, b, Candidates(a, b)))
  {
    var s := Throughputs(a) + Throughputs(b);
    SortRealsAscending(s);
    CollapseAscends(SortReals(s));
    assert Candidates(a, b) == Collapse(SortReals(s));
    hide *;
    MatchesAscend(a, b, Candidates(a, b));
  }
}
