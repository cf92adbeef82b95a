/** The two engines compared at equal fractions of their own peaks. */
module MatchedUtilisation {
  import opened Numbers
  import opened Options
  import opened Ordering
  import opened EngineComparison

  function Ratios(curve: seq<Tier>, peak: real): (r: seq<real>)
    requires peak != 0.0
    ensures |r| == |curve| && forall i | 0 <= i < |r| :: r[i] == curve[i].tps / peak
  {
    seq(|curve|, i requires 0 <= i < |curve| => curve[i].tps / peak)
  }

  // ----- Levels -----

  /** A level: its rounded label, and the exact ratio it stands for. */
  type Level = Keyed<real>

  predicate Labelled(levels: seq<Level>, key: real) {
    exists i | 0 <= i < |levels| :: levels[i].key == key
  }

  /** Python's `setdefault`. */
  function SetDefault(levels: seq<Level>, exact: real): seq<Level> {
    if Labelled(levels, Round3(exact)) then levels else levels + [Keyed(Round3(exact), exact)]
  }

  function Levels(ratios: seq<real>): seq<Level> {
    if ratios == [] then [] else SetDefault(Levels(ratios[..|ratios| - 1]), ratios[|ratios| - 1])
  }

  /** The first of the ratios with its label. */
  ghost predicate FirstOfLabel(ratios: seq<real>, i: nat, p: Level) {
    i < |ratios| && p == Keyed(Round3(ratios[i]), ratios[i]) && forall j | 0 <= j < i :: Round3(ratios[j]) != p.key
  }

  /** A level stands for the first measured ratio with its label, exactly, and every label is kept. */
  lemma {:induction false} LevelsAre(ratios: seq<real>)
    ensures forall p :: p in Levels(ratios) <==> exists i: nat :: FirstOfLabel(ratios, i, p)
    ensures forall i | 0 <= i < |ratios| :: Labelled(Levels(ratios), Round3(ratios[i]))
  {
    if ratios != [] {
      hide Round3, Labelled;
      var n := |ratios| - 1;
      var less, last := ratios[..n], ratios[n];
      LevelsAre(less);
      OneMoreLevel(less, last);
      assert ratios == less + [last];
    }
  }

  lemma OneMoreLevel(less: seq<real>, last: real)
    requires forall p :: p in Levels(less) <==> exists i: nat :: FirstOfLabel(less, i, p)
    requires forall i | 0 <= i < |less| :: Labelled(Levels(less), Round3(less[i]))
    ensures var all := less + [last];
      && (forall p :: p in Levels(all) <==> exists i: nat :: FirstOfLabel(all, i, p))
      && (forall i | 0 <= i < |all| :: Labelled(Levels(all), Round3(all[i])))
  {
    hide Round3;
    var all, levels := less + [last], Levels(less);
    assert all[..|less|] == less;
    var new_ := Keyed(Round3(last), last);
    assert Levels(all) == SetDefault(levels, last);
    LabelledIff(less, Round3(last));
    assert forall p :: p in Levels(all) <==> p in levels || (p == new_ && !Labelled(levels, Round3(last)));
    forall p ensures (exists i: nat :: FirstOfLabel(all, i, p)) <==>
        p in levels || (p == new_ && !Labelled(levels, Round3(last)))
    {
      FirstOfMore(less, last, p);
    }
    forall i | 0 <= i < |all| ensures Labelled(Levels(all), Round3(all[i])) {
      if i < |less| {
        assert Labelled(levels, Round3(less[i]));
        var k :| 0 <= k < |levels| && levels[k].key == Round3(less[i]);
        assert Levels(all)[k].key == Round3(all[i]);
      } else if !Labelled(levels, Round3(last)) {
        assert Levels(all)[|levels|].key == Round3(last);
      }
    }
  }

  lemma LabelledIff(ratios: seq<real>, key: real)
    requires forall p :: p in Levels(ratios) <==> exists i: nat :: FirstOfLabel(ratios, i, p)
    requires forall i | 0 <= i < |ratios| :: Labelled(Levels(ratios), Round3(ratios[i]))
    ensures Labelled(Levels(ratios), key) <==> exists i :: 0 <= i < |ratios| && Round3(ratios[i]) == key
  {
    hide Round3, Levels;
    if Labelled(Levels(ratios), key) {
      var k :| 0 <= k < |Levels(ratios)| && Levels(ratios)[k].key == key;
      assert Levels(ratios)[k] in Levels(ratios);
      var i :| FirstOfLabel(ratios, i, Levels(ratios)[k]);
    }
  }

  lemma FirstOfMore(less: seq<real>, last: real, p: Level)
    requires forall p :: p in Levels(less) <==> exists i: nat :: FirstOfLabel(less, i, p)
    requires Labelled(Levels(less), Round3(last)) <==> exists i :: 0 <= i < |less| && Round3(less[i]) == Round3(last)
    ensures (exists i: nat :: FirstOfLabel(less + [last], i, p)) <==>
            p in Levels(less) || (p == Keyed(Round3(last), last) && !Labelled(Levels(less), Round3(last)))
  {
    hide Round3, Levels, Labelled;
    var all, n := less + [last], |less|;
    assert forall j | 0 <= j < n :: all[j] == less[j] && Round3(all[j]) == Round3(less[j]);
    forall i: nat | i < n ensures FirstOfLabel(all, i, p) <==> FirstOfLabel(less, i, p) {
      if FirstOfLabel(all, i, p) {
        assert forall j | 0 <= j < i :: Round3(less[j]) == Round3(all[j]);
      }
    }
    if p == Keyed(Round3(last), last) && !Labelled(Levels(less), Round3(last)) {
      assert FirstOfLabel(all, n, p);
    }
    if i: nat :| FirstOfLabel(all, i, p) {
      assert i < n ==> FirstOfLabel(less, i, p);
    }
  }

  // ----- Points -----

  datatype Comparison = Comparison(level: real, firstTps: real, secondTps: real, first: real, second: real)

  /** The throughput at a level. */
  function TpsAt(u: real, peak: real): real {
    u * peak
  }

  function LowestLevel(a: seq<Tier>, b: seq<Tier>): real
    requires a != [] && b != [] && Peak(a) != 0.0 && Peak(b) != 0.0
  {
    var x, y := MinOf(Throughputs(a)) / Peak(a), MinOf(Throughputs(b)) / Peak(b);
    if x >= y then x else y
  }

  function CompareAt(a: seq<Tier>, b: seq<Tier>, u: real): Option<Comparison>
    requires a != [] && b != [] && Peak(a) != 0.0 && Peak(b) != 0.0
  {
    var ta, tb := TpsAt(u, Peak(a)), TpsAt(u, Peak(b));
    var ya, yb := Interpolate(a, ta), Interpolate(b, tb);
    if !(LowestLevel(a, b) <= u <= 1.0) then None
    else if ya.None? || yb.None? || ya.value <= 0.0 then None
    else Some(Comparison(u, ta, tb, ya.value, yb.value))
  }

  function Comparisons(a: seq<Tier>, b: seq<Tier>, levels: seq<Level>): seq<Comparison>
    requires a != [] && b != [] && Peak(a) != 0.0 && Peak(b) != 0.0
  {
    if levels == [] then []
    else
      var n := |levels| - 1;
      var c := CompareAt(a, b, levels[n].value);
      Comparisons(a, b, levels[..n]) + if c.Some? then [c.value] else []
  }

  function AllLevels(a: seq<Tier>, b: seq<Tier>): seq<Level>
    requires a != [] && b != [] && Peak(a) != 0.0 && Peak(b) != 0.0
  {
    Sort(Levels(Ratios(a, Peak(a)) + Ratios(b, Peak(b))))
  }

  function AllComparisons(a: seq<Tier>, b: seq<Tier>): seq<Comparison>
    requires a != [] && b != []
  {
    if Peak(a) == 0.0 || Peak(b) == 0.0 || LowestLevel(a, b) > 1.0 then []
    else Comparisons(a, b, AllLevels(a, b))
  }

  method MatchUtilisation(a: seq<Tier>, b: seq<Tier>) returns (comparable: bool, points: seq<Comparison>)
    requires a != [] && b != []
    ensures points == AllComparisons(a, b)
    ensures comparable <==> points != []
  {
    hide Peak, Interpolate, SetDefault, Sort, TpsAt, LowestLevel;
    points, comparable := [], false;
    var peakA, peakB := Peak(a), Peak(b);
    if peakA == 0.0 || peakB == 0.0 {
      return;
    }
    var lo, hi := LowestLevel(a, b), 1.0;
    if lo > hi {
      return;
    }
    var ratios := Ratios(a, peakA) + Ratios(b, peakB);
    var levels: seq<Level> := [];
    var i := 0;
    while i < |ratios|
      invariant 0 <= i <= |ratios| && levels == Levels(ratios[..i])
    {
      assert ratios[..i + 1][..i] == ratios[..i];
      levels := SetDefault(levels, ratios[i]);
      i := i + 1;
    }
    assert ratios[..i] == ratios;
    var ordered := Sort(levels);
    var j := 0;
    while j < |ordered|
      invariant 0 <= j <= |ordered| && points == Comparisons(a, b, ordered[..j])
    {
      var u := ordered[j].value;
      assert ordered[..j + 1][..j] == ordered[..j];
      j := j + 1;
      if !(lo <= u <= hi) {
        assert CompareAt(a, b, u) == None;
        assert points + [] == points;
        continue;
      }
      var ta, tb := TpsAt(u, peakA), TpsAt(u, peakB);
      var ya, yb := Interpolate(a, ta), Interpolate(b, tb);
      if ya.None? || yb.None? || ya.value <= 0.0 {
        assert CompareAt(a, b, u) == None;
        assert points + [] == points;
        continue;
      }
      assert CompareAt(a, b, u) == Some(Comparison(u, ta, tb, ya.value, yb.value));
      points := points + [Comparison(u, ta, tb, ya.value, yb.value)];
    }
    assert ordered[..j] == ordered;
    comparable := points != [];
  }

  // ----- Which levels give a point -----

  lemma DivideIff(x: real, u: real, d: real)
    requires d > 0.0
    ensures x / d <= u <==> x <= TpsAt(u, d)
  {
    var q := x / d;
    assert q * d == x;
    if q <= u {
      Scaled(q, u, d);
    } else {
      Scaled(u, q, d);
    }
  }

  lemma Scaled(x: real, y: real, d: real)
    requires x <= y && d > 0.0
    ensures x * d <= y * d
    ensures x < y ==> x * d < y * d
  {
    NonNegativeProduct(y - x, d);
    if x < y {
      assert (y - x) * d > 0.0;
    }
  }

  /** The range is never empty: the test for an empty one cannot succeed where throughputs are positive. */
  lemma RangeNeverEmpty(a: seq<Tier>, b: seq<Tier>)
    requires a != [] && b != [] && Peak(a) > 0.0 && Peak(b) > 0.0
    ensures LowestLevel(a, b) <= 1.0
  {
    hide MinOf, MaxOf, Throughputs;
    DivideIff(MinOf(Throughputs(a)), 1.0, Peak(a));
    DivideIff(MinOf(Throughputs(b)), 1.0, Peak(b));
  }

  lemma ShareReachedIff(curve: seq<Tier>, u: real)
    requires curve != [] && Peak(curve) > 0.0 && u <= 1.0
    ensures Interpolate(curve, TpsAt(u, Peak(curve))).Some? <==> Branch(curve)[0].key <= TpsAt(u, Peak(curve))
  {
    hide Interpolate, Branch, Peak, TpsAt;
    ReachedIff(curve, TpsAt(u, Peak(curve)));
    ShareOfPeak(u, Peak(curve));
  }

  lemma ShareOfPeak(u: real, peak: real)
    requires u <= 1.0 && peak > 0.0
    ensures TpsAt(u, peak) <= peak
  {
    assert (1.0 - u) * peak >= 0.0;
  }

  /** A level in the range gives a point exactly when both rising branches reach down to it and the first
      engine's latency there is positive; it fails exactly below the start of a branch, where the falling
      part of that curve set the range. The point is at both engines' own share of the level. */
  lemma LevelGivesPointIff(a: seq<Tier>, b: seq<Tier>, u: real)
    requires a != [] && b != [] && Peak(a) > 0.0 && Peak(b) > 0.0 && u <= 1.0
    ensures CompareAt(a, b, u).Some? <==>
              && Branch(a)[0].key <= TpsAt(u, Peak(a)) && Branch(b)[0].key <= TpsAt(u, Peak(b))
              && Interpolate(a, TpsAt(u, Peak(a))).Some? && Interpolate(a, TpsAt(u, Peak(a))).value > 0.0
    ensures CompareAt(a, b, u).Some? ==>
              var c := CompareAt(a, b, u).value;
              && c.level == u && c.firstTps == TpsAt(u, Peak(a)) && c.secondTps == TpsAt(u, Peak(b))
              && Some(c.first) == Interpolate(a, c.firstTps) && Some(c.second) == Interpolate(b, c.secondTps)
  {
    hide Interpolate, Branch, MinOf, Throughputs, Peak, TpsAt;
    ShareReachedIff(a, u);
    ShareReachedIff(b, u);
    BranchEnds(a);
    BranchEnds(b);
    DivideIff(MinOf(Throughputs(a)), u, Peak(a));
    DivideIff(MinOf(Throughputs(b)), u, Peak(b));
  }

  lemma RatioOfPeak(curve: seq<Tier>, i: nat)
    requires i < |curve| && Peak(curve) != 0.0
    ensures TpsAt(Ratios(curve, Peak(curve))[i], Peak(curve)) == curve[i].tps
  {
  }

  /** A measured tier is never shifted: the point at its exact ratio has its own throughput, and its own
      latency when it lies on the rising branch and throughputs there are distinct. */
  lemma TierIsNotShifted(a: seq<Tier>, b: seq<Tier>, i: nat)
    requires a != [] && b != [] && Peak(a) != 0.0 && Peak(b) != 0.0 && i < |a|
    requires CompareAt(a, b, Ratios(a, Peak(a))[i]).Some?
    ensures var c := CompareAt(a, b, Ratios(a, Peak(a))[i]).value;
      && c.firstTps == a[i].tps
      && (DistinctThroughputs(Branch(a)) && Keyed(a[i].tps, a[i].latency) in Branch(a) ==> c.first == a[i].latency)
  {
    hide Interpolate, Branch, Peak, TpsAt, MinOf, DistinctThroughputs;
    RatioOfPeak(a, i);
    var p := Keyed(a[i].tps, a[i].latency);
    if DistinctThroughputs(Branch(a)) && p in Branch(a) {
      TierComesBack(a, p);
    }
  }

  lemma {:induction false} ComparisonsHold(a: seq<Tier>, b: seq<Tier>, levels: seq<Level>, c: Comparison)
    requires a != [] && b != [] && Peak(a) != 0.0 && Peak(b) != 0.0
    ensures c in Comparisons(a, b, levels) <==> exists p :: p in levels && CompareAt(a, b, p.value) == Some(c)
  {
    hide CompareAt, Peak;
    if levels != [] {
      var n := |levels| - 1;
      ComparisonsHold(a, b, levels[..n], c);
      assert forall p :: p in levels <==> p in levels[..n] || p == levels[n] by {
        assert levels == levels[..n] + [levels[n]];
      }
    }
  }

  /** The points are those of the measured ratios of either engine that are the first with their label. */
  lemma ComparisonsAre(a: seq<Tier>, b: seq<Tier>, c: Comparison)
    requires a != [] && b != [] && Peak(a) > 0.0 && Peak(b) > 0.0
    ensures c in AllComparisons(a, b) <==>
            exists i: nat, p :: FirstOfLabel(Ratios(a, Peak(a)) + Ratios(b, Peak(b)), i, p) && CompareAt(a, b, p.value) == Some(c)
  {
    hide *;
    RangeNeverEmpty(a, b);
    var ratios := Ratios(a, Peak(a)) + Ratios(b, Peak(b));
    LevelsAre(ratios);
    SameMembers(Sort(Levels(ratios)), Levels(ratios));
    AllOf(a, b);
    ComparisonsHold(a, b, AllLevels(a, b), c);
  }

  lemma AllOf(a: seq<Tier>, b: seq<Tier>)
    requires a != [] && b != [] && Peak(a) > 0.0 && Peak(b) > 0.0 && LowestLevel(a, b) <= 1.0
    ensures AllLevels(a, b) == Sort(Levels(Ratios(a, Peak(a)) + Ratios(b, Peak(b))))
    ensures AllComparisons(a, b) == Comparisons(a, b, AllLevels(a, b))
  {
    hide Comparisons, Sort, Levels, Peak, LowestLevel;
  }

  /** A tier past the peak sets the range, and gives no point in it. */
  lemma FallingTierGivesNoPoint()
    ensures var a := [Tier(1.0, 50.0, 1.0), Tier(2.0, 100.0, 2.0), Tier(3.0, 10.0, 3.0)];
      Peak(a) == 100.0 && LowestLevel(a, a) == 0.1 && CompareAt(a, a, 0.1) == None
  {
    var a := [Tier(1.0, 50.0, 1.0), Tier(2.0, 100.0, 2.0), Tier(3.0, 10.0, 3.0)];
    hide Interpolate;
    EndsOf(a);
    FallingBranch(a);
  }

  /** Every level carries its own label, and no two carry the same. */
  ghost predicate LabelsDiffer(levels: seq<Level>) {
    && (forall i | 0 <= i < |levels| :: levels[i].key == Round3(levels[i].value))
    && forall i, j | 0 <= i < j < |levels| :: levels[i].key != levels[j].key
  }

  lemma SetDefaultDiffers(levels: seq<Level>, exact: real)
    requires LabelsDiffer(levels)
    ensures LabelsDiffer(SetDefault(levels, exact))
  {
    hide Round3;
  }

  lemma {:induction false} LevelsDiffer(ratios: seq<real>)
    ensures LabelsDiffer(Levels(ratios))
  {
    hide LabelsDiffer, SetDefault;
    if ratios == [] {
      NoLevels();
    } else {
      LevelsDiffer(ratios[..|ratios| - 1]);
      SetDefaultDiffers(Levels(ratios[..|ratios| - 1]), ratios[|ratios| - 1]);
    }
  }

  lemma NoLevels()
    ensures LabelsDiffer([])
  {
  }

  ghost predicate LabelsAscend(levels: seq<Level>) {
    && (forall i | 0 <= i < |levels| :: levels[i].key == Round3(levels[i].value))
    && forall i, j | 0 <= i < j < |levels| :: levels[i].key < levels[j].key
  }

  lemma InsertUnfold(x: Level, levels: seq<Level>)
    ensures Insert(x, levels) ==
            if levels == [] || x.key <= levels[0].key then [x] + levels else [levels[0]] + Insert(x, levels[1..])
    ensures multiset(Insert(x, levels)) == multiset{x} + multiset(levels)
  {
  }

  lemma AscendsCons(p: Level, levels: seq<Level>)
    ensures LabelsAscend([p] + levels) <==>
            p.key == Round3(p.value) && LabelsAscend(levels) && forall q | q in levels :: p.key < q.key
  {
    hide Round3;
    var all := [p] + levels;
    if LabelsAscend(all) {
      forall i, j | 0 <= i < j < |levels| ensures levels[i].key < levels[j].key {
        assert all[i + 1].key < all[j + 1].key;
      }
      forall i | 0 <= i < |levels| ensures levels[i].key == Round3(levels[i].value) {
        assert all[i + 1].key == Round3(all[i + 1].value);
      }
      assert all[0] == p;
      forall q | q in levels ensures p.key < q.key {
        var i :| 0 <= i < |levels| && levels[i] == q;
        assert all[0].key < all[i + 1].key;
      }
    }
    if p.key == Round3(p.value) && LabelsAscend(levels) && forall q | q in levels :: p.key < q.key {
      forall i, j | 0 <= i < j < |all| ensures all[i].key < all[j].key {
        assert all[j] == levels[j - 1];
      }
    }
  }

  lemma {:induction false} InsertAscends(x: Level, levels: seq<Level>)
    requires LabelsAscend(levels) && x.key == Round3(x.value) && forall p | p in levels :: p.key != x.key
    ensures LabelsAscend(Insert(x, levels))
  {
    hide *;
    InsertUnfold(x, levels);
    if levels == [] {
      AscendsCons(x, levels);
    } else {
      var head, rest := levels[0], levels[1..];
      assert levels == [head] + rest;
      AscendsCons(head, rest);
      if x.key > head.key {
        InsertAscends(x, rest);
        InsertUnfold(x, rest);
        var more := Insert(x, rest);
        SameMembers(more, [x] + rest);
        AscendsCons(head, more);
      } else {
        AscendsCons(x, levels);
      }
    }
  }

  lemma {:induction false} SortedLabelsAscend(levels: seq<Level>)
    requires LabelsDiffer(levels)
    ensures LabelsAscend(Sort(levels))
  {
    hide Round3;
    if levels != [] {
      SortedLabelsAscend(levels[1..]);
      SameMembers(Sort(levels[1..]), levels[1..]);
      hide Insert;
      InsertAscends(levels[0], Sort(levels[1..]));
    }
  }

  lemma CompareLevel(a: seq<Tier>, b: seq<Tier>, u: real)
    requires a != [] && b != [] && Peak(a) != 0.0 && Peak(b) != 0.0 && CompareAt(a, b, u).Some?
    ensures CompareAt(a, b, u).value.level == u
  {
    hide Interpolate, Peak, LowestLevel, TpsAt;
  }

  lemma {:induction false} ComparisonsInOrder(a: seq<Tier>, b: seq<Tier>, levels: seq<Level>)
    requires a != [] && b != [] && Peak(a) != 0.0 && Peak(b) != 0.0 && LabelsAscend(levels)
    ensures var c := Comparisons(a, b, levels);
      && (forall x | x in c :: exists p :: p in levels && p.key == Round3(x.level))
      && forall i, j | 0 <= i < j < |c| :: Round3(c[i].level) < Round3(c[j].level)
  {
    hide CompareAt, Peak, Round3;
    if levels != [] {
      var n := |levels| - 1;
      ComparisonsInOrder(a, b, levels[..n]);
      assert levels == levels[..n] + [levels[n]];
      var before := Comparisons(a, b, levels[..n]);
      if CompareAt(a, b, levels[n].value).Some? {
        CompareLevel(a, b, levels[n].value);
        forall i | 0 <= i < |before| ensures Round3(before[i].level) < levels[n].key {
          assert before[i] in before;
          var p :| p in levels[..n] && p.key == Round3(before[i].level);
        }
      }
    }
  }

  /** The points come in order of their labels, one a label. */
  lemma ComparisonsAscend(a: seq<Tier>, b: seq<Tier>)
    requires a != [] && b != [] && Peak(a) > 0.0 && Peak(b) > 0.0
    ensures var c := AllComparisons(a, b); forall i, j | 0 <= i < j < |c| :: Round3(c[i].level) < Round3(c[j].level)
  {
    hide *;
    RangeNeverEmpty(a, b);
    AllOf(a, b);
    var ratios := Ratios(a, Peak(a)) + Ratios(b, Peak(b));
    LevelsDiffer(ratios);
    SortedLabelsAscend(Levels(ratios));
    ComparisonsInOrder(a, b, AllLevels(a, b));
  }
}
