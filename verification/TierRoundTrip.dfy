/** A tier's arrivals, ticks, written rows and reloaded ticks, end to end. */
module TierRoundTrip {
  import opened Options
  import opened WorkloadParser
  import opened Ticks
  import opened TimedTicks
  import opened TierRows

  // ----- When the loader's total is the tick's -----

  /** The entries whose throughput a tick's total sums. */
  function Counted(d: Dict): Dict
    requires d != []
  {
    if Components(d) != [] then Components(d) else d[..1]
  }

  function Aggregates(d: Dict): Dict {
    if d == [] then []
    else (if IsComponent(d[0].0) then [] else [d[0]]) + Aggregates(d[1..])
  }

  /** The entries it leaves out, which are nonetheless written as rows. */
  function LeftOut(d: Dict): Dict
    requires d != []
  {
    if Components(d) != [] then Aggregates(d) else d[1..]
  }

  ghost predicate AllReport(d: Dict) {
    forall i | 0 <= i < |d| :: Tps(d[i].1).Some?
  }

  lemma {:induction false} SumTpsIs(d: Dict)
    ensures SumTps(d) == if AllReport(d) then Some(SumPresent(d)) else None
  {
    hide Tps;
    if d != [] {
      SumTpsIs(d[1..]);
      assert d == [d[0]] + d[1..];
      assert AllReport(d) <==> Tps(d[0].1).Some? && AllReport(d[1..]);
    }
  }

  lemma {:induction false} ComponentsSplit(d: Dict)
    ensures SumPresent(d) == SumPresent(Components(d)) + SumPresent(Aggregates(d))
  {
    hide Tps, IsComponent;
    if d != [] {
      ComponentsSplit(d[1..]);
      if IsComponent(d[0].0) {
        assert ([d[0]] + Components(d[1..]))[1..] == Components(d[1..]) && Aggregates(d) == Aggregates(d[1..]);
      } else {
        assert ([d[0]] + Aggregates(d[1..]))[1..] == Aggregates(d[1..]) && Components(d) == Components(d[1..]);
      }
    }
  }

  lemma CountedSplit(d: Dict)
    requires d != []
    ensures SumPresent(d) == SumPresent(Counted(d)) + SumPresent(LeftOut(d))
  {
    hide Tps, Components, SumPresent;
    ComponentsSplit(d);
    SumPresentAppend(d[..1], d[1..]);
    assert d[..1] + d[1..] == d;
  }

  lemma TotalIsCounted(elapsed: real, d: Dict)
    requires d != []
    ensures TickOf(elapsed, d).total == SumTps(Counted(d))
  {
    hide Tps, Components, MaxErrors;
    if Components(d) == [] {
      assert d[..1][1..] == [];
      assert SumTps(d[..1]) == Plus(Tps(d[0].1), Some(0.0));
    }
  }

  /** Reading the rows back gives the tick's own total exactly when every counted entry reports a
      throughput and the entries left out, the total lines, add up to nothing. */
  lemma TotalsAgreeIff(elapsed: real, d: Dict)
    requires d != []
    ensures TickOf(elapsed, d).total == Some(SumPresent(d)) <==>
            AllReport(Counted(d)) && SumPresent(LeftOut(d)) == 0.0
  {
    hide Tps, SumTps, SumPresent, Counted, LeftOut, TickOf, AllReport;
    TotalIsCounted(elapsed, d);
    SumTpsIs(Counted(d));
    CountedSplit(d);
  }

  /** A total line beside component lines is counted twice by the loader. */
  lemma TotalLineCountsTwice(read: Sample, total: Sample, elapsed: real)
    requires Tps(read) == Some(10.0) && Tps(total) == Some(10.0)
    ensures var d := [("read", read), ("total", total)];
      TickOf(elapsed, d).total == Some(10.0) && SumPresent(d) == 20.0
  {
    hide Tps, MaxErrors;
    var d := [("read", read), ("total", total)];
    assert d[1..] == [("total", total)] && d[1..][1..] == [];
    assert IsComponent("read") by {
      assert |"read"| != |"total"| && |"read"| != |"all"|;
    }
    assert Components(d[1..]) == [];
    assert Components(d) == [d[0]] && [d[0]][1..] == [];
    assert SumPresent(d[1..]) == 10.0 && SumTps([d[0]][1..]) == Some(0.0);
    assert SumTps([d[0]]) == Plus(Tps(read), Some(0.0));
  }

  // ----- Ticks rise when the generator's clock does -----

  ghost predicate Nondecreasing(p: seq<Arrival>) {
    forall i, j | 0 <= i <= j < |p| :: p[i].sample.elapsed <= p[j].sample.elapsed
  }

  lemma {:induction false} ConcatPrefix(groups: seq<seq<Arrival>>, k: nat)
    requires k <= |groups|
    ensures Concat(groups[..k]) <= Concat(groups)
  {
    if k == |groups| {
      assert groups[..k] == groups;
    } else {
      var n := |groups| - 1;
      assert groups[..n][..k] == groups[..k];
      ConcatPrefix(groups[..n], k);
    }
  }

  lemma FirstRises(groups: seq<seq<Arrival>>, p: seq<Arrival>, i: nat, j: nat)
    requires IsGrouping(groups, p) && Nondecreasing(p) && i < j < |groups|
    ensures groups[i][0].sample.elapsed < groups[j][0].sample.elapsed
  {
    hide Linked, Concat;
    var early, late := groups[..j], groups[..j + 1];
    ConcatPrefix(groups, j + 1);
    assert late[..j] == early;
    ConcatLast(late);
    ConcatLast(early);
    var s := Concat(early);
    assert groups[i][0] in early[i];
    ConcatHolds(early, i, groups[i][0]);
    var k :| 0 <= k < |s| && s[k] == groups[i][0];
    assert Concat(late)[|s|] == groups[j][0];
    assert p[k] == s[k] && p[|s| - 1] == s[|s| - 1] && p[|s|] == groups[j][0];
    assert Apart(groups[j - 1], groups[j]);
  }

  lemma TimedRising(arrivals: seq<Arrival>)
    requires forall a | a in arrivals :: a.at.Some?
    requires Nondecreasing(Periodics(arrivals))
    ensures var groups := Groups(Periodics(arrivals));
      && Stampable(groups)
      && (TimedOf(groups).raised == None ==> Rising(TimedOf(groups).ticks) && Filled(TimedOf(groups).ticks))
  {
    hide Groups, Periodics, TimedOf, IsGrouping, Nondecreasing, ByOp;
    var p := Periodics(arrivals);
    var groups := Groups(p);
    GroupsStampable(arrivals);
    GroupsGroup(p);
    GroupsPeriodic(arrivals);
    RaisesIff(groups);
    if TimedOf(groups).raised == None {
      var ticks := TimedOf(groups).ticks;
      forall i | 0 <= i < |ticks| ensures ticks[i].tick.byOp != [] {
        assert Stamps(ticks[i], groups[i]);
      }
      forall i, j | 0 <= i < j < |ticks| ensures ticks[i].tick.elapsed < ticks[j].tick.elapsed {
        assert Stamps(ticks[i], groups[i]) && Stamps(ticks[j], groups[j]);
        FirstRises(groups, p, i, j);
      }
    }
  }

  lemma GroupsPeriodic(arrivals: seq<Arrival>)
    ensures var groups := Groups(Periodics(arrivals)); forall i | 0 <= i < |groups| :: AllPeriodic(groups[i])
  {
    hide Groups, Periodics;
    var p := Periodics(arrivals);
    PeriodicsKeep(arrivals);
    forall i | 0 <= i < |Groups(p)| ensures AllPeriodic(Groups(p)[i]) {
      GroupsHold(p, Groups(p)[i]);
    }
  }

  /** What a tier's rows give when they are read back: a tick for each kept tick and no other, at its
      offset, whose total is the tick's own exactly under the condition of TotalsAgreeIff. */
  ghost predicate Faithful(kept: seq<Stamped>, loaded: seq<Loaded>) {
    && |loaded| == |kept|
    && forall i | 0 <= i < |kept| :: var t := kept[i].tick;
         && t.byOp != [] && loaded[i].elapsed == t.elapsed
         && (Some(loaded[i].total) == t.total <==> AllReport(Counted(t.byOp)) && SumPresent(LeftOut(t.byOp)) == 0.0)
  }

  /** On a decimal grid with a clock that never goes back, no tick raises and the rows of the ticks past
      the warm-up read back as those ticks. */
  lemma ReadBack(arrivals: seq<Arrival>, step: real, warmup: real)
    requires forall a | a in arrivals :: a.at.Some?
    requires Nondecreasing(Periodics(arrivals)) && OnGrid(Periodics(arrivals), step)
    ensures Stampable(Groups(Periodics(arrivals)))
    ensures var timed := TimedOf(Groups(Periodics(arrivals)));
      && timed.raised == None
      && Faithful(Kept(timed.ticks, warmup), Load(RowsOf(Kept(timed.ticks, warmup)), 0.0))
  {
    hide Groups, Periodics, TimedOf, Nondecreasing, OnGrid, Stamps, Kept, RowsOf, Load, Rising, TickOf;
    var p := Periodics(arrivals);
    var groups := Groups(p);
    TimedRising(arrivals);
    GroupsPeriodic(arrivals);
    forall i | 0 <= i < |groups| ensures Tight(groups[i]) {
      GridIsTight(p, step, groups[i]);
    }
    RaisesIff(groups);
    var ticks := TimedOf(groups).ticks;
    WrittenRowsReload(ticks, warmup, 0.0);
    KeptFaithful(ticks, groups, warmup);
  }

  lemma KeptFaithful(ticks: seq<Stamped>, groups: seq<seq<Arrival>>, warmup: real)
    requires StampsAll(ticks, groups)
    ensures Faithful(Kept(ticks, warmup), Reloaded(Kept(ticks, warmup)))
  {
    hide Kept, TickOf, ByOp, AllReport, Counted, LeftOut, SumPresent;
    KeptMeans(ticks, warmup);
    var kept := Kept(ticks, warmup);
    forall i | 0 <= i < |kept| ensures kept[i].tick.byOp != [] &&
        kept[i].tick == TickOf(kept[i].tick.elapsed, kept[i].tick.byOp) {
      assert kept[i] in kept;
      var j :| 0 <= j < |ticks| && ticks[j] == kept[i];
      assert Stamps(ticks[j], groups[j]);
    }
    forall i | 0 <= i < |kept| {
      TotalsAgreeIff(kept[i].tick.elapsed, kept[i].tick.byOp);
    }
  }
}
