/** From arrivals to the rows a benchmark tier writes, and back to ticks when the rows are analysed. */
module TimedTicks {
  import opened Numbers
  import opened Options
  import opened WorkloadParser
  import opened Ticks

  // ----- Timed ticks -----

  datatype Stamped = Stamped(at: real, tick: Tick)

  datatype Timed = Timed(ticks: seq<Stamped>, raised: Option<AggregateError>)

  function Samples(g: seq<Arrival>): (r: seq<Sample>)
    ensures |r| == |g| && forall i | 0 <= i < |g| :: r[i] == g[i].sample
  {
    seq(|g|, i requires 0 <= i < |g| => g[i].sample)
  }

  /** One more group after those already timed; nothing once a group has raised. */
  function TimeOne(before: Timed, g: seq<Arrival>): Timed
    requires g != [] && g[0].at.Some?
  {
    if before.raised.Some? then before
    else
      match Aggregate(Samples(g))
      case Folded(tick) => Timed(before.ticks + [Stamped(g[0].at.value, tick)], None)
      case Refused(error) => Timed(before.ticks, Some(error))
  }

  ghost predicate Stampable(groups: seq<seq<Arrival>>) {
    forall i | 0 <= i < |groups| :: groups[i] != [] && groups[i][0].at.Some?
  }

  function TimedOf(groups: seq<seq<Arrival>>): Timed
    requires Stampable(groups)
  {
    if groups == [] then Timed([], None)
    else TimeOne(TimedOf(groups[..|groups| - 1]), groups[|groups| - 1])
  }

  lemma {:induction false} PeriodicsKeep(arrivals: seq<Arrival>)
    ensures forall a :: a in Periodics(arrivals) <==> a in arrivals && a.sample.kind.Periodic?
  {
    if arrivals != [] {
      var n := |arrivals| - 1;
      PeriodicsKeep(arrivals[..n]);
      assert arrivals == arrivals[..n] + [arrivals[n]];
    }
  }

  lemma {:induction false} ConcatHolds(groups: seq<seq<Arrival>>, i: nat, a: Arrival)
    requires i < |groups| && a in groups[i]
    ensures a in Concat(groups)
  {
    if i < |groups| - 1 {
      ConcatHolds(groups[..|groups| - 1], i, a);
    }
  }

  lemma GroupsHold(p: seq<Arrival>, g: seq<Arrival>)
    requires g in Groups(p)
    ensures g != [] && forall a | a in g :: a in p
  {
    hide Groups, Concat, Linked, Close;
    GroupsGroup(p);
    var i :| 0 <= i < |Groups(p)| && Groups(p)[i] == g;
    forall a | a in g ensures a in p {
      ConcatHolds(Groups(p), i, a);
    }
  }

  lemma GroupsStampable(arrivals: seq<Arrival>)
    requires forall a | a in arrivals :: a.at.Some?
    ensures Stampable(Groups(Periodics(arrivals)))
  {
    hide Groups, Periodics;
    PeriodicsKeep(arrivals);
    var groups: seq<seq<Arrival>> := Groups(Periodics(arrivals));
    forall i | 0 <= i < |groups| ensures groups[i] != [] && groups[i][0].at.Some? {
      GroupsHold(Periodics(arrivals), groups[i]);
      assert groups[i][0] in groups[i];
    }
  }

  method GroupTimedTicks(arrivals: seq<Arrival>) returns (ticks: seq<Stamped>, raised: Option<AggregateError>)
    requires forall a | a in arrivals :: a.at.Some?
    ensures Stampable(Groups(Periodics(arrivals)))
    ensures TimedOf(Groups(Periodics(arrivals))) == Timed(ticks, raised)
  {
    hide Groups, Periodics, Aggregate;
    GroupsStampable(arrivals);
    var groups := GroupedPairs(arrivals);
    ticks, raised := [], None;
    var i := 0;
    while i < |groups|
      invariant 0 <= i <= |groups| && raised == None && Stampable(groups[..i])
      invariant TimedOf(groups[..i]) == Timed(ticks, None)
    {
      var g := groups[i];
      i := i + 1;
      assert groups[..i][..i - 1] == groups[..i - 1];
      assert Stampable(groups[..i]);
      var r := AggregateTick(Samples(g));
      match r {
        case Folded(tick) => ticks := ticks + [Stamped(g[0].at.value, tick)];
        case Refused(error) =>
          RaisedStays(groups, i);
          return ticks, Some(error);
      }
    }
    assert groups[..i] == groups;
  }

  lemma {:induction false} RaisedStays(groups: seq<seq<Arrival>>, i: nat)
    requires i <= |groups| && Stampable(groups) && Stampable(groups[..i]) && TimedOf(groups[..i]).raised.Some?
    ensures TimedOf(groups) == TimedOf(groups[..i])
  {
    if i == |groups| {
      assert groups[..i] == groups;
    } else {
      var n := |groups| - 1;
      assert groups[..n][..i] == groups[..i];
      RaisedStays(groups[..n], i);
    }
  }

  // ----- When timing raises -----

  /** The group keeps within the tolerance of its first sample. */
  ghost predicate Tight(g: seq<Arrival>) {
    forall a | a in g :: Close(a.sample.elapsed, g[0].sample.elapsed)
  }

  ghost predicate AllPeriodic(g: seq<Arrival>) {
    forall a | a in g :: a.sample.kind.Periodic?
  }

  lemma TightFolds(g: seq<Arrival>)
    requires g != [] && AllPeriodic(g)
    ensures Aggregate(Samples(g)).Folded? <==> Tight(g)
  {
    hide Close, Aggregate;
    var s := Samples(g);
    AggregatesIff(s);
    assert forall i | 0 <= i < |g| :: s[i] in s && g[i] in g;
  }

  lemma FoldedElapsed(samples: seq<Sample>)
    requires Aggregate(samples).Folded?
    ensures samples != [] && Aggregate(samples).tick.elapsed == samples[0].elapsed
    ensures Aggregate(samples).tick == TickOf(samples[0].elapsed, ByOp(samples))
  {
    hide Close, FirstComplaint, ByOp;
  }

  /** Timing raises nothing exactly when every group is tight, and then stamps each group with its
      first arrival and its first offset. */
  lemma {:induction false} RaisesIff(groups: seq<seq<Arrival>>)
    requires Stampable(groups) && forall i | 0 <= i < |groups| :: AllPeriodic(groups[i])
    ensures TimedOf(groups).raised == None <==> forall i | 0 <= i < |groups| :: Tight(groups[i])
    ensures TimedOf(groups).raised == None ==> StampsAll(TimedOf(groups).ticks, groups)
  {
    hide Tight, AllPeriodic, Aggregate, Stamps, Samples;
    if groups != [] {
      var n := |groups| - 1;
      RaisesIff(groups[..n]);
      TightFolds(groups[n]);
      if Aggregate(Samples(groups[n])).Folded? {
        FoldedStamps(groups[n]);
      }
    }
  }

  lemma FoldedStamps(g: seq<Arrival>)
    requires g != [] && g[0].at.Some? && Aggregate(Samples(g)).Folded?
    ensures Stamps(Stamped(g[0].at.value, Aggregate(Samples(g)).tick), g)
  {
    hide Aggregate, TickOf;
    FoldedElapsed(Samples(g));
    TickOfElapsed(g[0].sample.elapsed, ByOp(Samples(g)));
  }

  lemma TickOfElapsed(elapsed: real, d: Dict)
    requires d != []
    ensures TickOf(elapsed, d).elapsed == elapsed && TickOf(elapsed, d).byOp == d
  {
  }

  ghost predicate StampsAll(t: seq<Stamped>, groups: seq<seq<Arrival>>) {
    |t| == |groups| && forall i | 0 <= i < |t| :: Stamps(t[i], groups[i])
  }

  ghost predicate Stamps(t: Stamped, g: seq<Arrival>) {
    && g != [] && Some(t.at) == g[0].at && t.tick.elapsed == g[0].sample.elapsed
    && t.tick.byOp == ByOp(Samples(g)) && t.tick == TickOf(t.tick.elapsed, t.tick.byOp)
  }

  /** A grouping compares neighbours but a tick compares with its first sample: offsets that drift
      below the tolerance form one group and then cannot be folded. */
  lemma DriftRaises(a: Arrival, b: Arrival, c: Arrival)
    requires a.sample.kind.Periodic? && b.sample.kind.Periodic? && c.sample.kind.Periodic?
    requires a.sample.elapsed == 0.0 && b.sample.elapsed == 0.0000000009 && c.sample.elapsed == 0.0000000018
    ensures Groups([a, b, c]) == [[a, b, c]]
    ensures Aggregate(Samples([a, b, c])) == Refused(OffsetsDiffer)
  {
    hide Groups, ByOp, TickOf, Aggregate, Samples;
    LinkedAlone([a, b, c]);
    DriftRefused(Samples([a, b, c]));
  }

  lemma LinkedAlone(g: seq<Arrival>)
    requires g != [] && Linked(g)
    ensures Groups(g) == [g]
  {
    hide Groups, Linked;
    ConcatSnoc([], g);
    assert [] + [g] == [g] && Concat([]) + g == g;
    assert IsGrouping([g], g);
    GroupingUnique([g], g);
  }

  lemma DriftRefused(s: seq<Sample>)
    requires |s| == 3 && s[0].kind.Periodic? && s[1].kind.Periodic? && s[2].kind.Periodic?
    requires s[0].elapsed == 0.0 && s[1].elapsed == 0.0000000009 && s[2].elapsed == 0.0000000018
    ensures Aggregate(s) == Refused(OffsetsDiffer)
  {
    hide ByOp, TickOf;
    ComplaintIff(s[..2]);
  }

  // ----- Offsets on a grid -----

  ghost predicate OnGrid(p: seq<Arrival>, step: real) {
    step > TOLERANCE && forall a | a in p :: exists k :: a.sample.elapsed == Mark(k, step)
  }

  lemma {:induction false} LinkedOnGrid(g: seq<Arrival>, step: real, i: nat)
    requires i < |g| && Linked(g) && OnGrid(g, step)
    ensures g[i].sample.elapsed == g[0].sample.elapsed
  {
    if i > 0 {
      LinkedOnGrid(g, step, i - 1);
      hide Mark;
      assert g[i] in g && g[i - 1] in g;
      var k :| g[i].sample.elapsed == Mark(k, step);
      var l :| g[i - 1].sample.elapsed == Mark(l, step);
      assert Close(g[i - 1 + 1].sample.elapsed, g[i - 1].sample.elapsed);
      MarksApart(k, l, step, TOLERANCE);
      MarksApart(l, k, step, TOLERANCE);
    }
  }

  /** On a grid coarser than the tolerance, every group shares one offset. */
  lemma GridIsTight(p: seq<Arrival>, step: real, g: seq<Arrival>)
    requires OnGrid(p, step) && g in Groups(p)
    ensures g != [] && Tight(g) && forall a | a in g :: a.sample.elapsed == g[0].sample.elapsed
  {
    hide Groups, Close, Mark, Concat, Linked;
    GroupsHold(p, g);
    GroupsGroup(p);
    var j :| 0 <= j < |Groups(p)| && Groups(p)[j] == g;
    assert Linked(g) && OnGrid(g, step);
    forall a | a in g ensures a.sample.elapsed == g[0].sample.elapsed && Close(a.sample.elapsed, g[0].sample.elapsed) {
      var i :| 0 <= i < |g| && g[i] == a;
      LinkedOnGrid(g, step, i);
      CloseToItself(g[0].sample.elapsed);
    }
  }

  // ----- What is timed before an error -----

  /** Group k is the first that cannot be folded. */
  ghost predicate FirstUnfolded(groups: seq<seq<Arrival>>, k: int) {
    && 0 <= k < |groups| && Aggregate(Samples(groups[k])).Refused?
    && forall j | 0 <= j < k :: Aggregate(Samples(groups[j])).Folded?
  }

  /** How timing went: stopped at the first group that cannot be folded, with its error, or not at all. */
  ghost predicate TimedUpTo(groups: seq<seq<Arrival>>, r: Timed) {
    if r.raised.Some?
    then exists k :: StopsAt(groups, r, k)
    else StampsAll(r.ticks, groups)
  }

  ghost predicate StopsAt(groups: seq<seq<Arrival>>, r: Timed, k: int)
    requires r.raised.Some?
  {
    FirstUnfolded(groups, k) && Aggregate(Samples(groups[k])) == Refused(r.raised.value) && StampsAll(r.ticks, groups[..k])
  }

  lemma StillStopped(groups: seq<seq<Arrival>>, r: Timed, k: int)
    requires groups != [] && r.raised.Some? && StopsAt(groups[..|groups| - 1], r, k)
    ensures StopsAt(groups, r, k)
  {
    hide Aggregate, StampsAll, Samples;
    assert groups[..|groups| - 1][..k] == groups[..k];
  }

  /** When timing raises, it is with the error of the first group that cannot be folded, and every group
      before that one has been stamped; otherwise all are. */
  lemma {:induction false} RaisesAt(groups: seq<seq<Arrival>>)
    requires Stampable(groups)
    ensures TimedUpTo(groups, TimedOf(groups))
  {
    if groups == [] {
    } else {
      var less := groups[..|groups| - 1];
      var before := TimedOf(less);
      RaisesAt(less);
      TimedUnfold(groups);
      hide TimedOf, TimeOne, StopsAt;
      if before.raised.Some? {
        var k :| StopsAt(less, before, k);
        NothingMore(before, groups[|groups| - 1]);
        StillStopped(groups, before, k);
      } else {
        AllFolded(less);
        LastTimed(groups, before);
      }
    }
  }

  lemma TimedUnfold(groups: seq<seq<Arrival>>)
    requires Stampable(groups) && groups != []
    ensures TimedOf(groups) == TimeOne(TimedOf(groups[..|groups| - 1]), groups[|groups| - 1])
  {
    hide TimeOne;
  }

  lemma NothingMore(before: Timed, g: seq<Arrival>)
    requires g != [] && g[0].at.Some? && before.raised.Some?
    ensures TimeOne(before, g) == before
  {
  }

  lemma LastTimed(groups: seq<seq<Arrival>>, before: Timed)
    requires Stampable(groups) && groups != [] && before.raised.None? && StampsAll(before.ticks, groups[..|groups| - 1])
    requires forall g | g in groups[..|groups| - 1] :: Aggregate(Samples(g)).Folded?
    ensures TimedUpTo(groups, TimeOne(before, groups[|groups| - 1]))
  {
    hide Aggregate, Stamps, Samples;
    var n := |groups| - 1;
    assert forall j | 0 <= j < n :: groups[j] in groups[..n];
    if Aggregate(Samples(groups[n])).Folded? {
      FoldedStamps(groups[n]);
    } else {
      assert FirstUnfolded(groups, n);
      assert StopsAt(groups, TimeOne(before, groups[n]), n);
    }
  }

  lemma {:induction false} AllFolded(groups: seq<seq<Arrival>>)
    requires Stampable(groups) && TimedOf(groups).raised == None
    ensures forall g | g in groups :: Aggregate(Samples(g)).Folded?
  {
    hide Aggregate, Samples;
    if groups != [] {
      AllFolded(groups[..|groups| - 1]);
      assert groups == groups[..|groups| - 1] + [groups[|groups| - 1]];
    }
  }
}
