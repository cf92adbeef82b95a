/** Splitting the periodic sample stream at each change of elapsed offset, and folding one offset's
    samples into a tick. */
module Ticks {
  import opened Options
  import opened WorkloadParser

  datatype Arrival = Arrival(at: Option<real>, sample: Sample)

  const TOLERANCE := 0.000000001

  predicate Close(x: real, y: real) {
    -TOLERANCE <= x - y <= TOLERANCE
  }

  function Periodics(arrivals: seq<Arrival>): seq<Arrival> {
    if arrivals == [] then []
    else
      var n := |arrivals| - 1;
      Periodics(arrivals[..n]) + if arrivals[n].sample.kind.Periodic? then [arrivals[n]] else []
  }

  /** The last element starts a group unless it is close to the element before it. */
  function Groups(p: seq<Arrival>): (r: seq<seq<Arrival>>)
    ensures r == [] <==> p == []
  {
    if p == [] then []
    else
      var n := |p| - 1;
      var before := Groups(p[..n]);
      if n > 0 && Close(p[n].sample.elapsed, p[n - 1].sample.elapsed)
      then before[..|before| - 1] + [before[|before| - 1] + [p[n]]]
      else before + [[p[n]]]
  }

  lemma GroupsNone()
    ensures Groups([]) == []
  {
  }

  lemma GroupsSnoc(p: seq<Arrival>, a: Arrival)
    ensures p == [] ==> Groups(p + [a]) == [[a]]
    ensures p != [] && !Close(a.sample.elapsed, p[|p| - 1].sample.elapsed) ==> Groups(p + [a]) == Groups(p) + [[a]]
    ensures p != [] && Close(a.sample.elapsed, p[|p| - 1].sample.elapsed) ==>
              Groups(p + [a]) == Groups(p)[..|Groups(p)| - 1] + [Groups(p)[|Groups(p)| - 1] + [a]]
  {
    assert (p + [a])[..|p|] == p;
  }

  method GroupedPairs(arrivals: seq<Arrival>) returns (groups: seq<seq<Arrival>>)
    ensures groups == Groups(Periodics(arrivals))
  {
    hide Groups, Close;
    groups := [];
    GroupsNone();
    var buffer: seq<Arrival>, current: Option<real> := [], None;
    var i := 0;
    while i < |arrivals|
      invariant 0 <= i <= |arrivals|
      invariant var p := Periodics(arrivals[..i]);
        && (buffer == [] <==> p == [])
        && current == (if p == [] then None else Some(p[|p| - 1].sample.elapsed))
        && Groups(p) == groups + if buffer == [] then [] else [buffer]
    {
      var a := arrivals[i];
      ghost var p, before := Periodics(arrivals[..i]), groups + [buffer];
      assert arrivals[..i + 1][..i] == arrivals[..i];
      i := i + 1;
      if a.sample.kind.Summary? {
        assert p + [] == p;
      } else {
        GroupsSnoc(p, a);
        assert p == [] ==> Groups(p) == groups == [] && groups + [[a]] == [[a]];
        assert p != [] ==> Groups(p) == before && before[..|before| - 1] == groups;
        if current.Some? && !Close(a.sample.elapsed, current.value) {
          groups, buffer := groups + [buffer], [];
        }
        assert buffer == [] ==> buffer + [a] == [a];
        current, buffer := Some(a.sample.elapsed), buffer + [a];
      }
    }
    assert arrivals[..i] == arrivals;
    if buffer != [] {
      groups := groups + [buffer];
    }
  }

  // ----- What a grouping is -----

  function Concat(groups: seq<seq<Arrival>>): seq<Arrival> {
    if groups == [] then [] else Concat(groups[..|groups| - 1]) + groups[|groups| - 1]
  }

  /** Each element is close to the one before it. */
  ghost predicate Linked(g: seq<Arrival>) {
    forall i | 0 <= i < |g| - 1 :: Close(g[i + 1].sample.elapsed, g[i].sample.elapsed)
  }

  ghost predicate Apart(g: seq<Arrival>, h: seq<Arrival>)
    requires g != [] && h != []
  {
    !Close(h[0].sample.elapsed, g[|g| - 1].sample.elapsed)
  }

  /** Nonempty linked runs of p that cannot be joined. */
  ghost predicate IsGrouping(groups: seq<seq<Arrival>>, p: seq<Arrival>) {
    && Concat(groups) == p
    && (forall i | 0 <= i < |groups| :: groups[i] != [] && Linked(groups[i]))
    && (forall i | 0 <= i < |groups| - 1 :: Apart(groups[i], groups[i + 1]))
  }

  lemma ConcatSnoc(groups: seq<seq<Arrival>>, g: seq<Arrival>)
    ensures Concat(groups + [g]) == Concat(groups) + g
  {
    assert (groups + [g])[..|groups|] == groups;
  }

  lemma ConcatLast(groups: seq<seq<Arrival>>)
    requires groups != [] && groups[|groups| - 1] != []
    ensures var g, p := groups[|groups| - 1], Concat(groups); p != [] && p[|p| - 1] == g[|g| - 1]
    ensures Concat(groups) == Concat(groups[..|groups| - 1]) + groups[|groups| - 1]
  {
  }

  lemma ConcatNonempty(groups: seq<seq<Arrival>>)
    requires Concat(groups) != []
    ensures groups != []
  {
  }

  /** Appending to the last group keeps a grouping when the new element is close. */
  lemma Joined(groups: seq<seq<Arrival>>, p: seq<Arrival>, x: Arrival)
    requires IsGrouping(groups, p) && p != []
    requires Close(x.sample.elapsed, p[|p| - 1].sample.elapsed)
    ensures groups != []
    ensures var m := |groups| - 1; IsGrouping(groups[..m] + [groups[m] + [x]], p + [x])
  {
    hide Close;
    var m := |groups| - 1;
    ConcatLast(groups);
    ConcatSnoc(groups[..m], groups[m] + [x]);
    assert Concat(groups[..m]) + (groups[m] + [x]) == p + [x];
    var g, joined := groups[m] + [x], groups[..m] + [groups[m] + [x]];
    assert g[|g| - 2] == p[|p| - 1];
    assert Linked(g);
    forall i | 0 <= i < |joined| - 1 ensures Apart(joined[i], joined[i + 1]) {
      assert Apart(groups[i], groups[i + 1]);
    }
  }

  lemma Started(groups: seq<seq<Arrival>>, p: seq<Arrival>, x: Arrival)
    requires IsGrouping(groups, p)
    requires p != [] ==> !Close(x.sample.elapsed, p[|p| - 1].sample.elapsed)
    ensures IsGrouping(groups + [[x]], p + [x])
  {
    hide Close;
    ConcatSnoc(groups, [x]);
    var more := groups + [[x]];
    forall i | 0 <= i < |more| ensures more[i] != [] && Linked(more[i]) {
      assert i < |groups| ==> more[i] == groups[i];
    }
    hide Concat, Linked;
    forall i | 0 <= i < |more| - 1 ensures Apart(more[i], more[i + 1]) {
      if i < |groups| - 1 {
        assert Apart(groups[i], groups[i + 1]);
      } else {
        ConcatLast(groups);
      }
    }
  }

  /** The groups hold exactly the periodic samples in order, are linked, and cannot be joined. */
  lemma {:induction false} GroupsGroup(p: seq<Arrival>)
    ensures IsGrouping(Groups(p), p)
  {
    if p != [] {
      hide IsGrouping, Close;
      var n := |p| - 1;
      GroupsGroup(p[..n]);
      assert p == p[..n] + [p[n]];
      if n > 0 && Close(p[n].sample.elapsed, p[n - 1].sample.elapsed) {
        Joined(Groups(p[..n]), p[..n], p[n]);
      } else {
        Started(Groups(p[..n]), p[..n], p[n]);
      }
    } else {
      assert Groups(p) == [];
    }
  }

  /** What is left of a grouping when its last element goes. */
  function Unsnoc(groups: seq<seq<Arrival>>): (r: seq<seq<Arrival>>)
    requires groups != [] && groups[|groups| - 1] != []
    ensures |r| <= |groups|
  {
    var m := |groups| - 1;
    var g := groups[m];
    if |g| == 1 then groups[..m] else groups[..m] + [g[..|g| - 1]]
  }

  lemma UnsnocConcat(groups: seq<seq<Arrival>>)
    requires groups != [] && groups[|groups| - 1] != []
    ensures Concat(groups) == Concat(Unsnoc(groups)) + [groups[|groups| - 1][|groups[|groups| - 1]| - 1]]
  {
    var m := |groups| - 1;
    var g := groups[m];
    if |g| > 1 {
      ConcatSnoc(groups[..m], g[..|g| - 1]);
      hide Concat;
    }
    assert g == g[..|g| - 1] + [g[|g| - 1]];
  }

  lemma UnsnocAt(groups: seq<seq<Arrival>>, i: nat)
    requires groups != [] && groups[|groups| - 1] != [] && i < |Unsnoc(groups)|
    requires groups[i] != [] && Linked(groups[i])
    ensures i < |groups| && Unsnoc(groups)[i] != [] && Linked(Unsnoc(groups)[i])
    ensures Unsnoc(groups)[i][0] == groups[i][0]
    ensures i < |Unsnoc(groups)| - 1 ==> Unsnoc(groups)[i] == groups[i]
  {
    hide Close;
  }

  lemma UnsnocGroups(groups: seq<seq<Arrival>>, p: seq<Arrival>)
    requires IsGrouping(groups, p) && p != []
    ensures groups != [] && groups[|groups| - 1] != [] && IsGrouping(Unsnoc(groups), p[..|p| - 1])
  {
    hide Close, Linked, Concat, Unsnoc;
    ConcatNonempty(groups);
    UnsnocConcat(groups);
    var less := Unsnoc(groups);
    assert Concat(less) == p[..|p| - 1];
    forall i | 0 <= i < |less| ensures less[i] != [] && Linked(less[i]) {
      UnsnocAt(groups, i);
    }
    forall i | 0 <= i < |less| - 1 ensures Apart(less[i], less[i + 1]) {
      UnsnocAt(groups, i);
      UnsnocAt(groups, i + 1);
      assert Apart(groups[i], groups[i + 1]);
    }
  }

  /** A grouping's shape at its end follows from the last two elements. */
  lemma LastStep(groups: seq<seq<Arrival>>, p: seq<Arrival>)
    requires IsGrouping(groups, p) && |p| > 1
    ensures groups != []
    ensures groups[|groups| - 1] != []
    ensures |groups[|groups| - 1]| > 1 <==> Close(p[|p| - 1].sample.elapsed, p[|p| - 2].sample.elapsed)
  {
    hide Close;
    var m := |groups| - 1;
    ConcatLast(groups);
    if |groups[m]| > 1 {
      assert Linked(groups[m]);
      assert p[|p| - 2] == groups[m][|groups[m]| - 2];
    } else {
      ConcatLast(groups[..m]);
      assert Apart(groups[m - 1], groups[m]);
    }
  }

  /** There is only one grouping. */
  lemma {:induction false} GroupingUnique(groups: seq<seq<Arrival>>, p: seq<Arrival>)
    requires IsGrouping(groups, p)
    ensures groups == Groups(p)
    decreases |p|
  {
    hide *;
    if p == [] {
      NoGroups(groups);
    } else {
      var n := |p| - 1;
      UnsnocGroups(groups, p);
      GroupingUnique(Unsnoc(groups), p[..n]);
      LastElement(groups, p);
      assert p == p[..n] + [p[n]];
      GroupsSnoc(p[..n], p[n]);
      if n > 0 {
        LastStep(groups, p);
      }
      Resnoc(groups, p[n]);
    }
  }

  lemma NoGroups(groups: seq<seq<Arrival>>)
    requires IsGrouping(groups, [])
    ensures groups == []
  {
    if groups != [] {
      ConcatLast(groups);
    }
  }

  /** Putting the last element back. */
  lemma Resnoc(groups: seq<seq<Arrival>>, x: Arrival)
    requires groups != [] && groups[|groups| - 1] != []
    requires groups[|groups| - 1][|groups[|groups| - 1]| - 1] == x
    ensures var less := Unsnoc(groups);
      if |groups[|groups| - 1]| == 1 then groups == less + [[x]]
      else less != [] && groups == less[..|less| - 1] + [less[|less| - 1] + [x]]
  {
    var m := |groups| - 1;
    var g := groups[m];
    assert g == g[..|g| - 1] + [x] && groups == groups[..m] + [g];
  }

  lemma LastElement(groups: seq<seq<Arrival>>, p: seq<Arrival>)
    requires IsGrouping(groups, p) && p != []
    ensures groups != [] && groups[|groups| - 1] != []
    ensures groups[|groups| - 1][|groups[|groups| - 1]| - 1] == p[|p| - 1]
  {
    hide Close, Linked;
    ConcatNonempty(groups);
    ConcatLast(groups);
  }

  lemma Grows(p: seq<Arrival>)
    requires p != []
    ensures var before, r := Groups(p[..|p| - 1]), Groups(p);
      |before| <= |r| && (before != [] ==> before[..|before| - 1] == r[..|before| - 1])
  {
  }

  /** All groups but the last of any prefix are final: they are groups of the whole stream. */
  lemma {:induction false} CompleteGroupsStay(p: seq<Arrival>, k: nat)
    requires 0 < k <= |p|
    ensures var early, r := Groups(p[..k]), Groups(p);
      |early| <= |r| && early[..|early| - 1] == r[..|early| - 1]
  {
    if k == |p| {
      assert p[..k] == p;
    } else {
      var n := |p| - 1;
      assert p[..n][..k] == p[..k];
      CompleteGroupsStay(p[..n], k);
      Grows(p);
      hide Groups;
      PrefixChain(Groups(p[..k]), Groups(p[..n]), Groups(p));
    }
  }

  lemma PrefixChain<T>(a: seq<T>, b: seq<T>, c: seq<T>)
    requires 0 < |a| <= |b| <= |c| && a[..|a| - 1] == b[..|a| - 1] && b[..|b| - 1] == c[..|b| - 1]
    ensures a[..|a| - 1] == c[..|a| - 1]
  {
    assert b[..|b| - 1][..|a| - 1] == b[..|a| - 1];
    assert c[..|b| - 1][..|a| - 1] == c[..|a| - 1];
  }

  // ----- Folding one offset's samples into a tick -----

  /** A dictionary as Python keeps it: entries in order of first insertion. */
  type Dict = seq<(string, Sample)>

  function Put(d: Dict, op: string, s: Sample): (r: Dict)
    ensures r != []
  {
    if d == [] then [(op, s)]
    else if d[0].0 == op then [(op, s)] + d[1..]
    else [d[0]] + Put(d[1..], op, s)
  }

  function ByOp(samples: seq<Sample>): (r: Dict)
    ensures r == [] <==> samples == []
  {
    if samples == [] then []
    else
      var n := |samples| - 1;
      Put(ByOp(samples[..n]), samples[n].op, samples[n])
  }

  /** Throughput; None is NaN. */
  function Tps(s: Sample): Option<real> {
    if "tps" in s.values then Some(s.values["tps"]) else None
  }

  function Plus(x: Option<real>, y: Option<real>): Option<real> {
    if x.Some? && y.Some? then Some(x.value + y.value) else None
  }

  function SumTps(d: Dict): Option<real> {
    if d == [] then Some(0.0) else Plus(Tps(d[0].1), SumTps(d[1..]))
  }

  predicate IsComponent(op: string) {
    op != "total" && op != "all"
  }

  function Components(d: Dict): Dict {
    if d == [] then []
    else (if IsComponent(d[0].0) then [d[0]] else []) + Components(d[1..])
  }

  function MaxErrors(d: Dict): int
    requires d != []
  {
    if |d| == 1 || d[0].1.errors >= MaxErrors(d[1..]) then d[0].1.errors else MaxErrors(d[1..])
  }

  datatype AggregateError = SummarySample | OffsetsDiffer | NoSamples

  datatype Tick = Tick(elapsed: real, total: Option<real>, errors: int, byOp: Dict)

  datatype Aggregated = Folded(tick: Tick) | Refused(error: AggregateError)

  function TickOf(elapsed: real, d: Dict): Tick
    requires d != []
  {
    var components := Components(d);
    if components != [] then Tick(elapsed, SumTps(components), MaxErrors(components), d)
    else Tick(elapsed, Tps(d[0].1), d[0].1.errors, d)
  }

  function Complain(first: real, s: Sample): Option<AggregateError> {
    if s.kind.Summary? then Some(SummarySample)
    else if !Close(s.elapsed, first) then Some(OffsetsDiffer)
    else None
  }

  /** The error of the first sample that cannot join the tick. */
  function FirstComplaint(samples: seq<Sample>): Option<AggregateError> {
    if samples == [] then None
    else
      var n := |samples| - 1;
      var before := FirstComplaint(samples[..n]);
      if before.Some? then before else Complain(samples[0].elapsed, samples[n])
  }

  function Aggregate(samples: seq<Sample>): Aggregated {
    if FirstComplaint(samples).Some? then Refused(FirstComplaint(samples).value)
    else if samples == [] then Refused(NoSamples)
    else Folded(TickOf(samples[0].elapsed, ByOp(samples)))
  }

  lemma {:induction false} ComplaintStays(samples: seq<Sample>, i: nat)
    requires i <= |samples| && FirstComplaint(samples[..i]).Some?
    ensures FirstComplaint(samples) == FirstComplaint(samples[..i])
  {
    if i == |samples| {
      assert samples[..i] == samples;
    } else {
      var n := |samples| - 1;
      assert samples[..n][..i] == samples[..i];
      ComplaintStays(samples[..n], i);
    }
  }

  method AggregateTick(samples: seq<Sample>) returns (r: Aggregated)
    ensures r == Aggregate(samples)
  {
    hide TickOf, Put, Tps, Close, Components, SumTps, MaxErrors;
    var byOp: Dict, elapsed: Option<real> := [], None;
    var i := 0;
    while i < |samples|
      invariant 0 <= i <= |samples|
      invariant FirstComplaint(samples[..i]) == None && byOp == ByOp(samples[..i])
      invariant elapsed == if i == 0 then None else Some(samples[0].elapsed)
    {
      var s := samples[i];
      i := i + 1;
      assert samples[..i][..i - 1] == samples[..i - 1];
      if s.kind.Summary? {
        ComplaintStays(samples, i);
        return Refused(SummarySample);
      }
      if elapsed.None? {
        CloseToItself(s.elapsed);
        elapsed := Some(s.elapsed);
      } else if !Close(s.elapsed, elapsed.value) {
        ComplaintStays(samples, i);
        return Refused(OffsetsDiffer);
      }
      byOp := Put(byOp, s.op, s);
    }
    assert samples[..i] == samples;
    if elapsed.None? {
      return Refused(NoSamples);
    }
    return Folded(TickOf(elapsed.value, byOp));
  }

  lemma CloseToItself(x: real)
    ensures Close(x, x)
  {
  }

  /** A tick is made exactly of nonempty periodic samples all close to the first of them. */
  lemma AggregatesIff(samples: seq<Sample>)
    ensures Aggregate(samples).Folded? <==>
            samples != [] && forall s | s in samples :: s.kind.Periodic? && Close(s.elapsed, samples[0].elapsed)
  {
    hide Close, ByOp, Put, TickOf;
    if samples != [] {
      ComplaintIff(samples);
    }
  }

  lemma {:induction false} ComplaintIff(samples: seq<Sample>)
    ensures FirstComplaint(samples) == None <==>
            forall s | s in samples :: s.kind.Periodic? && Close(s.elapsed, samples[0].elapsed)
  {
    hide Close;
    if samples != [] {
      var n := |samples| - 1;
      ComplaintIff(samples[..n]);
      assert samples == samples[..n] + [samples[n]];
      CloseToItself(samples[0].elapsed);
      assert forall s :: s in samples <==> s in samples[..n] || s == samples[n];
    }
  }

  // ----- What the dictionary holds -----

  ghost predicate DistinctOps(d: Dict) {
    forall i, j | 0 <= i < j < |d| :: d[i].0 != d[j].0
  }

  lemma {:induction false} PutMeans(d: Dict, op: string, s: Sample)
    requires DistinctOps(d)
    ensures DistinctOps(Put(d, op, s))
    ensures forall e :: e in Put(d, op, s) <==> e == (op, s) || (e in d && e.0 != op)
  {
    if d != [] {
      assert d == [d[0]] + d[1..];
      PutMeans(d[1..], op, s);
      assert forall e | e in d[1..] :: e.0 != d[0].0;
    }
  }

  /** The last sample carrying this label. */
  function LastOf(samples: seq<Sample>, op: string): Option<Sample> {
    if samples == [] then None
    else
      var n := |samples| - 1;
      if samples[n].op == op then Some(samples[n]) else LastOf(samples[..n], op)
  }

  /** One entry an operation type, holding its latest sample. */
  lemma {:induction false} LatestPerOp(samples: seq<Sample>)
    ensures DistinctOps(ByOp(samples))
    ensures forall op, s :: (op, s) in ByOp(samples) <==> LastOf(samples, op) == Some(s)
  {
    if samples != [] {
      var n := |samples| - 1;
      LatestPerOp(samples[..n]);
      PutMeans(ByOp(samples[..n]), samples[n].op, samples[n]);
      hide Put, DistinctOps;
    }
  }

  // ----- What a tick reports -----

  lemma {:induction false} MaxErrorsIs(d: Dict)
    requires d != []
    ensures exists e :: e in d && e.1.errors == MaxErrors(d)
    ensures forall e | e in d :: e.1.errors <= MaxErrors(d)
  {
    assert d == [d[0]] + d[1..];
    assert d[0] in d;
    if |d| > 1 {
      MaxErrorsIs(d[1..]);
    }
  }

  lemma {:induction false} ComponentsAre(d: Dict)
    ensures forall e :: e in Components(d) <==> e in d && IsComponent(e.0)
  {
    hide IsComponent;
    if d != [] {
      ComponentsAre(d[1..]);
      assert d == [d[0]] + d[1..];
    }
  }

  /** The throughputs of two parts add up; without a number in one there is none for both. */
  lemma {:induction false} SumSplits(d: Dict, e: Dict)
    ensures SumTps(d + e) == Plus(SumTps(d), SumTps(e))
    ensures |d| == 1 ==> SumTps(d) == Tps(d[0].1)
  {
    hide Tps;
    if d == [] {
      assert d + e == e;
    } else {
      assert (d + e)[1..] == d[1..] + e;
      SumSplits(d[1..], e);
    }
  }

  lemma PutKeepsFirst(d: Dict, op: string, s: Sample)
    ensures Put(d, op, s)[0].0 == if d == [] then op else d[0].0
  {
  }

  lemma {:induction false} FirstOp(samples: seq<Sample>)
    requires samples != []
    ensures ByOp(samples)[0].0 == samples[0].op
  {
    hide Put;
    var n := |samples| - 1;
    PutKeepsFirst(ByOp(samples[..n]), samples[n].op, samples[n]);
    if n > 0 {
      FirstOp(samples[..n]);
    }
  }

  /** The entry is the latest sample of an operation type that is no sum. */
  ghost predicate LatestComponent(samples: seq<Sample>, s: Sample) {
    s.op != "total" && s.op != "all" && LastOf(samples, s.op) == Some(s)
  }

  lemma {:induction false} LastOfIs(samples: seq<Sample>, op: string)
    ensures LastOf(samples, op).Some? ==> LastOf(samples, op).value.op == op
    ensures LastOf(samples, op).Some? <==> exists s :: s in samples && s.op == op
  {
    if samples != [] {
      var n := |samples| - 1;
      LastOfIs(samples[..n], op);
      assert samples == samples[..n] + [samples[n]];
      assert samples[n] in samples;
    }
  }

  /** A tick stands at its first sample's offset. With operation types that are no sums, its error count is
      the greatest of their latest samples'; otherwise it repeats the latest sample of the first type. */
  lemma TickMeans(samples: seq<Sample>)
    requires Aggregate(samples).Folded?
    ensures samples != []
    ensures var t := Aggregate(samples).tick;
      && t.elapsed == samples[0].elapsed
      && (forall s | LatestComponent(samples, s) :: s.errors <= t.errors)
      && (if exists s :: s in samples && s.op != "total" && s.op != "all"
          then t.total == SumTps(Components(ByOp(samples))) && exists s :: LatestComponent(samples, s) && s.errors == t.errors
          else var only := LastOf(samples, samples[0].op);
               only.Some? && t.errors == only.value.errors && t.total == Tps(only.value))
  {
    hide *;
    FoldedIs(samples);
    var d := ByOp(samples);
    LatestPerOp(samples);
    ComponentsAre(d);
    FirstOp(samples);
    LastOfIs(samples, samples[0].op);
    assert d[0] in d && d[0] == (d[0].0, d[0].1);
    ComponentEntries(samples, d, Components(d));
    TickOfIs(samples[0].elapsed, d);
    if Components(d) != [] {
      MaxErrorsIs(Components(d));
    }
  }

  lemma FoldedIs(samples: seq<Sample>)
    requires Aggregate(samples).Folded?
    ensures samples != [] && ByOp(samples) != [] && Aggregate(samples).tick == TickOf(samples[0].elapsed, ByOp(samples))
  {
    hide TickOf, FirstComplaint;
  }

  lemma TickOfIs(elapsed: real, d: Dict)
    requires d != []
    ensures var t, c := TickOf(elapsed, d), Components(d);
      && t.elapsed == elapsed
      && t.errors == (if c != [] then MaxErrors(c) else d[0].1.errors)
      && t.total == if c != [] then SumTps(c) else Tps(d[0].1)
  {
    hide Components, MaxErrors, SumTps, Tps;
  }

  lemma ComponentEntries(samples: seq<Sample>, d: Dict, c: Dict)
    requires forall op, s :: (op, s) in d <==> LastOf(samples, op) == Some(s)
    requires forall e :: e in c <==> e in d && IsComponent(e.0)
    ensures forall e | e in c :: LatestComponent(samples, e.1)
    ensures forall s | LatestComponent(samples, s) :: (s.op, s) in c
    ensures c != [] <==> exists s :: s in samples && s.op != "total" && s.op != "all"
  {
    hide LastOf;
    forall e | e in c ensures LatestComponent(samples, e.1) && exists s :: s in samples && s.op != "total" && s.op != "all" {
      assert e == (e.0, e.1);
      LastOfIs(samples, e.0);
    }
    if s :| s in samples && s.op != "total" && s.op != "all" {
      LastOfIs(samples, s.op);
      assert (s.op, LastOf(samples, s.op).value) in c;
    }
    assert c != [] ==> c[0] in c;
  }

  /** The periodic samples of two parts, in order: those of the first, then those of the second. */
  lemma {:induction false} PeriodicsSplit(a: seq<Arrival>, b: seq<Arrival>)
    ensures Periodics(a + b) == Periodics(a) + Periodics(b)
    ensures |a| == 1 ==> Periodics(a) == if a[0].sample.kind.Periodic? then a else []
  {
    if b == [] {
      assert a + b == a;
    } else {
      var n := |b| - 1;
      assert (a + b)[..|a + b| - 1] == a + b[..n];
      PeriodicsSplit(a, b[..n]);
    }
  }

  /** Sample i is the first that cannot join: a summary, or off the first sample's offset. */
  ghost predicate FirstMisfit(samples: seq<Sample>, i: int) {
    && 0 <= i < |samples| && Misfit(samples, i) && forall j | 0 <= j < i :: !Misfit(samples, j)
  }

  predicate Misfit(samples: seq<Sample>, i: nat)
    requires i < |samples|
  {
    samples[i].kind.Summary? || !Close(samples[i].elapsed, samples[0].elapsed)
  }

  lemma {:induction false} FirstComplaintIs(samples: seq<Sample>)
    ensures var r := FirstComplaint(samples);
      if r.Some? then exists i :: FirstMisfit(samples, i) && (r.value.SummarySample? <==> samples[i].kind.Summary?) &&
                                  (r.value.OffsetsDiffer? <==> samples[i].kind.Periodic?)
      else forall i | 0 <= i < |samples| :: !Misfit(samples, i)
  {
    hide Close;
    if samples != [] {
      var n := |samples| - 1;
      FirstComplaintIs(samples[..n]);
      assert forall i | 0 <= i < n :: Misfit(samples[..n], i) == Misfit(samples, i);
      if FirstComplaint(samples[..n]).Some? {
        var i :| FirstMisfit(samples[..n], i) && (FirstComplaint(samples[..n]).value.SummarySample? <==> samples[..n][i].kind.Summary?) &&
          (FirstComplaint(samples[..n]).value.OffsetsDiffer? <==> samples[..n][i].kind.Periodic?);
        assert FirstMisfit(samples, i);
      } else if FirstComplaint(samples).Some? {
        assert FirstMisfit(samples, n);
      }
    }
  }

  /** A tick is refused for want of samples, or for the first sample that cannot join, and says which. */
  lemma RefusalMeans(samples: seq<Sample>)
    requires Aggregate(samples).Refused?
    ensures var e := Aggregate(samples).error;
      && (e.NoSamples? <==> samples == [])
      && (samples != [] ==> exists i :: FirstMisfit(samples, i) && (e.SummarySample? <==> samples[i].kind.Summary?))
  {
    hide ByOp, TickOf, Misfit;
    FirstComplaintIs(samples);
  }
}
