/** The rows a benchmark tier writes for its ticks, and the loader's regrouping of those rows. */
module TierRows {
  import opened Options
  import opened Ordering
  import opened Ticks
  import opened TimedTicks

  datatype Row = Row(elapsed: real, op: string, tps: Option<real>)

  // ----- Writing -----

  /** The rows of one tick's first n operation types. */
  function TickRows(t: Tick, n: nat): seq<Row>
    requires n <= |t.byOp|
  {
    if n == 0 then []
    else TickRows(t, n - 1) + [Row(t.elapsed, t.byOp[n - 1].0, Tps(t.byOp[n - 1].1))]
  }

  function RowsOf(ticks: seq<Stamped>): seq<Row> {
    if ticks == [] then []
    else
      var n := |ticks| - 1;
      RowsOf(ticks[..n]) + TickRows(ticks[n].tick, |ticks[n].tick.byOp|)
  }

  /** Ticks past the warm-up. */
  function Kept(ticks: seq<Stamped>, warmup: real): seq<Stamped> {
    if ticks == [] then []
    else
      var n := |ticks| - 1;
      Kept(ticks[..n], warmup) + if ticks[n].tick.elapsed > warmup then [ticks[n]] else []
  }

  function TotalsOf(ticks: seq<Stamped>): (r: seq<Option<real>>)
    ensures |r| == |ticks| && forall i | 0 <= i < |r| :: r[i] == ticks[i].tick.total
  {
    seq(|ticks|, i requires 0 <= i < |ticks| => ticks[i].tick.total)
  }

  lemma KeptNext(ticks: seq<Stamped>, t: Stamped, warmup: real)
    ensures Kept(ticks + [t], warmup) == if t.tick.elapsed > warmup then Kept(ticks, warmup) + [t] else Kept(ticks, warmup)
  {
    assert (ticks + [t])[..|ticks|] == ticks;
  }

  lemma RowsNext(ticks: seq<Stamped>, t: Stamped)
    ensures RowsOf(ticks + [t]) == RowsOf(ticks) + TickRows(t.tick, |t.tick.byOp|)
    ensures TotalsOf(ticks + [t]) == TotalsOf(ticks) + [t.tick.total]
  {
    hide TickRows;
    assert (ticks + [t])[..|ticks|] == ticks;
  }

  lemma TickRowsNext(t: Tick, n: nat)
    requires n < |t.byOp|
    ensures TickRows(t, 0) == []
    ensures TickRows(t, n + 1) == TickRows(t, n) + [Row(t.elapsed, t.byOp[n].0, Tps(t.byOp[n].1))]
  {
    hide Tps;
  }

  lemma NothingWritten(warmup: real)
    ensures Kept([], warmup) == [] && RowsOf([]) == [] && TotalsOf([]) == []
    ensures forall t :: TickRows(t, 0) == []
  {
  }

  method WriteRows(timed: seq<Stamped>, warmup: real)
      returns (kept: nat, throughputs: seq<Option<real>>, rows: seq<Row>)
    ensures kept == |Kept(timed, warmup)|
    ensures throughputs == TotalsOf(Kept(timed, warmup))
    ensures rows == RowsOf(Kept(timed, warmup))
  {
    hide *;
    NothingWritten(warmup);
    kept, throughputs, rows := 0, [], [];
    var i := 0;
    while i < |timed|
      invariant 0 <= i <= |timed|
      invariant kept == |Kept(timed[..i], warmup)|
      invariant throughputs == TotalsOf(Kept(timed[..i], warmup))
      invariant rows == RowsOf(Kept(timed[..i], warmup))
    {
      var tick := timed[i].tick;
      ghost var before := Kept(timed[..i], warmup);
      KeptNext(timed[..i], timed[i], warmup);
      assert timed[..i + 1] == timed[..i] + [timed[i]];
      i := i + 1;
      if tick.elapsed <= warmup {
        continue;
      }
      RowsNext(before, timed[i - 1]);
      kept, throughputs := kept + 1, throughputs + [tick.total];
      var j := 0;
      assert rows + [] == rows;
      while j < |tick.byOp|
        invariant 0 <= j <= |tick.byOp|
        invariant rows == RowsOf(before) + TickRows(tick, j)
      {
        TickRowsNext(tick, j);
        rows := rows + [Row(tick.elapsed, tick.byOp[j].0, Tps(tick.byOp[j].1))];
        j := j + 1;
      }
    }
    assert timed[..i] == timed;
  }

  // ----- Reading back -----

  datatype Loaded = Loaded(elapsed: real, total: real)

  function Offsets(rows: seq<Row>): (r: seq<real>)
    ensures |r| == |rows| && forall i | 0 <= i < |r| :: r[i] == rows[i].elapsed
  {
    seq(|rows|, i requires 0 <= i < |rows| => rows[i].elapsed)
  }

  /** A missing throughput adds nothing. */
  function SumAt(rows: seq<Row>, elapsed: real): real {
    if rows == [] then 0.0
    else (if rows[0].elapsed == elapsed then rows[0].tps.Or(0.0) else 0.0) + SumAt(rows[1..], elapsed)
  }

  function Past(rows: seq<Row>, warmup: real): seq<Row> {
    if rows == [] then []
    else (if rows[0].elapsed > warmup then [rows[0]] else []) + Past(rows[1..], warmup)
  }

  function LoadAt(rows: seq<Row>, keys: seq<real>): (r: seq<Loaded>)
    ensures |r| == |keys| && forall i | 0 <= i < |r| :: r[i] == Loaded(keys[i], SumAt(rows, keys[i]))
  {
    seq(|keys|, i requires 0 <= i < |keys| => Loaded(keys[i], SumAt(rows, keys[i])))
  }

  /** One tick for each distinct offset, ascending, with the throughputs of its rows summed. */
  function Load(rows: seq<Row>, warmup: real): seq<Loaded> {
    var work := if warmup == 0.0 then rows else Past(rows, warmup);
    LoadAt(work, Collapse(SortReals(Offsets(work))))
  }

  // ----- The round trip -----

  ghost predicate Rising(ticks: seq<Stamped>) {
    forall i, j | 0 <= i < j < |ticks| :: ticks[i].tick.elapsed < ticks[j].tick.elapsed
  }

  ghost predicate Filled(ticks: seq<Stamped>) {
    forall i | 0 <= i < |ticks| :: ticks[i].tick.byOp != []
  }

  function SumPresent(d: Dict): real {
    if d == [] then 0.0 else Tps(d[0].1).Or(0.0) + SumPresent(d[1..])
  }

  function Reloaded(ticks: seq<Stamped>): (r: seq<Loaded>)
    ensures |r| == |ticks|
    ensures forall i | 0 <= i < |r| :: r[i] == Loaded(ticks[i].tick.elapsed, SumPresent(ticks[i].tick.byOp))
  {
    seq(|ticks|, i requires 0 <= i < |ticks| => Loaded(ticks[i].tick.elapsed, SumPresent(ticks[i].tick.byOp)))
  }

  lemma {:induction false} TickRowsShare(t: Tick, n: nat)
    requires n <= |t.byOp|
    ensures |TickRows(t, n)| == n && forall r | r in TickRows(t, n) :: r.elapsed == t.elapsed
  {
    hide Tps;
    if n > 0 {
      TickRowsShare(t, n - 1);
    }
  }

  lemma {:induction false} SumAtAppend(a: seq<Row>, b: seq<Row>, elapsed: real)
    ensures SumAt(a + b, elapsed) == SumAt(a, elapsed) + SumAt(b, elapsed)
  {
    if a == [] {
      assert a + b == b;
    } else {
      assert (a + b)[1..] == a[1..] + b;
      SumAtAppend(a[1..], b, elapsed);
    }
  }

  lemma {:induction false} SumAtNone(rows: seq<Row>, elapsed: real)
    requires forall r | r in rows :: r.elapsed != elapsed
    ensures SumAt(rows, elapsed) == 0.0
  {
    if rows != [] {
      assert rows[0] in rows;
      SumAtNone(rows[1..], elapsed);
    }
  }

  lemma {:induction false} SumPresentAppend(a: Dict, b: Dict)
    ensures SumPresent(a + b) == SumPresent(a) + SumPresent(b)
  {
    hide Tps;
    if a == [] {
      assert a + b == b;
    } else {
      assert (a + b)[1..] == a[1..] + b;
      SumPresentAppend(a[1..], b);
    }
  }

  lemma {:induction false} SumTickRows(t: Tick, n: nat)
    requires n <= |t.byOp|
    ensures SumAt(TickRows(t, n), t.elapsed) == SumPresent(t.byOp[..n])
  {
    hide Tps;
    if n > 0 {
      SumTickRows(t, n - 1);
      var last := [Row(t.elapsed, t.byOp[n - 1].0, Tps(t.byOp[n - 1].1))];
      SumAtAppend(TickRows(t, n - 1), last, t.elapsed);
      assert last[1..] == [] && SumAt(last, t.elapsed) == Tps(t.byOp[n - 1].1).Or(0.0);
      SumPresentAppend(t.byOp[..n - 1], [t.byOp[n - 1]]);
      assert t.byOp[..n] == t.byOp[..n - 1] + [t.byOp[n - 1]];
      assert [t.byOp[n - 1]][1..] == [];
    }
  }

  lemma {:induction false} RowsFrom(ticks: seq<Stamped>, r: Row)
    requires r in RowsOf(ticks)
    ensures exists i | 0 <= i < |ticks| :: r.elapsed == ticks[i].tick.elapsed
  {
    var n := |ticks| - 1;
    var t := ticks[n].tick;
    hide TickRows;
    TickRowsShare(t, |t.byOp|);
    if r in TickRows(t, |t.byOp|) {
      assert r.elapsed == ticks[n].tick.elapsed;
    } else {
      RowsFrom(ticks[..n], r);
    }
  }

  lemma {:induction false} SumOfTick(ticks: seq<Stamped>, i: nat)
    requires i < |ticks| && Rising(ticks)
    ensures SumAt(RowsOf(ticks), ticks[i].tick.elapsed) == SumPresent(ticks[i].tick.byOp)
  {
    hide TickRows, SumAt, SumPresent;
    var n := |ticks| - 1;
    var t, e := ticks[n].tick, ticks[i].tick.elapsed;
    var rows := TickRows(t, |t.byOp|);
    SumAtAppend(RowsOf(ticks[..n]), rows, e);
    if i == n {
      forall r | r in RowsOf(ticks[..n]) ensures r.elapsed != e {
        RowsFrom(ticks[..n], r);
      }
      SumAtNone(RowsOf(ticks[..n]), e);
      SumTickRows(t, |t.byOp|);
      assert t.byOp[..|t.byOp|] == t.byOp;
    } else {
      SumOfTick(ticks[..n], i);
      TickRowsShare(t, |t.byOp|);
      SumAtNone(rows, e);
    }
  }

  function TickOffsets(ticks: seq<Stamped>): (r: seq<real>)
    ensures |r| == |ticks| && forall i | 0 <= i < |r| :: r[i] == ticks[i].tick.elapsed
  {
    seq(|ticks|, i requires 0 <= i < |ticks| => ticks[i].tick.elapsed)
  }

  lemma {:induction false} CollapseRun(s: seq<real>, run: seq<real>)
    requires run != [] && forall i | 0 <= i < |run| :: run[i] == run[0]
    requires s == [] || s[|s| - 1] != run[0]
    ensures Collapse(s + run) == Collapse(s) + [run[0]]
  {
    var n := |run| - 1;
    assert (s + run)[..|s + run| - 1] == s + run[..n];
    if n == 0 {
      assert s + run[..n] == s;
    } else {
      CollapseRun(s, run[..n]);
    }
  }

  /** Rows of rising ticks come out sorted, one run of equal offsets a tick. */
  lemma {:induction false} OffsetsOfRows(ticks: seq<Stamped>)
    requires Rising(ticks) && Filled(ticks)
    ensures var s := Offsets(RowsOf(ticks));
      && Ascending(s) && Collapse(s) == TickOffsets(ticks)
      && (s == [] <==> ticks == [])
      && (ticks != [] ==> s[|s| - 1] == ticks[|ticks| - 1].tick.elapsed)
  {
    hide TickRows;
    if ticks != [] {
      var n := |ticks| - 1;
      var t := ticks[n].tick;
      assert t.byOp != [] && Rising(ticks[..n]) && Filled(ticks[..n]);
      assert n > 0 ==> ticks[n - 1].tick.elapsed < t.elapsed;
      OffsetsOfRows(ticks[..n]);
      TickRowsShare(t, |t.byOp|);
      var before, rows := RowsOf(ticks[..n]), TickRows(t, |t.byOp|);
      assert RowsOf(ticks) == before + rows;
      assert TickOffsets(ticks) == TickOffsets(ticks[..n]) + [t.elapsed];
      hide *;
      var s, run := Offsets(before), Offsets(rows);
      OffsetsAppend(before, rows);
      RunOfRows(rows, t.elapsed);
      CollapseRun(s, run);
      AscendingRun(s, run);
    }
  }

  lemma OffsetsAppend(a: seq<Row>, b: seq<Row>)
    ensures Offsets(a + b) == Offsets(a) + Offsets(b)
  {
  }

  lemma RunOfRows(rows: seq<Row>, elapsed: real)
    requires forall r | r in rows :: r.elapsed == elapsed
    ensures forall i | 0 <= i < |rows| :: Offsets(rows)[i] == elapsed
  {
    forall i | 0 <= i < |rows| ensures Offsets(rows)[i] == elapsed {
      assert rows[i] in rows;
    }
  }

  lemma AscendingRun(s: seq<real>, run: seq<real>)
    requires Ascending(s) && run != [] && forall i | 0 <= i < |run| :: run[i] == run[0]
    requires s == [] || s[|s| - 1] < run[0]
    ensures Ascending(s + run)
  {
  }

  lemma LoadRising(ticks: seq<Stamped>)
    requires Rising(ticks) && Filled(ticks)
    ensures Load(RowsOf(ticks), 0.0) == Reloaded(ticks)
  {
    hide RowsOf, Collapse, SumAt, SumPresent, Filled;
    var rows := RowsOf(ticks);
    var s := Offsets(rows);
    OffsetsOfRows(ticks);
    SortRealsAscending(s);
    AscendingUnique(SortReals(s), s);
    forall i | 0 <= i < |ticks| ensures Load(rows, 0.0)[i] == Reloaded(ticks)[i] {
      SumOfTick(ticks, i);
    }
  }

  lemma {:induction false} PastAppend(a: seq<Row>, b: seq<Row>, warmup: real)
    ensures Past(a + b, warmup) == Past(a, warmup) + Past(b, warmup)
  {
    if a == [] {
      assert a + b == b;
    } else {
      assert (a + b)[1..] == a[1..] + b;
      PastAppend(a[1..], b, warmup);
    }
  }

  lemma {:induction false} PastShared(rows: seq<Row>, elapsed: real, warmup: real)
    requires forall r | r in rows :: r.elapsed == elapsed
    ensures Past(rows, warmup) == if elapsed > warmup then rows else []
  {
    if rows != [] {
      assert rows[0] in rows;
      PastShared(rows[1..], elapsed, warmup);
    }
  }

  /** Dropping the rows up to the warm-up drops whole ticks. */
  lemma {:induction false} PastRows(ticks: seq<Stamped>, warmup: real)
    ensures Past(RowsOf(ticks), warmup) == RowsOf(Kept(ticks, warmup))
  {
    hide TickRows;
    if ticks != [] {
      var n := |ticks| - 1;
      var t, before := ticks[n].tick, Kept(ticks[..n], warmup);
      var rows := TickRows(t, |t.byOp|);
      PastRows(ticks[..n], warmup);
      TickRowsShare(t, |t.byOp|);
      hide Past;
      PastAppend(RowsOf(ticks[..n]), rows, warmup);
      PastShared(rows, t.elapsed, warmup);
      if t.elapsed > warmup {
        assert (before + [ticks[n]])[..|before|] == before;
      } else {
        assert before + [] == before;
      }
    }
  }

  lemma {:induction false} KeptMeans(ticks: seq<Stamped>, warmup: real)
    ensures forall t :: t in Kept(ticks, warmup) <==> t in ticks && t.tick.elapsed > warmup
    ensures Rising(ticks) ==> Rising(Kept(ticks, warmup))
  {
    if ticks != [] {
      var n := |ticks| - 1;
      KeptMeans(ticks[..n], warmup);
      assert ticks == ticks[..n] + [ticks[n]];
      var before := Kept(ticks[..n], warmup);
      assert Rising(ticks) ==> Rising(ticks[..n]);
      assert Kept(ticks, warmup) == before + if ticks[n].tick.elapsed > warmup then [ticks[n]] else [];
      hide Kept;
      if Rising(ticks) && ticks[n].tick.elapsed > warmup {
        forall i | 0 <= i < |before| ensures before[i].tick.elapsed < ticks[n].tick.elapsed {
          assert before[i] in before;
        }
      }
    }
  }

  lemma KeptFilled(ticks: seq<Stamped>, warmup: real)
    requires Filled(ticks)
    ensures Filled(Kept(ticks, warmup))
  {
    KeptMeans(ticks, warmup);
    hide Kept;
    var k := Kept(ticks, warmup);
    forall i | 0 <= i < |k| ensures k[i].tick.byOp != [] {
      assert k[i] in k;
    }
  }

  /** The rows a tier writes after its warm-up read back, past a further warm-up or none, as exactly the
      ticks beyond both, each with the sum of all its throughputs. */
  lemma WrittenRowsReload(ticks: seq<Stamped>, warmup: real, later: real)
    requires Rising(ticks) && Filled(ticks)
    ensures Load(RowsOf(Kept(ticks, warmup)), later) ==
            Reloaded(if later == 0.0 then Kept(ticks, warmup) else Kept(Kept(ticks, warmup), later))
  {
    hide RowsOf, Rising, Filled, Kept, Collapse, Past, SumAt;
    var kept := Kept(ticks, warmup);
    KeptMeans(ticks, warmup);
    KeptFilled(ticks, warmup);
    LoadRising(kept);
    if later != 0.0 {
      KeptMeans(kept, later);
      KeptFilled(kept, later);
      PastRows(kept, later);
      LoadRising(Kept(kept, later));
    }
  }

  // ----- The rows themselves -----

  lemma {:induction false} TickRowsAre(t: Tick, n: nat, k: nat)
    requires k < n <= |t.byOp|
    ensures |TickRows(t, n)| == n && TickRows(t, n)[k] == Row(t.elapsed, t.byOp[k].0, Tps(t.byOp[k].1))
  {
    hide Tps;
    TickRowsShare(t, n);
    TickRowsShare(t, n - 1);
    if k < n - 1 {
      TickRowsAre(t, n - 1, k);
    }
  }

  /** How many rows the ticks before the i-th have. */
  function RowsBefore(ticks: seq<Stamped>, i: nat): nat
    requires i <= |ticks|
  {
    if i == 0 then 0 else RowsBefore(ticks, i - 1) + |ticks[i - 1].tick.byOp|
  }

  lemma {:induction false} RowsBeforePrefix(ticks: seq<Stamped>, i: nat, n: nat)
    requires i <= n <= |ticks|
    ensures RowsBefore(ticks[..n], i) == RowsBefore(ticks, i)
  {
    if i > 0 {
      RowsBeforePrefix(ticks, i - 1, n);
    }
  }

  lemma {:induction false} RowsCount(ticks: seq<Stamped>)
    ensures |RowsOf(ticks)| == RowsBefore(ticks, |ticks|)
  {
    if ticks != [] {
      var n := |ticks| - 1;
      hide TickRows;
      RowsCount(ticks[..n]);
      RowsBeforePrefix(ticks, n, n);
      TickRowsShare(ticks[n].tick, |ticks[n].tick.byOp|);
    }
  }

  /** Row for row: the k-th row of a tick has its offset, its k-th operation type and that type's throughput,
      and comes after the rows of all ticks before. */
  lemma {:induction false} RowsAre(ticks: seq<Stamped>, i: nat, k: nat)
    requires i < |ticks| && k < |ticks[i].tick.byOp|
    ensures var t, rows := ticks[i].tick, RowsOf(ticks);
      && |rows| == RowsBefore(ticks, |ticks|) && RowsBefore(ticks, i) + k < |rows|
      && rows[RowsBefore(ticks, i) + k] == Row(t.elapsed, t.byOp[k].0, Tps(t.byOp[k].1))
  {
    var n := |ticks| - 1;
    RowsNext(ticks[..n], ticks[n]);
    assert ticks == ticks[..n] + [ticks[n]];
    RowsCount(ticks);
    RowsCount(ticks[..n]);
    RowsBeforePrefix(ticks, n, n);
    RowsBeforePrefix(ticks, i, n);
    hide RowsOf, RowsBefore, TickRows, Tps;
    if i == n {
      TickRowsAre(ticks[n].tick, |ticks[n].tick.byOp|, k);
    } else {
      RowsAre(ticks[..n], i, k);
    }
  }
}
