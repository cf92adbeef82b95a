/** The row-match probes: did the tier's statements touch rows, judged from counters that may be reset
    while the tier runs. */
module RowMatch {
  import opened Options
  import opened PreflightReports

  // ----- The statistics view -----

  /** Statements recorded, rows they touched, and (in PostgreSQL's view) sequential scans, since the
      counters were last reset. */
  datatype Counters = Counters(count: nat, rows: nat, seqScans: nat)

  /** A statement that touches one row or none, a sequential scan, or a reset of the counters. */
  datatype Event = Execute(matched: bool) | SeqScan | Flush

  function Step(c: Counters, e: Event): Counters {
    match e
    case Execute(matched) => c.(count := c.count + 1, rows := c.rows + if matched then 1 else 0)
    case SeqScan => c.(seqScans := c.seqScans + 1)
    case Flush => Counters(0, 0, 0)
  }

  /** The view after a run of events. */
  function After(c: Counters, events: seq<Event>): Counters {
    if events == [] then c else Step(After(c, events[..|events| - 1]), events[|events| - 1])
  }

  predicate Flushed(events: seq<Event>) {
    Flush in events
  }

  /** The events since the last reset, or since the start when there was none. */
  function Recent(events: seq<Event>): seq<Event> {
    if events == [] then []
    else
      var n := |events| - 1;
      if events[n].Flush? then [] else Recent(events[..n]) + [events[n]]
  }

  function Executions(events: seq<Event>): nat {
    if events == [] then 0
    else Executions(events[..|events| - 1]) + if events[|events| - 1].Execute? then 1 else 0
  }

  function Matches(events: seq<Event>): nat {
    if events == [] then 0
    else Matches(events[..|events| - 1]) + if events[|events| - 1] == Execute(true) then 1 else 0
  }

  function SeqScans(events: seq<Event>): nat {
    if events == [] then 0
    else SeqScans(events[..|events| - 1]) + if events[|events| - 1].SeqScan? then 1 else 0
  }

  /** A run with one more event. */
  lemma OneMore(events: seq<Event>, e: Event)
    requires !e.Flush?
    ensures var all, n := events + [e], if e.Execute? then 1 else 0;
      && (Flushed(events) <==> Flushed(all))
      && Executions(all) == Executions(events) + n
      && Executions(Recent(all)) == Executions(Recent(events)) + n
      && Matches(Recent(all)) == Matches(Recent(events)) + (if e == Execute(true) then 1 else 0)
      && SeqScans(Recent(all)) == SeqScans(Recent(events)) + 1 - n
  {
    var all, recent := events + [e], Recent(events);
    assert all[..|events|] == events && (recent + [e])[..|recent|] == recent;
  }

  /** What the view shows at the end: the recent statements, on top of the start only if never reset. */
  lemma {:induction false} ViewAfter(c: Counters, events: seq<Event>)
    ensures After(c, events) ==
            Counters(Executions(Recent(events)) + (if Flushed(events) then 0 else c.count),
                     Matches(Recent(events)) + (if Flushed(events) then 0 else c.rows),
                     SeqScans(Recent(events)) + (if Flushed(events) then 0 else c.seqScans))
  {
    if events != [] {
      var n := |events| - 1;
      assert events == events[..n] + [events[n]];
      if events[n].Flush? {
        JustFlushed(events);
        hide *;
      } else {
        hide Executions, Matches, SeqScans, Recent, Flushed;
        ViewAfter(c, events[..n]);
        OneMore(events[..n], events[n]);
      }
    }
  }

  lemma JustFlushed(events: seq<Event>)
    requires events != [] && events[|events| - 1].Flush?
    ensures Flushed(events) && Recent(events) == []
    ensures Executions(Recent(events)) == Matches(Recent(events)) == SeqScans(Recent(events)) == 0
    ensures forall c :: After(c, events) == Counters(0, 0, 0)
  {
  }

  // ----- CockroachDB's probe -----

  datatype Evidence =
    | Interval(executions: nat, matched: int)
    | PostFlush(executions: nat, matched: int)
    | FlushedAway
    | NothingRan

  /** The evidence two samples of the view give. */
  function Weigh(before: Counters, now: Counters): Evidence {
    if now.count > before.count then Interval(now.count - before.count, now.rows - before.rows)
    else if now.count > 0 then PostFlush(now.count, now.rows)
    else if before.count > 0 then FlushedAway
    else NothingRan
  }

  const MIN_ROW_MATCH_RATE := 0.99

  predicate Passes(e: Evidence, corroborated: bool) {
    match e
    case Interval(n, m) => n > 0 && m as real / n as real >= MIN_ROW_MATCH_RATE
    case PostFlush(n, m) => n > 0 && m as real / n as real >= MIN_ROW_MATCH_RATE
    case FlushedAway => corroborated
    case NothingRan => false
  }

  /** The returned rate: measured, zero without evidence, absent when only corroborated. */
  function RateOf(e: Evidence, corroborated: bool): Option<real> {
    match e
    case Interval(n, m) => Some(if n > 0 then m as real / n as real else 0.0)
    case PostFlush(n, m) => Some(if n > 0 then m as real / n as real else 0.0)
    case FlushedAway => if corroborated then None else Some(0.0)
    case NothingRan => Some(0.0)
  }

  datatype Finished = NotStarted | Finished(rate: Option<real>)

  class RowMatchProbe {
    var before: Option<Counters>

    constructor ()
      ensures before == None
    {
      before := None;
    }

    method Start(view: Counters)
      modifies this
      ensures before == Some(view)
    {
      before := Some(view);
    }

    method Finish(view: Counters, report: PreflightReport, corroborated: bool) returns (r: Finished)
      modifies report
      ensures before.None? ==> r == NotStarted && report.checks == old(report.checks)
      ensures before.Some? ==>
                var e := Weigh(before.value, view);
                && r == Finished(RateOf(e, corroborated))
                && report.checks == old(report.checks) + [Check("row_match", Passes(e, corroborated), None)]
    {
      if before.None? {
        return NotStarted;
      }
      var executions, matched := view.count - before.value.count, view.rows - before.value.rows;
      if executions <= 0 && view.count > 0 {
        executions, matched := view.count, view.rows;
      }
      if executions <= 0 && before.value.count > 0 {
        report.Add(Check("row_match", corroborated, None));
        return Finished(if corroborated then None else Some(0.0));
      }
      if executions <= 0 {
        report.Add(Check("row_match", false, None));
        return Finished(Some(0.0));
      }
      var rate := matched as real / executions as real;
      report.Add(Check("row_match", rate >= MIN_ROW_MATCH_RATE, None));
      return Finished(Some(rate));
    }
  }

  predicate Measured(e: Evidence) {
    e.Interval? || e.PostFlush?
  }

  /** At least 99 in a hundred of the statements since the later of the tier's start and the last reset
      touched a row, and there were some. */
  predicate Touched(events: seq<Event>) {
    var recent := Recent(events);
    Executions(recent) > 0 && 100 * Matches(recent) >= 99 * Executions(recent)
  }

  predicate Ran(events: seq<Event>) {
    Executions(events) > 0
  }

  /** What the probe weighs after a run. */
  function Weighed(start: Counters, events: seq<Event>): Evidence {
    Weigh(start, After(start, events))
  }

  lemma RateAtLeast(m: int, n: nat)
    requires n > 0
    ensures m as real / n as real >= MIN_ROW_MATCH_RATE <==> 100 * m >= 99 * n
  {
    var r := m as real / n as real;
    assert r * n as real == m as real;
    if r >= MIN_ROW_MATCH_RATE {
      assert r * n as real >= MIN_ROW_MATCH_RATE * n as real;
    } else {
      assert r * n as real < MIN_ROW_MATCH_RATE * n as real;
    }
  }

  lemma PassesIff(e: Evidence, corroborated: bool)
    requires Measured(e) && e.executions > 0
    ensures Passes(e, corroborated) <==> 100 * e.matched >= 99 * e.executions
  {
    RateAtLeast(e.matched, e.executions);
  }

  lemma {:induction false} NoFlushRecent(events: seq<Event>)
    requires !Flushed(events)
    ensures Recent(events) == events
  {
    if events != [] {
      var n := |events| - 1;
      assert events == events[..n] + [events[n]];
      NoFlushRecent(events[..n]);
    }
  }

  /** Without a reset the rate is exact: the matching share of the tier's statements. */
  lemma NoFlushIsExact(start: Counters, events: seq<Event>, corroborated: bool)
    requires !Flushed(events) && Ran(events)
    ensures Weighed(start, events) == Interval(Executions(events), Matches(events))
    ensures RateOf(Weighed(start, events), corroborated) == Some(Matches(events) as real / Executions(events) as real)
    ensures Passes(Weighed(start, events), corroborated) <==> Touched(events)
  {
    ViewAfter(start, events);
    NoFlushRecent(events);
    hide Recent, Executions, Matches;
    PassesIff(Interval(Executions(events), Matches(events)), corroborated);
  }

  /** A reset that leaves fewer statements than the start sample held is noticed, and the rate is that of
      the statements since. */
  lemma FlushedRate(start: Counters, events: seq<Event>, corroborated: bool)
    requires Flushed(events) && 0 < Executions(Recent(events)) <= start.count
    ensures Weighed(start, events) == PostFlush(Executions(Recent(events)), Matches(Recent(events)))
    ensures RateOf(Weighed(start, events), corroborated)
         == Some(Matches(Recent(events)) as real / Executions(Recent(events)) as real)
    ensures Passes(Weighed(start, events), corroborated) <==> Touched(events)
  {
    ViewAfter(start, events);
    hide Recent, Executions, Matches;
    PassesIff(PostFlush(Executions(Recent(events)), Matches(Recent(events))), corroborated);
  }

  /** A tier that ran no statement is read as a reset tier: its whole history stands for it. */
  lemma IdleReadsAsFlush(start: Counters)
    requires start.count > 0
    ensures Weighed(start, []) == PostFlush(start.count, start.rows)
  {
  }

  /** A measured pass means the tier's recent statements touched rows. */
  ghost predicate Sound(start: Counters) {
    forall events, corroborated |
      Ran(events) && Measured(Weighed(start, events)) && Passes(Weighed(start, events), corroborated) :: Touched(events)
  }

  lemma MeasuredPassTouched(start: Counters, events: seq<Event>, corroborated: bool)
    requires 100 * start.rows >= 99 * start.count && Ran(events)
    requires Measured(Weighed(start, events)) && Passes(Weighed(start, events), corroborated)
    ensures Touched(events)
  {
    if !Flushed(events) {
      NoFlushIsExact(start, events, corroborated);
    } else {
      ViewAfter(start, events);
      hide Recent, Executions, Matches;
      PassesIff(Weighed(start, events), corroborated);
    }
  }

  function Grow(events: seq<Event>, e: Event, n: nat): seq<Event> {
    if n == 0 then events else Grow(events, e, n - 1) + [e]
  }

  lemma {:induction false} GrowCounts(events: seq<Event>, e: Event, n: nat)
    requires e.Execute?
    ensures var all := Grow(events, e, n);
      && (Flushed(events) ==> Flushed(all))
      && Executions(all) == Executions(events) + n
      && Executions(Recent(all)) == Executions(Recent(events)) + n
      && Matches(Recent(all)) == Matches(Recent(events)) + (if e == Execute(true) then n else 0)
      && SeqScans(Recent(all)) == SeqScans(Recent(events))
  {
    hide Recent, Executions, Matches, SeqScans, Flushed;
    if n > 0 {
      GrowCounts(events, e, n - 1);
      OneMore(Grow(events, e, n - 1), e);
    }
  }

  /** A reset, then enough statements to outnumber the start sample: the probe takes them for growth. */
  function Masking(start: Counters): seq<Event>
    requires start.rows <= start.count
  {
    Grow(Grow([Flush], Execute(true), start.rows + 99), Execute(false), start.count - start.rows + 1)
  }

  lemma MaskingCounts(start: Counters)
    requires start.rows <= start.count
    ensures var events := Masking(start);
      && Flushed(events) && Ran(events)
      && Executions(Recent(events)) == start.count + 100 && Matches(Recent(events)) == start.rows + 99
      && SeqScans(Recent(events)) == 0
  {
    hide Recent, Executions, Matches, SeqScans, Grow, Flushed;
    var reset: seq<Event> := [Flush];
    JustFlushed(reset);
    GrowTwice(reset, start.rows + 99, start.count - start.rows + 1);
  }

  lemma GrowTwice(events: seq<Event>, hits: nat, misses: nat)
    ensures var all := Grow(Grow(events, Execute(true), hits), Execute(false), misses);
      && (Flushed(events) ==> Flushed(all))
      && Executions(all) == Executions(events) + hits + misses
      && Executions(Recent(all)) == Executions(Recent(events)) + hits + misses
      && Matches(Recent(all)) == Matches(Recent(events)) + hits
      && SeqScans(Recent(all)) == SeqScans(Recent(events))
  {
    hide *;
    GrowCounts(events, Execute(true), hits);
    GrowCounts(Grow(events, Execute(true), hits), Execute(false), misses);
  }

  /** The probe is sound for every run exactly when the start sample itself passes: otherwise a reset
      followed by more statements than the sample held is taken for growth over it. Runs without a statement
      are left out: by IdleReadsAsFlush they are judged on the start sample alone. */
  lemma SoundIff(start: Counters)
    ensures Sound(start) <==> 100 * start.rows >= 99 * start.count
  {
    if 100 * start.rows >= 99 * start.count {
      forall events, corroborated |
        Ran(events) && Measured(Weighed(start, events)) && Passes(Weighed(start, events), corroborated)
        ensures Touched(events)
      {
        MeasuredPassTouched(start, events, corroborated);
      }
    } else {
      var events := Masking(start);
      hide Recent, Executions, Matches, Masking;
      MaskingCounts(start);
      ViewAfter(start, events);
      PassesIff(Interval(100, 99), false);
      assert Weighed(start, events) == Interval(100, 99);
      assert !Touched(events);
    }
  }

  /** A tier passes unmeasured only on corroboration, when its statements were all flushed away. */
  lemma UnmeasuredPass(start: Counters, events: seq<Event>, corroborated: bool)
    requires !Measured(Weighed(start, events))
    ensures Passes(Weighed(start, events), corroborated) <==>
            corroborated && Flushed(events) && Executions(Recent(events)) == 0 && start.count > 0
    ensures Passes(Weighed(start, events), corroborated) ==> RateOf(Weighed(start, events), corroborated) == None
  {
    ViewAfter(start, events);
  }

  // ----- PostgreSQL's probe -----

  datatype PgEvidence =
    | SequentialScans
    | WentBackwards
    | NoIndexScans
    | Scanned(scans: nat, matched: nat)

  function PgWeigh(before: Counters, now: Counters): PgEvidence {
    if now.seqScans > before.seqScans then SequentialScans
    else if now.count < before.count || now.rows < before.rows then WentBackwards
    else if now.count == before.count then NoIndexScans
    else Scanned(now.count - before.count, now.rows - before.rows)
  }

  predicate PgPasses(e: PgEvidence, corroborated: bool) {
    match e
    case Scanned(n, m) => n > 0 && m as real / n as real >= MIN_ROW_MATCH_RATE
    case WentBackwards => corroborated
    case _ => false
  }

  function PgRateOf(e: PgEvidence, corroborated: bool): Option<real> {
    match e
    case Scanned(n, m) => Some(if n > 0 then m as real / n as real else 0.0)
    case WentBackwards => if corroborated then None else Some(0.0)
    case _ => Some(0.0)
  }

  class PostgresRowMatchProbe {
    var before: Option<Counters>

    constructor ()
      ensures before == None
    {
      before := None;
    }

    method Start(view: Counters)
      modifies this
      ensures before == Some(view)
    {
      before := Some(view);
    }

    method Finish(view: Counters, report: PreflightReport, corroborated: bool) returns (r: Finished)
      modifies report
      ensures before.None? ==> r == NotStarted && report.checks == old(report.checks)
      ensures before.Some? ==>
                var e := PgWeigh(before.value, view);
                && r == Finished(PgRateOf(e, corroborated))
                && report.checks == old(report.checks) + [Check("row_match", PgPasses(e, corroborated), None)]
    {
      if before.None? {
        return NotStarted;
      }
      var scans, matched := view.count - before.value.count, view.rows - before.value.rows;
      var seqScans := view.seqScans - before.value.seqScans;
      if seqScans > 0 {
        report.Add(Check("row_match", false, None));
        return Finished(Some(0.0));
      }
      if scans < 0 || matched < 0 {
        report.Add(Check("row_match", corroborated, None));
        return Finished(if corroborated then None else Some(0.0));
      }
      if scans <= 0 {
        report.Add(Check("row_match", false, None));
        return Finished(Some(0.0));
      }
      var rate := matched as real / scans as real;
      report.Add(Check("row_match", rate >= MIN_ROW_MATCH_RATE, None));
      return Finished(Some(rate));
    }
  }

  function PgWeighed(start: Counters, events: seq<Event>): PgEvidence {
    PgWeigh(start, After(start, events))
  }

  /** Without a restart the rate is exact, unless a sequential scan ran: then the check fails with none. */
  lemma PgNoFlushIsExact(start: Counters, events: seq<Event>, corroborated: bool)
    requires !Flushed(events) && Ran(events)
    ensures var e := PgWeighed(start, events);
      if SeqScans(events) > 0 then PgRateOf(e, corroborated) == Some(0.0) && !PgPasses(e, corroborated)
      else
        && PgRateOf(e, corroborated) == Some(Matches(events) as real / Executions(events) as real)
        && (PgPasses(e, corroborated) <==> Touched(events))
  {
    ViewAfter(start, events);
    NoFlushRecent(events);
    hide Recent, Executions, Matches, SeqScans;
    RateAtLeast(Matches(events), Executions(events));
  }

  /** A measured pass means the recent statements touched rows and none was a sequential scan. */
  ghost predicate PgSound(start: Counters) {
    forall events, corroborated |
      PgWeighed(start, events).Scanned? && PgPasses(PgWeighed(start, events), corroborated) ::
        Touched(events) && SeqScans(Recent(events)) == 0
  }

  lemma PgMeasuredPass(start: Counters, events: seq<Event>, corroborated: bool)
    requires 100 * start.rows >= 99 * start.count && start.seqScans == 0
    requires PgWeighed(start, events).Scanned? && PgPasses(PgWeighed(start, events), corroborated)
    ensures Touched(events) && SeqScans(Recent(events)) == 0
  {
    ViewAfter(start, events);
    hide Recent, Executions, Matches, SeqScans;
    RateAtLeast(PgWeighed(start, events).matched, PgWeighed(start, events).scans);
  }

  /** Without a measured rate the check passes only on corroboration, and then only after a restart that left
      fewer scans or rows than the start sample held, and no more sequential scans. */
  lemma PgUnmeasuredPass(start: Counters, events: seq<Event>, corroborated: bool)
    requires !PgWeighed(start, events).Scanned?
    ensures var recent := Recent(events);
      PgPasses(PgWeighed(start, events), corroborated) <==>
        && corroborated && Flushed(events) && SeqScans(recent) <= start.seqScans
        && (Executions(recent) < start.count || Matches(recent) < start.rows)
    ensures PgPasses(PgWeighed(start, events), corroborated) ==> PgRateOf(PgWeighed(start, events), corroborated) == None
  {
    ViewAfter(start, events);
    hide Recent, Executions, Matches, SeqScans, Flushed;
  }

  /** After a restart, counts that exceed the start sample's and pass above it are read as the tier's. */
  lemma PgMasked(start: Counters, events: seq<Event>, extra: nat, hits: nat)
    requires Flushed(events) && SeqScans(Recent(events)) <= start.seqScans
    requires Executions(Recent(events)) == start.count + extra && Matches(Recent(events)) == start.rows + hits
    requires extra > 0 && 100 * hits >= 99 * extra
    ensures PgWeighed(start, events) == Scanned(extra, hits) && PgPasses(PgWeighed(start, events), false)
  {
    hide Recent, Executions, Matches, SeqScans;
    ViewAfter(start, events);
    RateAtLeast(hits, extra);
  }

  /** A restart, enough matching statements to pass above the start sample, and one sequential scan. */
  lemma HiddenScan(start: Counters)
    requires 100 * start.rows >= 99 * start.count && start.seqScans > 0
    ensures !PgSound(start)
  {
    var k := 100 * (start.rows + start.count) + 100;
    var reset: seq<Event> := [Flush];
    var events := Grow(reset, Execute(true), k);
    JustFlushed(reset);
    GrowCounts(reset, Execute(true), k);
    OneMore(events, SeqScan);
    hide Recent, Executions, Matches, SeqScans, PgWeighed, PgPasses, Grow, Flushed;
    PgMasked(start, events + [SeqScan], k - start.count, k - start.rows);
    assert SeqScans(Recent(events + [SeqScan])) == 1;
  }

  /** A restart can hide both the match rate and the sequential scans behind the counts of the start
      sample, so the probe is sound for every run exactly when that sample passes and holds no scan. */
  lemma PgSoundIff(start: Counters)
    ensures PgSound(start) <==> 100 * start.rows >= 99 * start.count && start.seqScans == 0
  {
    if 100 * start.rows < 99 * start.count {
      var events := Masking(start);
      MaskingCounts(start);
      hide Recent, Executions, Matches, SeqScans, PgWeighed, PgPasses, Masking;
      PgMasked(start, events, 100, 99);
      assert !Touched(events);
    } else if start.seqScans > 0 {
      HiddenScan(start);
    } else {
      forall events, corroborated | PgWeighed(start, events).Scanned? && PgPasses(PgWeighed(start, events), corroborated)
        ensures Touched(events) && SeqScans(Recent(events)) == 0
      {
        PgMeasuredPass(start, events, corroborated);
      }
    }
  }
}
