/** The reader of a probe agent running on another machine: its attempts are rebased onto the run's
    clock by the difference between the two epochs. */
module RemoteProbe {
  import opened Options
  import opened RtoAnalysis
  import opened RtoInvariance

  /** The dispatcher's counters, which only the agent can observe. */
  datatype Counters = Counters(ticks: int, saturated: int, spacedOut: int)

  /** One line of the agent's output, decoded. */
  datatype Line =
    | Start(epoch: Option<real>)       // the agent's UTC epoch, None when it cannot be parsed
    | Row(attempt: Option<Attempt>)    // an attempt on the agent's clock, None when malformed
    | Stop(agentError: bool, summary: Option<Counters>)
    | Noise                            // blank, not JSON, or not an object

  class RemoteRtoProbe {
    const epoch: real
    var epochSkew: Option<real>
    var attempts: seq<Attempt>
    var error: bool
    var counters: Counters

    constructor (epoch: real)
      ensures this.epoch == epoch && epochSkew == None && attempts == [] && !error && counters == Counters(0, 0, 0)
    {
      this.epoch := epoch;
      epochSkew, attempts, error, counters := None, [], false, Counters(0, 0, 0);
    }

    method OnStart(agentEpoch: Option<real>)
      modifies this
      ensures attempts == old(attempts) && epochSkew == NextSkew(old(epochSkew), epoch, Start(agentEpoch))
      ensures error == (old(error) || agentEpoch.None?) && counters == old(counters)
    {
      match agentEpoch {
        case None => error := true;
        case Some(e) => epochSkew := Some(e - epoch);
      }
    }

    method OnAttempt(row: Option<Attempt>)
      modifies this
      ensures epochSkew == old(epochSkew) && error == old(error) && counters == old(counters)
      ensures attempts == old(attempts) + Placed(old(epochSkew), Row(row))
    {
      match epochSkew {
        case None =>
        case Some(skew) =>
          if row.Some? {
            attempts := attempts + [row.value.(dispatch := row.value.dispatch + skew, complete := row.value.complete + skew)];
          }
      }
    }

    method OnStop(agentError: bool, summary: Option<Counters>)
      modifies this
      ensures epochSkew == old(epochSkew) && attempts == old(attempts) && error == (old(error) || agentError)
      ensures counters == summary.Or(old(counters))
    {
      if agentError {
        error := true;
      }
      if summary.Some? {
        counters := summary.value;
      }
    }

    method ReadStdout(lines: seq<Line>)
      modifies this
      ensures attempts == old(attempts) + Replay(lines, old(epochSkew), epoch)
      ensures counters == LastSummary(lines).Or(old(counters))
      ensures epochSkew == SkewAfter(lines, old(epochSkew), epoch)
      ensures error <==> old(error) || exists i :: 0 <= i < |lines| && IsFault(lines[i])
    {
      hide Replay, LastSummary, Placed, NextSkew, SkewAfter;
      var i := 0;
      assert lines[0..] == lines && attempts + Replay(lines, epochSkew, epoch) == old(attempts) + Replay(lines, epochSkew, epoch);
      while i < |lines|
        invariant 0 <= i <= |lines|
        invariant LastSummary(lines).Or(old(counters)) == LastSummary(lines[i..]).Or(counters)
        invariant SkewAfter(lines, old(epochSkew), epoch) == SkewAfter(lines[i..], epochSkew, epoch)
        invariant error <==> old(error) || exists j :: 0 <= j < i && IsFault(lines[j])
        invariant old(attempts) + Replay(lines, old(epochSkew), epoch)
               == attempts + Replay(lines[i..], epochSkew, epoch)
      {
        ReplayStep(lines, i, epochSkew, epoch, attempts);
        SummaryStep(lines, i, counters);
        SkewStep(lines, i, epochSkew, epoch);
        LineEffect(lines[i], epochSkew, epoch);
        match lines[i] {
          case Start(e) => OnStart(e);
          case Row(row) => OnAttempt(row);
          case Stop(e, summary) => OnStop(e, summary);
          case Noise =>
        }
        i := i + 1;
      }
      assert lines[i..] == [];
      NothingReplayed(epochSkew, epoch);
      assert attempts + [] == attempts;
    }
  }

  /** What a line that is no attempt, and no parseable start, leaves alone. */
  lemma LineEffect(line: Line, skew: Option<real>, epoch: real)
    ensures !line.Row? ==> Placed(skew, line) == []
    ensures !line.Start? ==> NextSkew(skew, epoch, line) == skew
  {
  }

  lemma NothingReplayed(skew: Option<real>, epoch: real)
    ensures Replay([], skew, epoch) == [] && LastSummary([]) == None && SkewAfter([], skew, epoch) == skew
  {
  }

  lemma ReplayStep(lines: seq<Line>, i: nat, skew: Option<real>, epoch: real, attempts: seq<Attempt>)
    requires i < |lines|
    ensures attempts + Replay(lines[i..], skew, epoch) ==
            attempts + Placed(skew, lines[i]) + Replay(lines[i + 1..], NextSkew(skew, epoch, lines[i]), epoch)
  {
    hide Placed, NextSkew;
    assert lines[i..][1..] == lines[i + 1..];
  }

  lemma SummaryStep(lines: seq<Line>, i: nat, counters: Counters)
    requires i < |lines|
    ensures LastSummary(lines[i..]).Or(counters) ==
            LastSummary(lines[i + 1..]).Or(if lines[i].Stop? then lines[i].summary.Or(counters) else counters)
  {
    assert lines[i..][1..] == lines[i + 1..];
  }

  lemma SkewStep(lines: seq<Line>, i: nat, skew: Option<real>, epoch: real)
    requires i < |lines|
    ensures SkewAfter(lines[i..], skew, epoch) == SkewAfter(lines[i + 1..], NextSkew(skew, epoch, lines[i]), epoch)
  {
    hide NextSkew;
    assert lines[i..][1..] == lines[i + 1..];
  }

  /** A start line without a readable epoch, or a stop line with an error. */
  predicate IsFault(line: Line) {
    match line
    case Start(epoch) => epoch.None?
    case Stop(agentError, _) => agentError
    case _ => false
  }

  /** The skew after a whole output. */
  function SkewAfter(lines: seq<Line>, skew: Option<real>, epoch: real): Option<real> {
    if lines == [] then skew else SkewAfter(lines[1..], NextSkew(skew, epoch, lines[0]), epoch)
  }

  /** Line i is the last readable start line. */
  ghost predicate LastStart(lines: seq<Line>, i: int) {
    0 <= i < |lines| && lines[i].Start? && lines[i].epoch.Some? && NoNewEpoch(lines[i + 1..])
  }

  lemma {:induction false} SkewStays(lines: seq<Line>, skew: Option<real>, epoch: real)
    requires NoNewEpoch(lines)
    ensures SkewAfter(lines, skew, epoch) == skew
  {
    if lines != [] {
      assert NoNewEpoch(lines[1..]);
      SkewStays(lines[1..], skew, epoch);
    }
  }

  lemma SkewUnfold(lines: seq<Line>, skew: Option<real>, epoch: real)
    requires lines != []
    ensures SkewAfter(lines, skew, epoch) == SkewAfter(lines[1..], NextSkew(skew, epoch, lines[0]), epoch)
  {
    hide NextSkew;
  }

  /** The skew is that of the last readable start line, whatever went before it. */
  lemma {:induction false} SkewIs(lines: seq<Line>, skew: Option<real>, epoch: real, i: nat)
    requires LastStart(lines, i)
    ensures SkewAfter(lines, skew, epoch) == Some(lines[i].epoch.value - epoch)
  {
    hide SkewAfter, NoNewEpoch;
    SkewUnfold(lines, skew, epoch);
    var next := NextSkew(skew, epoch, lines[0]);
    if i == 0 {
      SkewStays(lines[1..], next, epoch);
    } else {
      assert lines[i + 1..] == lines[1..][i..];
      SkewIs(lines[1..], next, epoch, i - 1);
    }
  }

  /** Each part of an output is placed with the skew that the part before it left. */
  lemma {:induction false} ReplaySplits(before: seq<Line>, after: seq<Line>, skew: Option<real>, epoch: real)
    ensures Replay(before + after, skew, epoch) == Replay(before, skew, epoch) + Replay(after, SkewAfter(before, skew, epoch), epoch)
  {
    hide Placed, NextSkew;
    if before == [] {
      assert before + after == after;
    } else {
      assert (before + after)[1..] == before[1..] + after;
      ReplaySplits(before[1..], after, NextSkew(skew, epoch, before[0]), epoch);
    }
  }

  /** The counters are those of the last stop line with a summary. */
  lemma {:induction false} LastSummaryIs(lines: seq<Line>)
    ensures var r := LastSummary(lines);
      if r.Some? then exists i :: 0 <= i < |lines| && lines[i].Stop? && lines[i].summary == r &&
                                  forall j | i < j < |lines| :: !lines[j].Stop? || lines[j].summary.None?
      else forall i | 0 <= i < |lines| :: !lines[i].Stop? || lines[i].summary.None?
  {
    if lines != [] {
      var rest := lines[1..];
      LastSummaryIs(rest);
      assert forall i | 0 < i < |lines| :: lines[i] == rest[i - 1];
      if LastSummary(rest).Some? {
        var i :| 0 <= i < |rest| && rest[i].Stop? && rest[i].summary == LastSummary(rest) &&
          forall j | i < j < |rest| :: !rest[j].Stop? || rest[j].summary.None?;
        assert lines[i + 1] == rest[i];
      }
    }
  }

  /** The counters of the last stop line that carries a summary. */
  function LastSummary(lines: seq<Line>): Option<Counters> {
    if lines == [] then None
    else
      var rest := LastSummary(lines[1..]);
      if rest.Some? || !lines[0].Stop? then rest else lines[0].summary
  }

  function NextSkew(skew: Option<real>, epoch: real, line: Line): Option<real> {
    if line.Start? && line.epoch.Some? then Some(line.epoch.value - epoch) else skew
  }

  /** What one line adds: a well-formed attempt, once the agent's epoch is known. */
  function Placed(skew: Option<real>, line: Line): seq<Attempt> {
    if line.Row? && line.attempt.Some? && skew.Some? then [ShiftAttempt(line.attempt.value, skew.value)] else []
  }

  /** The attempts a whole output yields, read from a given skew on. */
  function Replay(lines: seq<Line>, skew: Option<real>, epoch: real): seq<Attempt> {
    if lines == [] then []
    else Placed(skew, lines[0]) + Replay(lines[1..], NextSkew(skew, epoch, lines[0]), epoch)
  }

  /** The well-formed attempts of an output, on the agent's own clock. */
  function AgentAttempts(lines: seq<Line>): seq<Attempt> {
    if lines == [] then []
    else (if lines[0].Row? && lines[0].attempt.Some? then [lines[0].attempt.value] else []) + AgentAttempts(lines[1..])
  }

  ghost predicate NoNewEpoch(lines: seq<Line>) {
    forall i | 0 <= i < |lines| :: lines[i].Start? ==> lines[i].epoch.None?
  }

  lemma {:induction false} ShiftAppend(a: seq<Attempt>, b: seq<Attempt>, d: real)
    ensures Shift(a + b, d) == Shift(a, d) + Shift(b, d)
  {
    if a == [] {
      assert a + b == b;
    } else {
      assert (a + b)[1..] == a[1..] + b;
      ShiftAppend(a[1..], b, d);
    }
  }

  /** Once the epoch is known, every attempt is moved by the one skew. */
  lemma {:induction false} ReplayAfterStart(lines: seq<Line>, skew: real, epoch: real)
    requires NoNewEpoch(lines)
    ensures Replay(lines, Some(skew), epoch) == Shift(AgentAttempts(lines), skew)
  {
    if lines != [] {
      ReplayAfterStart(lines[1..], skew, epoch);
      var head := if lines[0].Row? && lines[0].attempt.Some? then [lines[0].attempt.value] else [];
      ShiftAppend(head, AgentAttempts(lines[1..]), skew);
    }
  }

  lemma {:induction false} ReplayBeforeStart(lines: seq<Line>, rest: seq<Line>, epoch: real)
    requires NoNewEpoch(lines)
    ensures Replay(lines + rest, None, epoch) == Replay(rest, None, epoch)
  {
    if lines == [] {
      assert lines + rest == rest;
    } else {
      assert (lines + rest)[1..] == lines[1..] + rest;
      ReplayBeforeStart(lines[1..], rest, epoch);
    }
  }

  /** Whatever precedes the agent's epoch line is dropped. From then on, judging the rebased log against
      the fault on the run's clock is judging the agent's own log against the fault on the agent's clock:
      the same verdict, floor, lags and durations, with the absolute times moved by the skew. */
  lemma RebasedReport(before: seq<Line>, after: seq<Line>, agentEpoch: real, epoch: real, fault: real, end: Option<real>)
    requires NoNewEpoch(before) && NoNewEpoch(after)
    ensures
      var skew := agentEpoch - epoch;
      var log := Replay(before + [Start(Some(agentEpoch))] + after, None, epoch);
      MeasureRto(log, fault, end) ==
      ShiftReport(MeasureRto(AgentAttempts(after), fault - skew, ShiftTime(end, -skew)), skew)
  {
    hide MeasureRto, ShiftReport;
    var skew := agentEpoch - epoch;
    ReplayWholeOutput(before, after, agentEpoch, epoch);
    RebasingMovesOnlyTheClock(AgentAttempts(after), fault - skew, ShiftTime(end, -skew), skew);
    assert ShiftTime(ShiftTime(end, -skew), skew) == end && (fault - skew) + skew == fault;
  }

  lemma ReplayWholeOutput(before: seq<Line>, after: seq<Line>, agentEpoch: real, epoch: real)
    requires NoNewEpoch(before) && NoNewEpoch(after)
    ensures Replay(before + [Start(Some(agentEpoch))] + after, None, epoch) == Shift(AgentAttempts(after), agentEpoch - epoch)
  {
    var start := [Start(Some(agentEpoch))];
    assert before + start + after == before + (start + after);
    ReplayBeforeStart(before, start + after, epoch);
    assert (start + after)[1..] == after;
    ReplayAfterStart(after, agentEpoch - epoch, epoch);
  }

  lemma {:induction false} AgentAttemptsSplit(a: seq<Line>, b: seq<Line>)
    ensures AgentAttempts(a + b) == AgentAttempts(a) + AgentAttempts(b)
    ensures |a| == 1 ==> AgentAttempts(a) == if a[0].Row? && a[0].attempt.Some? then [a[0].attempt.value] else []
  {
    if a == [] {
      assert a + b == b;
    } else {
      assert (a + b)[1..] == a[1..] + b;
      AgentAttemptsSplit(a[1..], b);
    }
  }

  lemma {:induction false} ShiftAt(attempts: seq<Attempt>, d: real, i: nat)
    requires i < |attempts|
    ensures |Shift(attempts, d)| == |attempts|
    ensures var a := attempts[i]; Shift(attempts, d)[i] == Attempt(a.seqId, a.dispatch + d, a.complete + d, a.outcome, a.worker)
  {
    if i > 0 {
      ShiftAt(attempts[1..], d, i - 1);
    }
  }

  /** The log that comes of it: the agent's well-formed attempts after its epoch line, in order, each as it was
      but for its times, which are moved by the difference of the epochs. */
  lemma RebasedLog(before: seq<Line>, after: seq<Line>, agentEpoch: real, epoch: real, i: nat)
    requires NoNewEpoch(before) && NoNewEpoch(after) && i < |AgentAttempts(after)|
    ensures var log, a := Replay(before + [Start(Some(agentEpoch))] + after, None, epoch), AgentAttempts(after)[i];
      && |log| == |AgentAttempts(after)|
      && log[i] == Attempt(a.seqId, a.dispatch + (agentEpoch - epoch), a.complete + (agentEpoch - epoch), a.outcome, a.worker)
  {
    hide *;
    ReplayWholeOutput(before, after, agentEpoch, epoch);
    ShiftAt(AgentAttempts(after), agentEpoch - epoch, i);
  }
}
