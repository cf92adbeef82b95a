/** The audit writer itself: its loop, and the comparison with what the table holds at the end. */
module AuditWriting {
  import opened Options
  import opened AuditProtocol
  import opened AuditLoss

  /** The collector's figures; the numbers of the lost writes ascend. */
  datatype AuditResult = AuditResult(
    acknowledged: nat, ambiguous: nat, refused: nat, present: nat, lost: seq<nat>, ambiguousCommitted: nat)

  ghost predicate Lists(s: seq<nat>, numbers: set<nat>) {
    && (forall i, j | 0 <= i < j < |s| :: s[i] < s[j])
    && forall n :: n in s <==> n in numbers
  }

  /** The numbers are those a run left acknowledged after its writer ended, against a store that commits
      before it acknowledges, and the table is what the collector read at the end of `before`. */
  ghost predicate Audited(d: Discipline, before: seq<Action>, mid: seq<Action>, s: State, t: State,
                          acknowledged: set<nat>, present: set<nat>) {
    && CommitsBeforeAck(d) && Collects(d, before, mid, s, t) && s.phase.Exited?
    && t.acknowledged == acknowledged && s.table == present
  }

  class AuditWriter {
    var acknowledged: set<nat>
    var ambiguous: set<nat>
    var refused: set<nat>
    var attempts: seq<Attempt>
    var lastAttemptStarted: Option<real>
    var firstAck: Option<real>
    var lastAck: Option<real>

    constructor ()
      ensures acknowledged == ambiguous == refused == {} && attempts == []
      ensures lastAttemptStarted == None && firstAck == None && lastAck == None
    {
      acknowledged, ambiguous, refused, attempts := {}, {}, {}, [];
      lastAttemptStarted, firstAck, lastAck := None, None, None;
    }

    /** The loop, for the turns taken before the stop. */
    method Loop(turns: seq<Turn>)
      requires acknowledged == ambiguous == refused == {} && attempts == []
      requires firstAck == None && lastAck == None && lastAttemptStarted == None
      modifies this
      ensures acknowledged == Marked(turns, Ack)
      ensures ambiguous == Marked(turns, Ambiguous)
      ensures refused == Marked(turns, Refused)
      ensures attempts == Attempts(turns)
      ensures lastAttemptStarted == if turns == [] then None else Some(turns[|turns| - 1].started)
      ensures firstAck == FirstAck(turns) && lastAck == LastAck(turns)
    {
      hide Marked, Attempts, FirstAck, LastAck;
      MarkedNone();
      var seqId: nat := 0;
      while seqId < |turns|
        invariant 0 <= seqId <= |turns|
        invariant acknowledged == Marked(turns[..seqId], Ack)
        invariant ambiguous == Marked(turns[..seqId], Ambiguous)
        invariant refused == Marked(turns[..seqId], Refused)
        invariant attempts == Attempts(turns[..seqId])
        invariant lastAttemptStarted == if seqId == 0 then None else Some(turns[seqId - 1].started)
        invariant firstAck == FirstAck(turns[..seqId]) && lastAck == LastAck(turns[..seqId])
      {
        var turn := turns[seqId];
        assert turns[..seqId + 1] == turns[..seqId] + [turn];
        MarkedNext(turns[..seqId], turn, Ack);
        MarkedNext(turns[..seqId], turn, Ambiguous);
        MarkedNext(turns[..seqId], turn, Refused);
        AttemptsNext(turns[..seqId], turn);
        AcksNext(turns[..seqId], turn);
        seqId := seqId + 1;
        lastAttemptStarted := Some(turn.started);
        match turn.outcome {
          case Returned =>
            acknowledged := acknowledged + {seqId};
            attempts := attempts + [Attempt(turn.ended, seqId, Ack)];
            if firstAck.None? {
              firstAck := Some(turn.ended);
            }
            lastAck := Some(turn.ended);
          case Raised(ofConnection) =>
            if ofConnection {
              ambiguous := ambiguous + {seqId};
              attempts := attempts + [Attempt(turn.ended, seqId, Ambiguous)];
            } else {
              refused := refused + {seqId};
              attempts := attempts + [Attempt(turn.ended, seqId, Refused)];
            }
        }
      }
      assert turns[..seqId] == turns;
    }

    /** Compares the client's record with the table. Whatever run of writer and store led here, the lost
        writes are listed in order and are exactly the acknowledged ones that were dropped and not
        committed again. */
    method Collect(present: set<nat>) returns (r: AuditResult)
      ensures Lists(r.lost, acknowledged - present)
      ensures forall d, before, mid, s, t | Audited(d, before, mid, s, t, acknowledged, present) ::
                forall n: nat :: n in r.lost <==> n in acknowledged && FateOf(before, n).Dropped?
      ensures r.acknowledged == |acknowledged| && r.ambiguous == |ambiguous| && r.refused == |refused|
      ensures r.present == |present| && r.ambiguousCommitted == |ambiguous * present|
    {
      var lost := Ascending(acknowledged - present);
      r := AuditResult(|acknowledged|, |ambiguous|, |refused|, |present|, lost, |ambiguous * present|);
      forall d, before, mid, s, t | Audited(d, before, mid, s, t, acknowledged, present)
        ensures forall n: nat :: n in r.lost <==> n in acknowledged && FateOf(before, n).Dropped?
      {
        LostAre(d, before, mid, s, t);
      }
    }
  }

  lemma LostAre(d: Discipline, before: seq<Action>, mid: seq<Action>, s: State, t: State)
    requires CommitsBeforeAck(d) && Collects(d, before, mid, s, t) && s.phase.Exited?
    ensures forall n: nat :: n in t.acknowledged - s.table <==> n in t.acknowledged && FateOf(before, n).Dropped?
  {
    hide Run, FateOf;
    LostIsDropped(d, before, mid, s, t);
    var u := CollectedFrom(d, before, mid, s, t);
  }

  /** When the first and the last acknowledgement arrived. */
  function FirstAck(turns: seq<Turn>): Option<real> {
    if turns == [] then None
    else
      var before, turn := FirstAck(turns[..|turns| - 1]), turns[|turns| - 1];
      if before.Some? || turn.outcome.Raised? then before else Some(turn.ended)
  }

  function LastAck(turns: seq<Turn>): Option<real> {
    if turns == [] then None
    else if turns[|turns| - 1].outcome.Returned? then Some(turns[|turns| - 1].ended)
    else LastAck(turns[..|turns| - 1])
  }

  lemma MarkedNone()
    ensures forall mark :: Marked([], mark) == {}
    ensures Attempts([]) == []
    ensures FirstAck([]) == LastAck([]) == None
  {
  }

  lemma AcksNext(turns: seq<Turn>, t: Turn)
    ensures FirstAck(turns + [t]) == if FirstAck(turns).Some? || t.outcome.Raised? then FirstAck(turns) else Some(t.ended)
    ensures LastAck(turns + [t]) == if t.outcome.Returned? then Some(t.ended) else LastAck(turns)
  {
    assert (turns + [t])[..|turns|] == turns;
  }

  ghost predicate FirstReturned(turns: seq<Turn>, i: int) {
    0 <= i < |turns| && turns[i].outcome.Returned? && forall j | 0 <= j < i :: turns[j].outcome.Raised?
  }

  ghost predicate LastReturned(turns: seq<Turn>, i: int) {
    0 <= i < |turns| && turns[i].outcome.Returned? && forall j | i < j < |turns| :: turns[j].outcome.Raised?
  }

  /** The first and the last acknowledgement are the ends of the first and the last turn that returned. */
  lemma {:induction false} AcksAre(turns: seq<Turn>)
    ensures if FirstAck(turns).Some? then exists i :: FirstReturned(turns, i) && FirstAck(turns) == Some(turns[i].ended)
            else forall i | 0 <= i < |turns| :: turns[i].outcome.Raised?
    ensures if LastAck(turns).Some? then exists i :: LastReturned(turns, i) && LastAck(turns) == Some(turns[i].ended)
            else forall i | 0 <= i < |turns| :: turns[i].outcome.Raised?
  {
    if turns != [] {
      var n := |turns| - 1;
      var before := turns[..n];
      AcksAre(before);
      assert forall j | 0 <= j < n :: before[j] == turns[j];
      if FirstAck(before).Some? {
        var i :| FirstReturned(before, i) && FirstAck(before) == Some(before[i].ended);
        assert FirstReturned(turns, i);
      } else {
        assert turns[n].outcome.Returned? ==> FirstReturned(turns, n);
      }
      if turns[n].outcome.Returned? {
        assert LastReturned(turns, n);
      } else if LastAck(before).Some? {
        var i :| LastReturned(before, i) && LastAck(before) == Some(before[i].ended);
        assert LastReturned(turns, i);
      }
    }
  }

  lemma {:induction false} LeastOf(s: set<nat>) returns (m: nat)
    requires s != {}
    ensures m in s && forall n | n in s :: m <= n
    decreases |s|
  {
    var some :| some in s;
    var rest := s - {some};
    assert forall n | n in s :: n == some || n in rest;
    if rest == {} {
      m := some;
    } else {
      var least := LeastOf(rest);
      m := if some < least then some else least;
    }
  }

  /** Python's `sorted` of a set of numbers. */
  method Ascending(numbers: set<nat>) returns (r: seq<nat>)
    ensures Lists(r, numbers)
  {
    r := [];
    var rest := numbers;
    while rest != {}
      invariant rest <= numbers && Lists(r, numbers - rest)
      invariant forall i, n | 0 <= i < |r| && n in rest :: r[i] < n
      decreases |rest|
    {
      ghost var least := LeastOf(rest);
      var m :| m in rest && forall n | n in rest :: m <= n;
      r, rest := r + [m], rest - {m};
    }
  }
}
