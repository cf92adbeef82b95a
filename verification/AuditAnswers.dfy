/** What the audit writer's record says: how the store answered each write. */
module AuditAnswers {
  import opened Options
  import opened AuditProtocol
  import opened AuditLoss

  /** Step k of the run answers write n so, which had begun then. */
  ghost predicate AnsweredBy(d: Discipline, actions: seq<Action>, k: int, n: nat, started: real, ended: real, outcome: Outcome) {
    && 0 <= k < |actions| && actions[k] == Answer(ended, outcome)
    && match Run(d, actions[..k]) {
         case Some(u) => u.phase == Writing(started) && u.seqId == n
         case None => false
       }
  }

  ghost predicate WasAnswered(d: Discipline, actions: seq<Action>, n: nat, started: real, ended: real, outcome: Outcome) {
    exists k :: AnsweredBy(d, actions, k, n, started, ended, outcome)
  }

  lemma RunStep(d: Discipline, actions: seq<Action>, s: State) returns (before: State)
    requires actions != [] && Run(d, actions) == Some(s)
    ensures var n := |actions| - 1;
      Run(d, actions[..n]) == Some(before) && Enabled(before, actions[n]) && s == Next(before, actions[n])
  {
    before := Run(d, actions[..|actions| - 1]).value;
  }

  /** A turn is added by an answer, and by nothing else. */
  lemma TurnStep(s: State, a: Action)
    requires Enabled(s, a)
    ensures var t := Next(s, a);
      && (!a.Answer? ==> t.turns == s.turns)
      && (a.Answer? ==> s.phase.Writing? && t.turns == s.turns + [Turn(s.phase.started, a.now, a.outcome)])
  {
  }

  lemma AnsweredEarlier(d: Discipline, actions: seq<Action>, k: int, n: nat, started: real, ended: real, outcome: Outcome)
    requires actions != []
    ensures AnsweredBy(d, actions[..|actions| - 1], k, n, started, ended, outcome)
        <==> k < |actions| - 1 && AnsweredBy(d, actions, k, n, started, ended, outcome)
  {
    hide Run;
    var m := |actions| - 1;
    if 0 <= k < m {
      assert actions[..m][..k] == actions[..k];
    }
  }

  /** Turn n of the record is the one answer write n got. */
  ghost predicate TurnIs(d: Discipline, actions: seq<Action>, turns: seq<Turn>, n: nat) {
    forall k, started, ended, outcome :: AnsweredBy(d, actions, k, n, started, ended, outcome) ==>
      1 <= n <= |turns| && turns[n - 1] == Turn(started, ended, outcome)
  }

  lemma {:induction false} AnswersAreTurns(d: Discipline, actions: seq<Action>, s: State, n: nat)
    requires Run(d, actions) == Some(s)
    ensures TurnIs(d, actions, s.turns, n)
    ensures 1 <= n <= |s.turns| ==>
              WasAnswered(d, actions, n, s.turns[n - 1].started, s.turns[n - 1].ended, s.turns[n - 1].outcome)
  {
    if actions == [] {
    } else {
      var m := |actions| - 1;
      var before := RunStep(d, actions, s);
      Recorded(d, actions[..m], before);
      TurnsSoFar(before);
      TurnStep(before, actions[m]);
      hide Run, Next, Enabled, OnClock, Faithful;
      AnswersAreTurns(d, actions[..m], before, n);
      forall k, started, ended, outcome | AnsweredBy(d, actions, k, n, started, ended, outcome)
        ensures 1 <= n <= |s.turns| && s.turns[n - 1] == Turn(started, ended, outcome)
      {
        AnsweredEarlier(d, actions, k, n, started, ended, outcome);
        if k == m {
          assert before.phase == Writing(started) && before.seqId == n == |before.turns| + 1;
        } else {
          assert AnsweredBy(d, actions[..m], k, n, started, ended, outcome);
          assert s.turns[n - 1] == before.turns[n - 1];
        }
      }
      if 1 <= n <= |s.turns| {
        var t := s.turns[n - 1];
        if n <= |before.turns| {
          assert before.turns[n - 1] == t;
          var k :| AnsweredBy(d, actions[..m], k, n, t.started, t.ended, t.outcome);
          AnsweredEarlier(d, actions, k, n, t.started, t.ended, t.outcome);
        } else {
          assert AnsweredBy(d, actions, m, n, t.started, t.ended, t.outcome);
        }
      }
    }
  }

  lemma TurnsSoFar(s: State)
    requires Faithful(s)
    ensures s.phase.Writing? ==> s.seqId == |s.turns| + 1
  {
  }

  lemma RecordIs(s: State, n: nat)
    requires Faithful(s)
    ensures n in s.acknowledged <==> 1 <= n <= |s.turns| && s.turns[n - 1].outcome == Returned
    ensures n in s.ambiguous <==> 1 <= n <= |s.turns| && s.turns[n - 1].outcome == Raised(true)
    ensures n in s.refused <==> 1 <= n <= |s.turns| && s.turns[n - 1].outcome == Raised(false)
  {
  }

  ghost predicate SomeAnswer(d: Discipline, actions: seq<Action>, n: nat, outcome: Outcome) {
    exists started, ended :: WasAnswered(d, actions, n, started, ended, outcome)
  }

  lemma SomeAnswerIff(d: Discipline, actions: seq<Action>, s: State, n: nat, outcome: Outcome)
    requires Run(d, actions) == Some(s)
    ensures SomeAnswer(d, actions, n, outcome) <==> 1 <= n <= |s.turns| && s.turns[n - 1].outcome == outcome
  {
    hide Run, AnsweredBy;
    AnswersAreTurns(d, actions, s, n);
    if 1 <= n <= |s.turns| && s.turns[n - 1].outcome == outcome {
      assert WasAnswered(d, actions, n, s.turns[n - 1].started, s.turns[n - 1].ended, outcome);
    }
  }

  /** In every run a number is acknowledged exactly when the write of that number, while outstanding, was
      answered by returning; ambiguous when by an error of the connection; refused when by another error. */
  lemma RecordMeans(d: Discipline, actions: seq<Action>, s: State, n: nat)
    requires Run(d, actions) == Some(s)
    ensures n in s.acknowledged <==> SomeAnswer(d, actions, n, Returned)
    ensures n in s.ambiguous <==> SomeAnswer(d, actions, n, Raised(true))
    ensures n in s.refused <==> SomeAnswer(d, actions, n, Raised(false))
  {
    hide *;
    Recorded(d, actions, s);
    RecordIs(s, n);
    SomeAnswerIff(d, actions, s, n, Returned);
    SomeAnswerIff(d, actions, s, n, Raised(true));
    SomeAnswerIff(d, actions, s, n, Raised(false));
  }

  /** Entry n of the log carries the time of the answer write n got, and whether that was an
      acknowledgement, an error of the connection or another. */
  lemma LogMeans(d: Discipline, actions: seq<Action>, s: State, n: nat)
    requires Run(d, actions) == Some(s) && 1 <= n <= |s.attempts|
    ensures var e := s.attempts[n - 1];
      && e.seqId == n
      && exists started, outcome :: WasAnswered(d, actions, n, started, e.at, outcome) &&
           (outcome == Returned <==> e.mark == Ack) && (outcome == Raised(true) <==> e.mark == Ambiguous)
  {
    hide Run, AnsweredBy, WasAnswered;
    Recorded(d, actions, s);
    AnswersAreTurns(d, actions, s, n);
    var t := s.turns[n - 1];
    assert WasAnswered(d, actions, n, t.started, s.attempts[n - 1].at, t.outcome);
  }
}
