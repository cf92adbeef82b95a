/** What a logged attempt says: the answer one worker got to the write it was making. */
module ProbeAnswers {
  import opened Numbers
  import opened Options
  import opened RtoAnalysis
  import opened ProbeProtocol

  /** Step k of the run: worker w, writing the job, is answered. */
  ghost predicate AnsweredBy(c: Config, actions: seq<Action>, k: int, w: int, job: Job, at: real, outcome: Outcome)
    requires ValidConfig(c)
  {
    && 0 <= k < |actions| && w >= 0 && actions[k] == Answer(w, at, outcome)
    && match Run(c, actions[..k]) {
         case Some(u) => w < |u.workers| && u.workers[w] == Writing(job)
         case None => false
       }
  }

  /** Some step of the run was that answer. */
  ghost predicate WasAnswered(c: Config, actions: seq<Action>, w: int, job: Job, at: real, outcome: Outcome)
    requires ValidConfig(c)
  {
    exists k :: AnsweredBy(c, actions, k, w, job, at, outcome)
  }

  /** An answer the worker has not logged yet. */
  predicate Unlogged(x: Worker, job: Job, at: real, outcome: Outcome) {
    x == Answered(job, at, outcome) || x == Noted(job, at, outcome)
  }

  /** The entry reports that answer, in seconds since the epoch. */
  predicate Reports(c: Config, e: Attempt, w: int, job: Job, at: real, outcome: Outcome) {
    && e.worker == w && e.outcome == outcome && e.seqId == job.number
    && e.complete + c.epoch == at && e.dispatch + c.epoch == job.at
  }

  lemma RunStep(c: Config, actions: seq<Action>, s: State) returns (before: State)
    requires ValidConfig(c) && actions != [] && Run(c, actions) == Some(s)
    ensures var n := |actions| - 1;
      Run(c, actions[..n]) == Some(before) && Enabled(c, before, actions[n]) && s == Next(c, before, actions[n])
  {
    before := Run(c, actions[..|actions| - 1]).value;
  }

  lemma RunEnds(c: Config, s: State)
    requires ValidConfig(c) && Run(c, []) == Some(s)
    ensures s == Init(c)
  {
  }

  // ----- One step -----

  /** An unlogged answer was there before the step, unless the step is that answer. */
  lemma UnloggedStep(c: Config, s: State, a: Action, w: nat, job: Job, at: real, outcome: Outcome)
    requires ValidConfig(c) && Enabled(c, s, a)
    requires w < |Next(c, s, a).workers| && Unlogged(Next(c, s, a).workers[w], job, at, outcome)
    ensures w < |s.workers|
    ensures Unlogged(s.workers[w], job, at, outcome) || (a == Answer(w, at, outcome) && s.workers[w] == Writing(job))
  {
    hide Deadline, Truncate, Spacing, PushLatency, MiddleOf;
  }

  /** The log grows by one entry when an unlogged answer is recorded, and by nothing else. */
  lemma LogStep(c: Config, s: State, a: Action)
    requires ValidConfig(c) && Enabled(c, s, a)
    ensures var t := Next(c, s, a);
      && (!a.Record? ==> t.attempts == s.attempts)
      && (a.Record? ==>
            var x := s.workers[a.w];
            && x.Noted? && |t.attempts| == |s.attempts| + 1 && t.attempts[..|s.attempts|] == s.attempts
            && Reports(c, t.attempts[|s.attempts|], a.w, x.job, x.at, x.outcome))
  {
    hide Deadline, Truncate, Spacing, PushLatency, MiddleOf;
  }

  /** An unlogged answer stays, unless the step records it. */
  lemma UnloggedStays(c: Config, s: State, a: Action, w: nat, job: Job, at: real, outcome: Outcome)
    requires ValidConfig(c) && Enabled(c, s, a) && w < |s.workers| && Unlogged(s.workers[w], job, at, outcome)
    ensures var t := Next(c, s, a); w < |t.workers| && (Unlogged(t.workers[w], job, at, outcome) || a == Record(w))
  {
    hide Deadline, Truncate, Spacing, PushLatency, MiddleOf;
  }

  lemma AnswerIsUnlogged(c: Config, s: State, w: nat, job: Job, at: real, outcome: Outcome)
    requires ValidConfig(c) && Enabled(c, s, Answer(w, at, outcome)) && s.workers[w] == Writing(job)
    ensures var t := Next(c, s, Answer(w, at, outcome)); w < |t.workers| && Unlogged(t.workers[w], job, at, outcome)
  {
  }

  lemma NothingAnswered(c: Config)
    requires ValidConfig(c)
    ensures Init(c).attempts == [] && forall w | 0 <= w < |Init(c).workers| :: Init(c).workers[w] == Idle
  {
  }

  // ----- Over the run -----

  lemma AnsweredEarlier(c: Config, actions: seq<Action>, k: int, w: int, job: Job, at: real, outcome: Outcome)
    requires ValidConfig(c) && actions != []
    ensures AnsweredBy(c, actions[..|actions| - 1], k, w, job, at, outcome)
        <==> k < |actions| - 1 && AnsweredBy(c, actions, k, w, job, at, outcome)
  {
    hide Run;
    var n := |actions| - 1;
    if 0 <= k < n {
      assert actions[..n][..k] == actions[..k];
    }
  }

  lemma WasAnsweredEarlier(c: Config, actions: seq<Action>, w: int, job: Job, at: real, outcome: Outcome)
    requires ValidConfig(c) && actions != [] && WasAnswered(c, actions[..|actions| - 1], w, job, at, outcome)
    ensures WasAnswered(c, actions, w, job, at, outcome)
  {
    hide AnsweredBy;
    var k :| AnsweredBy(c, actions[..|actions| - 1], k, w, job, at, outcome);
    AnsweredEarlier(c, actions, k, w, job, at, outcome);
  }

  lemma AnsweredLast(c: Config, actions: seq<Action>, before: State, w: nat, job: Job, at: real, outcome: Outcome)
    requires ValidConfig(c) && actions != [] && Run(c, actions[..|actions| - 1]) == Some(before)
    requires actions[|actions| - 1] == Answer(w, at, outcome) && w < |before.workers| && before.workers[w] == Writing(job)
    ensures WasAnswered(c, actions, w, job, at, outcome)
  {
    hide Run;
    assert AnsweredBy(c, actions, |actions| - 1, w, job, at, outcome);
  }

  /** What a worker has been answered and not logged yet, some step of the run answered it. */
  lemma {:induction false} UnloggedAreAnswers(c: Config, actions: seq<Action>, s: State, w: nat, job: Job, at: real, outcome: Outcome)
    requires ValidConfig(c) && Run(c, actions) == Some(s) && w < |s.workers| && Unlogged(s.workers[w], job, at, outcome)
    ensures WasAnswered(c, actions, w, job, at, outcome)
  {
    hide Run, Next, Enabled, AnsweredBy, Init, WasAnswered;
    if actions == [] {
      RunEnds(c, s);
      NothingAnswered(c);
      assert false;
    } else {
      var n := |actions| - 1;
      var before := RunStep(c, actions, s);
      UnloggedStep(c, before, actions[n], w, job, at, outcome);
      if Unlogged(before.workers[w], job, at, outcome) {
        UnloggedAreAnswers(c, actions[..n], before, w, job, at, outcome);
        WasAnsweredEarlier(c, actions, w, job, at, outcome);
      } else {
        AnsweredLast(c, actions, before, w, job, at, outcome);
      }
    }
  }

  /** In every run, each logged attempt is an answer: its worker was writing the job of that number, put
      at that dispatch time, when it was answered, at that completion time and with that outcome. */
  lemma {:induction false} AttemptsAreAnswers(c: Config, actions: seq<Action>, s: State, i: nat)
    requires ValidConfig(c) && Run(c, actions) == Some(s) && i < |s.attempts|
    ensures var e := s.attempts[i];
      && e.seqId >= 0
      && WasAnswered(c, actions, e.worker, Job(e.seqId, e.dispatch + c.epoch), e.complete + c.epoch, e.outcome)
  {
    hide Run, Next, Enabled, AnsweredBy, Init, WasAnswered;
    if actions == [] {
      RunEnds(c, s);
      NothingAnswered(c);
      assert false;
    } else {
      var n := |actions| - 1;
      var before := RunStep(c, actions, s);
      LogStep(c, before, actions[n]);
      var e := s.attempts[i];
      if i < |before.attempts| {
        assert s.attempts[..|before.attempts|][i] == e;
        AttemptsAreAnswers(c, actions[..n], before, i);
      } else {
        var x := before.workers[actions[n].w];
        assert x.job == Job(e.seqId, e.dispatch + c.epoch);
        UnloggedAreAnswers(c, actions[..n], before, actions[n].w, x.job, x.at, x.outcome);
      }
      WasAnsweredEarlier(c, actions, e.worker, Job(e.seqId, e.dispatch + c.epoch), e.complete + c.epoch, e.outcome);
    }
  }

  ghost predicate InLogAs(c: Config, attempts: seq<Attempt>, w: int, job: Job, at: real, outcome: Outcome) {
    exists i :: 0 <= i < |attempts| && Reports(c, attempts[i], w, job, at, outcome)
  }

  lemma StillInLog(c: Config, before: seq<Attempt>, after: seq<Attempt>, w: int, job: Job, at: real, outcome: Outcome)
    requires |before| <= |after| && after[..|before|] == before && InLogAs(c, before, w, job, at, outcome)
    ensures InLogAs(c, after, w, job, at, outcome)
  {
    hide Reports;
    var i :| 0 <= i < |before| && Reports(c, before[i], w, job, at, outcome);
    assert after[..|before|][i] == after[i];
  }

  /** Conversely no answer is dropped: the worker still has it to log, or it is in the log as it was. */
  lemma {:induction false} AnswersAreLogged(c: Config, actions: seq<Action>, s: State, k: nat, w: nat, job: Job, at: real, outcome: Outcome)
    requires ValidConfig(c) && Run(c, actions) == Some(s) && AnsweredBy(c, actions, k, w, job, at, outcome)
    ensures || (w < |s.workers| && Unlogged(s.workers[w], job, at, outcome))
            || InLogAs(c, s.attempts, w, job, at, outcome)
  {
    var n := |actions| - 1;
    var before := RunStep(c, actions, s);
    if k == n {
      hide Run, Next, Enabled;
      AnswerIsUnlogged(c, before, w, job, at, outcome);
    } else {
      AnsweredEarlier(c, actions, k, w, job, at, outcome);
      hide *;
      AnswersAreLogged(c, actions[..n], before, k, w, job, at, outcome);
      LogStep(c, before, actions[n]);
      if InLogAs(c, before.attempts, w, job, at, outcome) {
        assert s.attempts[..|before.attempts|] == before.attempts;
        StillInLog(c, before.attempts, s.attempts, w, job, at, outcome);
      } else {
        UnloggedStays(c, before, actions[n], w, job, at, outcome);
        if actions[n] == Record(w) {
          RecordedAs(c, before, s, w, job, at, outcome);
        }
      }
    }
  }

  lemma RecordedAs(c: Config, before: State, after: State, w: nat, job: Job, at: real, outcome: Outcome)
    requires ValidConfig(c) && Enabled(c, before, Record(w)) && after == Next(c, before, Record(w))
    requires w < |before.workers| && Unlogged(before.workers[w], job, at, outcome)
    ensures InLogAs(c, after.attempts, w, job, at, outcome)
  {
    LogStep(c, before, Record(w));
    hide Next;
    assert Reports(c, after.attempts[|before.attempts|], w, job, at, outcome);
  }
}
