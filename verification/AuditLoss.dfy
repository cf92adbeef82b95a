/** What the audit's record and its loss figure mean, over every run of writer, store and collector. */
module AuditLoss {
  import opened Options
  import opened AuditProtocol

  // ----- The record -----

  /** The clock never goes back, within a turn or from one to the next. */
  ghost predicate Clocked(turns: seq<Turn>) {
    && (forall i | 0 <= i < |turns| :: turns[i].started <= turns[i].ended)
    && forall i | 0 <= i < |turns| - 1 :: turns[i].ended <= turns[i + 1].started
  }

  ghost predicate OnClock(s: State) {
    && Clocked(s.turns)
    && (s.turns != [] ==> s.turns[|s.turns| - 1].ended <= s.clock)
    && (s.phase.Writing? ==> s.phase.started <= s.clock &&
                             (s.turns != [] ==> s.turns[|s.turns| - 1].ended <= s.phase.started))
  }

  /** The writer's fields say what its turns came to, and only a write in flight is not among them. */
  ghost predicate Faithful(s: State) {
    && s.seqId == |s.turns| + (if s.phase.Writing? then 1 else 0)
    && s.acknowledged == Marked(s.turns, Ack) && s.ambiguous == Marked(s.turns, Ambiguous)
    && s.refused == Marked(s.turns, Refused) && s.attempts == Attempts(s.turns)
  }

  lemma MarkedNext(turns: seq<Turn>, t: Turn, mark: Mark)
    ensures Marked(turns + [t], mark) == Marked(turns, mark) + if MarkOf(t.outcome) == mark then {|turns| + 1} else {}
  {
    var more := turns + [t];
    forall k: nat ensures EndedAs(more, k, mark) <==>
        EndedAs(turns, k, mark) || (k == |turns| + 1 && MarkOf(t.outcome) == mark)
    {
    }
  }

  lemma AttemptsNext(turns: seq<Turn>, t: Turn)
    ensures Attempts(turns + [t]) == Attempts(turns) + [Attempt(t.ended, |turns| + 1, MarkOf(t.outcome))]
  {
  }

  lemma FinishKeeps(s: State, started: real, now: real, outcome: Outcome)
    requires Faithful(s) && s.phase == Writing(started)
    ensures Faithful(Finish(s, started, now, outcome))
  {
    hide Marked, Attempts;
    var turn := Turn(started, now, outcome);
    MarkedNext(s.turns, turn, Ack);
    MarkedNext(s.turns, turn, Ambiguous);
    MarkedNext(s.turns, turn, Refused);
    AttemptsNext(s.turns, turn);
  }

  lemma ClockedNext(turns: seq<Turn>, t: Turn)
    requires Clocked(turns) && t.started <= t.ended
    requires turns != [] ==> turns[|turns| - 1].ended <= t.started
    ensures Clocked(turns + [t])
  {
    var more := turns + [t];
    forall i | 0 <= i < |more| ensures more[i].started <= more[i].ended {
      assert i < |turns| ==> more[i] == turns[i];
    }
  }

  lemma FinishOnClock(s: State, now: real, outcome: Outcome)
    requires OnClock(s) && s.phase.Writing? && s.clock <= now
    ensures OnClock(Finish(s, s.phase.started, now, outcome))
  {
    hide Clocked;
    ClockedNext(s.turns, Turn(s.phase.started, now, outcome));
  }

  lemma RecordKept(s: State, a: Action)
    requires Enabled(s, a) && Faithful(s) && OnClock(s)
    ensures Faithful(Next(s, a)) && OnClock(Next(s, a))
  {
    if a.Answer? {
      hide Faithful, OnClock, Finish;
      FinishKeeps(s, s.phase.started, a.now, a.outcome);
      FinishOnClock(s, a.now, a.outcome);
    } else {
      hide Marked, Attempts, Clocked;
    }
  }

  lemma {:induction false} Recorded(d: Discipline, actions: seq<Action>, s: State)
    requires Run(d, actions) == Some(s)
    ensures Faithful(s) && OnClock(s)
  {
    if actions == [] {
      assert Marked([], Ack) == Marked([], Ambiguous) == Marked([], Refused) == {} && Attempts([]) == [];
    } else {
      var n := |actions| - 1;
      var before := Run(d, actions[..n]).value;
      Recorded(d, actions[..n], before);
      hide Faithful, OnClock, Next;
      RecordKept(before, actions[n]);
    }
  }

  predicate InFlight(s: State, n: nat) {
    s.phase.Writing? && n == s.seqId
  }

  /** In every run, every number drawn is acknowledged, ambiguous, refused or in flight, and only one of
      these; no other number is any of them. */
  lemma RunPartitions(d: Discipline, actions: seq<Action>, s: State, n: nat)
    requires Run(d, actions) == Some(s)
    ensures 1 <= n <= s.seqId <==> n in s.acknowledged || n in s.ambiguous || n in s.refused || InFlight(s, n)
    ensures s.acknowledged !! s.ambiguous !! s.refused
    ensures InFlight(s, n) ==> n !in s.acknowledged && n !in s.ambiguous && n !in s.refused
  {
    hide Run;
    Recorded(d, actions, s);
    if 1 <= n <= |s.turns| {
      assert EndedAs(s.turns, n, MarkOf(s.turns[n - 1].outcome));
    }
  }

  lemma {:induction false} EndsInOrder(turns: seq<Turn>, i: nat, j: nat)
    requires Clocked(turns) && i <= j < |turns|
    ensures turns[i].ended <= turns[j].ended
    decreases j - i
  {
    if i < j {
      EndsInOrder(turns, i + 1, j);
      assert turns[i].ended <= turns[i + 1].started <= turns[i + 1].ended;
    }
  }

  /** In every run the log holds the finished numbers in order, one entry each, at nondecreasing times. */
  lemma LogInOrder(d: Discipline, actions: seq<Action>, s: State, i: nat, j: nat)
    requires Run(d, actions) == Some(s) && i <= j < |s.attempts|
    ensures s.attempts[i].seqId == i + 1 && s.attempts[i].at <= s.attempts[j].at
    ensures s.seqId - 1 <= |s.attempts| <= s.seqId
  {
    hide Run;
    Recorded(d, actions, s);
    EndsInOrder(s.turns, i, j);
  }

  // ----- The table -----

  /** The table holds what was committed last and not dropped since. */
  lemma {:induction false} TableHolds(d: Discipline, actions: seq<Action>, s: State, n: nat)
    requires Run(d, actions) == Some(s)
    ensures n in s.table <==> FateOf(actions, n).Committed?
  {
    if actions != [] {
      var last := |actions| - 1;
      TableHolds(d, actions[..last], Run(d, actions[..last]).value, n);
    }
  }

  lemma FateNext(actions: seq<Action>, a: Action, n: nat)
    ensures !FateOf(actions, n).Never? ==> !FateOf(actions + [a], n).Never?
  {
    assert (actions + [a])[..|actions|] == actions;
  }

  lemma {:induction false} AckedWasCommitted(d: Discipline, actions: seq<Action>, s: State, n: nat)
    requires Run(d, actions) == Some(s) && CommitsBeforeAck(d) && n in s.acknowledged
    ensures !FateOf(actions, n).Never?
  {
    if actions != [] {
      var last := |actions| - 1;
      var before, a := Run(d, actions[..last]).value, actions[last];
      assert actions == actions[..last] + [a];
      FateNext(actions[..last], a, n);
      if n in before.acknowledged {
        AckedWasCommitted(d, actions[..last], before, n);
      } else {
        assert Acknowledges(a) && n == before.seqId;
      }
    }
  }

  // ----- The loss -----

  /** The collector reads the table after `before` and compares after `mid`. */
  ghost predicate Collects(d: Discipline, before: seq<Action>, mid: seq<Action>, s: State, t: State) {
    && Run(d, before) == Some(s)
    && Run(d, before + [Select] + mid + [Compare]) == Some(t)
    && forall i | 0 <= i < |mid| :: mid[i] != Select
  }

  lemma RunPrefix(d: Discipline, actions: seq<Action>, a: Action)
    requires Run(d, actions + [a]).Some?
    ensures Run(d, actions).Some? && Enabled(Run(d, actions).value, a)
    ensures Run(d, actions + [a]) == Some(Next(Run(d, actions).value, a))
  {
    assert (actions + [a])[..|actions|] == actions;
  }

  /** Numbers finished at most, once the stop flag is up. */
  function Limit(s: State): nat {
    |s.turns| + if s.phase.Starting? || s.phase.Writing? then 1 else 0
  }

  /** What holds in state u if the table was last read in state s. */
  ghost predicate SinceSelect(s: State, u: State) {
    && u.present == Some(s.table) && s.acknowledged <= u.acknowledged
    && (s.stop ==> u.stop && Limit(u) <= Limit(s))
    && |s.turns| <= |u.turns|
    && forall n | n in u.acknowledged && n !in s.acknowledged :: |s.turns| < n
  }

  lemma SinceSelectKept(s: State, u: State, a: Action)
    requires Enabled(u, a) && a != Select && SinceSelect(s, u) && Faithful(u)
    ensures SinceSelect(s, Next(u, a))
  {
    hide Marked, Attempts;
  }

  lemma SinceSelectStarts(s: State)
    requires Enabled(s, Select)
    ensures SinceSelect(s, Next(s, Select))
  {
  }

  lemma {:induction false} AfterSelect(d: Discipline, before: seq<Action>, mid: seq<Action>, s: State, u: State)
    requires Run(d, before) == Some(s) && Run(d, before + [Select] + mid) == Some(u)
    requires forall i | 0 <= i < |mid| :: mid[i] != Select
    ensures SinceSelect(s, u)
  {
    hide *;
    if mid == [] {
      assert before + [Select] + mid == before + [Select];
      RunPrefix(d, before, Select);
      SinceSelectStarts(s);
    } else {
      var n := |mid| - 1;
      var earlier := before + [Select] + mid[..n];
      assert before + [Select] + mid == earlier + [mid[n]];
      RunPrefix(d, earlier, mid[n]);
      var v := Run(d, earlier).value;
      AfterSelect(d, before, mid[..n], s, v);
      Recorded(d, earlier, v);
      SinceSelectKept(s, v, mid[n]);
    }
  }

  lemma {:induction false} JoinedStopped(d: Discipline, actions: seq<Action>, s: State)
    requires Run(d, actions) == Some(s)
    ensures (s.joined ==> s.stop) && (s.phase.Exited? ==> s.stop)
  {
    if actions != [] {
      JoinedStopped(d, actions[..|actions| - 1], Run(d, actions[..|actions| - 1]).value);
    }
  }

  /** A number whose acknowledgement reached the writer only after the table was read. */
  ghost predicate LateAck(before: seq<Action>, s: State, t: State, n: nat) {
    n == |s.turns| + 1 && n !in s.acknowledged && n in t.acknowledged && FateOf(before, n).Never?
  }

  lemma CollectedFrom(d: Discipline, before: seq<Action>, mid: seq<Action>, s: State, t: State) returns (u: State)
    requires Collects(d, before, mid, s, t)
    ensures SinceSelect(s, u) && Faithful(u) && s.stop && Run(d, before + [Select] + mid) == Some(u)
    ensures t.acknowledged == u.acknowledged && t.lost == Some(u.acknowledged - s.table)
  {
    hide Run, Faithful, SinceSelect;
    var all := before + [Select] + mid;
    RunPrefix(d, all, Compare);
    u := Run(d, all).value;
    AfterSelect(d, before, mid, s, u);
    Recorded(d, all, u);
    SelectedJoined(d, before, mid, s);
    JoinedStopped(d, before, s);
    PresentIs(s, u);
  }

  lemma PresentIs(s: State, u: State)
    requires SinceSelect(s, u)
    ensures u.present == Some(s.table)
  {
  }

  lemma {:induction false} SelectedJoined(d: Discipline, before: seq<Action>, mid: seq<Action>, s: State)
    requires Run(d, before) == Some(s) && Run(d, before + [Select] + mid).Some?
    ensures s.joined
  {
    hide Run;
    if mid == [] {
      assert before + [Select] + mid == before + [Select];
      RunPrefix(d, before, Select);
    } else {
      var n := |mid| - 1;
      assert before + [Select] + mid == before + [Select] + mid[..n] + [mid[n]];
      RunPrefix(d, before + [Select] + mid[..n], mid[n]);
      SelectedJoined(d, before, mid[..n], s);
    }
  }

  lemma OnlyOneLater(s: State, u: State, n: nat)
    requires SinceSelect(s, u) && Faithful(u) && s.stop && n in u.acknowledged && n !in s.acknowledged
    ensures n == |s.turns| + 1 && Limit(s) == |s.turns| + 1
  {
    assert n <= |u.turns| <= Limit(u);
  }

  /** Against a database that commits before it acknowledges, what the collector calls lost is exactly the
      acknowledged numbers that were dropped and not committed again by the time the table was read, and
      at most one more: the write a timed-out join left in flight, if its commit came after the reading. */
  lemma LostMeans(d: Discipline, before: seq<Action>, mid: seq<Action>, s: State, t: State, n: nat)
    requires CommitsBeforeAck(d) && Collects(d, before, mid, s, t)
    ensures t.lost.Some?
    ensures n in t.lost.value <==> n in t.acknowledged && (FateOf(before, n).Dropped? || LateAck(before, s, t, n))
  {
    hide Run, CommitsBeforeAck, SinceSelect, Faithful, FateOf;
    var u := CollectedFrom(d, before, mid, s, t);
    TableHolds(d, before, s, n);
    if n in s.acknowledged {
      AckedWasCommitted(d, before, s, n);
    } else if n in u.acknowledged {
      OnlyOneLater(s, u, n);
    }
  }

  ghost predicate ExactLoss(before: seq<Action>, t: State) {
    t.lost.Some? && forall n: nat :: n in t.lost.value <==> n in t.acknowledged && FateOf(before, n).Dropped?
  }

  /** So a collection is exact if and only if no such write was acknowledged behind the reader's back. */
  lemma ExactUnlessLate(d: Discipline, before: seq<Action>, mid: seq<Action>, s: State, t: State)
    requires CommitsBeforeAck(d) && Collects(d, before, mid, s, t)
    ensures ExactLoss(before, t) <==> !LateAck(before, s, t, |s.turns| + 1)
  {
    forall n: nat ensures t.lost.Some? &&
      (n in t.lost.value <==> n in t.acknowledged && (FateOf(before, n).Dropped? || LateAck(before, s, t, n)))
    {
      LostMeans(d, before, mid, s, t, n);
    }
    hide Run, CommitsBeforeAck, Collects, FateOf;
    var n := |s.turns| + 1;
    if LateAck(before, s, t, n) {
      assert n in t.lost.value;
    }
  }

  /** Once the writer's thread has really ended there is no such write. */
  lemma LostIsDropped(d: Discipline, before: seq<Action>, mid: seq<Action>, s: State, t: State)
    requires CommitsBeforeAck(d) && Collects(d, before, mid, s, t) && s.phase.Exited?
    ensures ExactLoss(before, t)
  {
    hide Run, CommitsBeforeAck, ExactLoss, SinceSelect, Faithful;
    ExactUnlessLate(d, before, mid, s, t);
    var u := CollectedFrom(d, before, mid, s, t);
    var n := |s.turns| + 1;
    if LateAck(before, s, t, n) {
      OnlyOneLater(s, u, n);
    }
  }

  // ----- Exactness needs the discipline -----

  lemma Extend(d: Discipline, actions: seq<Action>, s: State, a: Action) returns (longer: seq<Action>, t: State)
    requires Run(d, actions) == Some(s) && Enabled(s, a) && (Acknowledges(a) ==> d(actions))
    ensures longer == actions + [a] && Run(d, longer) == Some(t) && t == Next(s, a)
  {
    longer, t := actions + [a], Next(s, a);
    hide Enabled, Next;
    assert longer[..|longer| - 1] == actions;
  }

  lemma FateSame(actions: seq<Action>, a: Action, n: nat)
    requires !a.Commit? && !a.Drop?
    ensures FateOf(actions + [a], n) == FateOf(actions, n)
  {
    assert (actions + [a])[..|actions|] == actions;
  }

  /** A run that acknowledges its outstanding write and then winds up. */
  lemma WindUp(d: Discipline, h: seq<Action>, s: State) returns (before: seq<Action>, u: State)
    requires Run(d, h) == Some(s) && s.phase.Writing? && d(h)
    ensures Run(d, before) == Some(u) && u.phase.Exited? && u.joined
    ensures s.seqId in u.acknowledged && u.table == s.table && FateOf(before, s.seqId) == FateOf(h, s.seqId)
  {
    hide Run, FateOf;
    var n := s.seqId;
    before, u := Extend(d, h, s, Answer(s.clock, Returned));
    FateSame(h, Answer(s.clock, Returned), n);
    var next;
    next, u := Extend(d, before, u, RequestStop);
    FateSame(before, RequestStop, n);
    before, u := Extend(d, next, u, Wake);
    FateSame(next, Wake, n);
    next, u := Extend(d, before, u, TestStop);
    FateSame(before, TestStop, n);
    before, u := Extend(d, next, u, Join);
    FateSame(next, Join, n);
  }

  lemma Collect(d: Discipline, before: seq<Action>, s: State) returns (t: State)
    requires Run(d, before) == Some(s) && s.joined
    ensures Collects(d, before, [], s, t) && t.acknowledged == s.acknowledged && t.lost == Some(s.acknowledged - s.table)
  {
    hide Run;
    var next;
    next, t := Extend(d, before, s, Select);
    assert next + [] == next;
    next, t := Extend(d, next, t, Compare);
  }

  /** Every collection made after the writer has ended is exact. */
  ghost predicate AlwaysExact(d: Discipline) {
    forall before, mid, s, t | Collects(d, before, mid, s, t) && s.phase.Exited? :: ExactLoss(before, t)
  }

  /** The figure is the acknowledged writes the store dropped, in every run, if and only if the store
      commits before it acknowledges. */
  lemma AlwaysExactIff(d: Discipline)
    ensures AlwaysExact(d) <==> CommitsBeforeAck(d)
  {
    if CommitsBeforeAck(d) {
      forall before, mid, s, t | Collects(d, before, mid, s, t) && s.phase.Exited? ensures ExactLoss(before, t) {
        LostIsDropped(d, before, mid, s, t);
      }
    } else {
      var h, s :| Run(d, h) == Some(s) && s.phase.Writing? && d(h) && FateOf(h, s.seqId).Never?;
      hide Run, FateOf, Collects, CommitsBeforeAck;
      var before, u := WindUp(d, h, s);
      TableHolds(d, h, s, s.seqId);
      var t := Collect(d, before, u);
      assert s.seqId in t.lost.value;
      assert !ExactLoss(before, t);
    }
  }

  // ----- A write that outlasts the join -----

  function Begun(h: seq<Action>): nat {
    if h == [] then 0 else Begun(h[..|h| - 1]) + if h[|h| - 1].Begin? then 1 else 0
  }

  /** The plain discipline: acknowledge what has been committed. */
  function CommitThenAck(h: seq<Action>): bool {
    !FateOf(h, Begun(h)).Never?
  }

  lemma {:induction false} BegunIsDrawn(d: Discipline, h: seq<Action>, s: State)
    requires Run(d, h) == Some(s)
    ensures s.seqId == Begun(h)
  {
    if h != [] {
      BegunIsDrawn(d, h[..|h| - 1], Run(d, h[..|h| - 1]).value);
    }
  }

  lemma CommitThenAckCommits()
    ensures CommitsBeforeAck(CommitThenAck)
  {
    forall h, s | Run(CommitThenAck, h) == Some(s) && s.phase.Writing? && CommitThenAck(h)
      ensures !FateOf(h, s.seqId).Never?
    {
      BegunIsDrawn(CommitThenAck, h, s);
    }
  }

  /** The first write outlasts the join, and commits after the table was read. */
  const OUTLASTED := [TestStop, Begin(0.0), RequestStop, Join, Select, Commit(1)]

  lemma MayAck(h: seq<Action>, s: State)
    requires Run(CommitThenAck, h) == Some(s) && h != [] && h[|h| - 1] == Commit(s.seqId)
    ensures CommitThenAck(h)
  {
    BegunIsDrawn(CommitThenAck, h, s);
  }

  lemma JoinGivesUp() returns (before: seq<Action>, s: State)
    ensures Run(CommitThenAck, before) == Some(s) && before == [TestStop, Begin(0.0), RequestStop, Join]
    ensures s == INIT.(stop := true, joined := true, seqId := 1, phase := Writing(0.0))
  {
    var d: Discipline := CommitThenAck;
    before, s := [], INIT;
    assert Run(d, before) == Some(s);
    hide Run, CommitThenAck;
    before, s := Extend(d, before, s, TestStop);
    before, s := Extend(d, before, s, Begin(0.0));
    before, s := Extend(d, before, s, RequestStop);
    before, s := Extend(d, before, s, Join);
  }

  /** Under that discipline a write is called lost that is in the table and never left it. */
  lemma OutlastedReadsAsLost() returns (before: seq<Action>, mid: seq<Action>, s: State, t: State)
    ensures CommitsBeforeAck(CommitThenAck) && Collects(CommitThenAck, before, mid, s, t)
    ensures t.lost == Some({1}) && t.table == {1}
    ensures before + [Select] + mid == OUTLASTED + [Answer(0.0, Returned)]
  {
    CommitThenAckCommits();
    hide Run, CommitsBeforeAck, CommitThenAck, FateOf, Begun;
    var d: Discipline := CommitThenAck;
    before, s := JoinGivesUp();
    var all;
    all, t := Extend(d, before, s, Select);
    all, t := Extend(d, all, t, Commit(1));
    assert all == OUTLASTED;
    MayAck(all, t);
    all, t := Extend(d, all, t, Answer(0.0, Returned));
    mid := [Commit(1), Answer(0.0, Returned)];
    assert before + [Select] + mid == all;
    all, t := Extend(d, all, t, Compare);
    assert t.lost == Some({1});
  }

  // ----- What can be told before the table is read -----

  /** The writer may still finish a write whose row the coming reading of the table will not show. */
  predicate Pending(before: seq<Action>, s: State) {
    s.phase.Starting? || (s.phase.Writing? && FateOf(before, s.seqId).Never?)
  }

  /** Every collection that starts here is exact. */
  ghost predicate ExactFrom(d: Discipline, before: seq<Action>, s: State) {
    forall mid, t | Collects(d, before, mid, s, t) :: ExactLoss(before, t)
  }

  /** With nothing pending, any store that commits before it acknowledges makes every collection exact,
      whether or not the writer's thread has ended. */
  lemma NothingPendingIsExact(d: Discipline, before: seq<Action>, s: State)
    requires CommitsBeforeAck(d) && Run(d, before) == Some(s) && !Pending(before, s)
    ensures ExactFrom(d, before, s)
  {
    hide Run, CommitsBeforeAck, ExactLoss, SinceSelect, Collects, FateOf;
    forall mid, t | Collects(d, before, mid, s, t) ensures ExactLoss(before, t) {
      ExactUnlessLate(d, before, mid, s, t);
      var u := CollectedFrom(d, before, mid, s, t);
      Recorded(d, before, s);
      hide Marked, Attempts;
      if LateAck(before, s, t, |s.turns| + 1) {
        OnlyOneLater(s, u, |s.turns| + 1);
      }
    }
  }

  lemma {:induction false} UndrawnIsNever(d: Discipline, actions: seq<Action>, s: State, n: nat)
    requires Run(d, actions) == Some(s) && n > s.seqId
    ensures FateOf(actions, n).Never? && n !in s.table
  {
    if actions != [] {
      UndrawnIsNever(d, actions[..|actions| - 1], Run(d, actions[..|actions| - 1]).value, n);
    }
  }

  /** The write that is outstanding is committed and acknowledged after the table was read as s.table. */
  lemma FinishLate(before: seq<Action>, mid: seq<Action>, s: State, u: State) returns (more: seq<Action>, t: State)
    requires Run(CommitThenAck, before) == Some(s) && Run(CommitThenAck, before + [Select] + mid) == Some(u)
    requires forall i | 0 <= i < |mid| :: mid[i] != Select
    requires u.phase.Writing? && u.seqId >= 1 && u.seqId !in u.table && u.present == Some(s.table) && u.seqId !in s.table
    ensures Collects(CommitThenAck, before, more, s, t)
    ensures t.lost.Some? && u.seqId in t.lost.value
  {
    hide Run, CommitThenAck;
    var all, n, d := before + [Select] + mid, u.seqId, CommitThenAck;
    all, t := Extend(d, all, u, Commit(n));
    MayAck(all, t);
    all, t := Extend(d, all, t, Answer(u.clock, Returned));
    more := mid + [Commit(n), Answer(u.clock, Returned)];
    assert before + [Select] + more == all;
    all, t := Extend(d, all, t, Compare);
  }

  lemma PendingIsInexact(before: seq<Action>, s: State)
    requires Run(CommitThenAck, before) == Some(s) && s.joined && Pending(before, s)
    ensures !ExactFrom(CommitThenAck, before, s)
  {
    hide Run, CommitThenAck, FateOf, Collects;
    var d := CommitThenAck;
    Recorded(d, before, s);
    hide Marked, Attempts, Clocked;
    var all, u := Extend(d, before, s, Select);
    var mid: seq<Action> := [];
    assert before + [Select] + mid == all;
    if s.phase.Starting? {
      all, u := Extend(d, all, u, Begin(u.clock));
      mid := [Begin(s.clock)];
      assert before + [Select] + mid == all;
      UndrawnIsNever(d, before, s, u.seqId);
    } else {
      TableHolds(d, before, s, s.seqId);
    }
    var more, t := FinishLate(before, mid, s, u);
    assert u.seqId in t.lost.value && FateOf(before, u.seqId).Never?;
    assert !ExactLoss(before, t);
  }

  /** After the join, whatever is still to come, the figure will be exact if and only if no write is
      pending: the writer is about to begin one, or has one outstanding that is not committed yet. */
  lemma ExactFromIff(before: seq<Action>, s: State)
    requires Run(CommitThenAck, before) == Some(s) && s.joined
    ensures ExactFrom(CommitThenAck, before, s) <==> !Pending(before, s)
  {
    hide Run, CommitThenAck, ExactFrom, Pending;
    if Pending(before, s) {
      PendingIsInexact(before, s);
    } else {
      CommitThenAckCommits();
      NothingPendingIsExact(CommitThenAck, before, s);
    }
  }
}
