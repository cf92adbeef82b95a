/** The audit writer against a store, as atomic steps in any interleaving: the writer's loop, the main
    thread that stops, joins and collects, and a store that commits, drops and commits again as it likes.
    What a store may acknowledge is its discipline, a predicate on everything that has happened. */
module AuditProtocol {
  import opened Options

  datatype Mark = Ack | Ambiguous | Refused

  datatype Attempt = Attempt(at: real, seqId: nat, mark: Mark)

  /** What came of one write: it returned, or raised an error that is of the connection or is not. */
  datatype Outcome = Returned | Raised(ofConnection: bool)

  /** One finished turn of the writer's loop: when the write began and ended, and what came of it. */
  datatype Turn = Turn(started: real, ended: real, outcome: Outcome)

  function MarkOf(o: Outcome): Mark {
    match o
    case Returned => Ack
    case Raised(ofConnection) => if ofConnection then Ambiguous else Refused
  }

  /** Sequence numbers count the turns from 1. */
  predicate EndedAs(turns: seq<Turn>, n: nat, mark: Mark) {
    1 <= n <= |turns| && MarkOf(turns[n - 1].outcome) == mark
  }

  /** The sequence numbers whose turn ended with this mark. */
  function Marked(turns: seq<Turn>, mark: Mark): set<nat> {
    set n: nat | n <= |turns| && EndedAs(turns, n, mark)
  }

  function Attempts(turns: seq<Turn>): (r: seq<Attempt>)
    ensures |r| == |turns|
    ensures forall i | 0 <= i < |r| :: r[i] == Attempt(turns[i].ended, i + 1, MarkOf(turns[i].outcome))
  {
    seq(|turns|, i requires 0 <= i < |turns| => Attempt(turns[i].ended, i + 1, MarkOf(turns[i].outcome)))
  }

  // ----- Threads and store -----

  /** Where the writer stands in its loop. */
  datatype Phase =
    | Testing                  // about to test the stop flag
    | Starting                 // about to draw a number and write it
    | Writing(started: real)   // the INSERT is outstanding
    | Waiting                  // between two turns
    | Exited

  /** Shared variables and the store's table. `turns` is history: every write that has ended. */
  datatype State = State(
    stop: bool, clock: real, phase: Phase, seqId: nat,
    acknowledged: set<nat>, ambiguous: set<nat>, refused: set<nat>, attempts: seq<Attempt>,
    table: set<nat>, joined: bool, present: Option<set<nat>>, lost: Option<set<nat>>,
    turns: seq<Turn>)

  datatype Action =
    | TestStop
    | Begin(now: real)
    | Answer(now: real, outcome: Outcome)
    | Wake
    | RequestStop
    | Join                     // the thread has ended, or the bounded join gives up on it
    | Commit(n: nat)           // of an outstanding write, a late one, or a row dropped before
    | Drop(n: nat)
    | Select                   // the collector reads the table
    | Compare                  // and then the writer's acknowledged set

  const INIT := State(false, 0.0, Testing, 0, {}, {}, {}, [], {}, false, None, None, [])

  predicate Enabled(s: State, a: Action) {
    match a
    case TestStop => s.phase.Testing?
    case Begin(now) => s.phase.Starting? && s.clock <= now
    case Answer(now, _) => s.phase.Writing? && s.clock <= now
    case Wake => s.phase.Waiting?
    case RequestStop => true
    case Join => s.stop
    case Commit(n) => 1 <= n <= s.seqId && n !in s.table
    case Drop(n) => n in s.table
    case Select => s.joined
    case Compare => s.present.Some?
  }

  function Finish(s: State, started: real, now: real, outcome: Outcome): State {
    var t := s.(clock := now, phase := Waiting, turns := s.turns + [Turn(started, now, outcome)],
                attempts := s.attempts + [Attempt(now, s.seqId, MarkOf(outcome))]);
    match MarkOf(outcome)
    case Ack => t.(acknowledged := s.acknowledged + {s.seqId})
    case Ambiguous => t.(ambiguous := s.ambiguous + {s.seqId})
    case Refused => t.(refused := s.refused + {s.seqId})
  }

  function Next(s: State, a: Action): State
    requires Enabled(s, a)
  {
    match a
    case TestStop => s.(phase := if s.stop then Exited else Starting)
    case Begin(now) => s.(clock := now, seqId := s.seqId + 1, phase := Writing(now))
    case Answer(now, outcome) => Finish(s, s.phase.started, now, outcome)
    case Wake => s.(phase := Testing)
    case RequestStop => s.(stop := true)
    case Join => s.(joined := true)
    case Commit(n) => s.(table := s.table + {n})
    case Drop(n) => s.(table := s.table - {n})
    case Select => s.(present := Some(s.table))
    case Compare => s.(lost := Some(s.acknowledged - s.present.value))
  }

  /** May the store, after this history, acknowledge the write that is outstanding? */
  type Discipline = seq<Action> -> bool

  predicate Acknowledges(a: Action) {
    a.Answer? && a.outcome.Returned?
  }

  /** The state a list of actions leads to, if each is possible when its turn comes and the store
      acknowledges only what its discipline allows. */
  function Run(d: Discipline, actions: seq<Action>): Option<State> {
    if actions == [] then Some(INIT)
    else
      var n := |actions| - 1;
      match Run(d, actions[..n])
      case None => None
      case Some(s) =>
        if Enabled(s, actions[n]) && (Acknowledges(actions[n]) ==> d(actions[..n])) then Some(Next(s, actions[n]))
        else None
  }

  // ----- What became of a row -----

  datatype Fate = Never | Committed | Dropped

  /** What the store did last with a number: nothing, a commit, or a drop not followed by another commit. */
  function FateOf(actions: seq<Action>, n: nat): Fate {
    if actions == [] then Never
    else
      var last := |actions| - 1;
      if actions[last] == Commit(n) then Committed
      else if actions[last] == Drop(n) then Dropped
      else FateOf(actions[..last], n)
  }

  /** Whatever the discipline lets the store acknowledge, it has committed before. */
  ghost predicate CommitsBeforeAck(d: Discipline) {
    forall h, s | Run(d, h) == Some(s) && s.phase.Writing? && d(h) :: !FateOf(h, s.seqId).Never?
  }
}
