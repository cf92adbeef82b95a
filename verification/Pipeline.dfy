/** The two-engine pipeline as a state machine. Commands, tailnet calls and the user's interrupt are
    nondeterministic; every method says what holds however they turn out. */
module Pipeline {
  import opened Options

  type Engine = string

  datatype Stage = Plan | Apply | Wait | Measure | Logout | Destroy | Purge

  const STAGES := [Plan, Apply, Wait, Measure, Logout, Destroy, Purge]

  datatype Key = Preflight | Of(engine: Engine, stage: Stage) | Insights

  datatype Status = Pending | Active | Done | Failed

  datatype Step = Step(key: Key, status: Status)

  datatype Exception = StepFailed | Aborted | TailscaleError | InternalError

  /** How a call ends: normally, or by raising. */
  datatype Outcome = Fine | Raise(exception: Exception) {
    predicate IsFailure() {
      Raise?
    }
    function PropagateFailure(): Outcome
      requires Raise?
    {
      this
    }
  }

  datatype Result = Result(ok: bool, error: Option<Exception>, cleaned: bool, cleanupCmd: Option<Engine>)

  datatype Choice = DestroyNow | LeaveUp

  // ----- The list of steps -----

  function EngineKeys(e: Engine): seq<Key> {
    [Of(e, Plan), Of(e, Apply), Of(e, Wait), Of(e, Measure), Of(e, Logout), Of(e, Destroy), Of(e, Purge)]
  }

  function AllEngineKeys(engines: seq<Engine>): seq<Key> {
    if engines == [] then [] else EngineKeys(engines[0]) + AllEngineKeys(engines[1..])
  }

  function Keys(engines: seq<Engine>): seq<Key> {
    [Preflight] + AllEngineKeys(engines) + [Insights]
  }

  function StageIndex(stage: Stage): nat {
    match stage
    case Plan => 0 case Apply => 1 case Wait => 2 case Measure => 3
    case Logout => 4 case Destroy => 5 case Purge => 6
  }

  /** Where a step of the j-th engine stands. */
  function Position(j: nat, stage: Stage): nat {
    1 + 7 * j + StageIndex(stage)
  }

  ghost predicate Distinct(engines: seq<Engine>) {
    forall i, j | 0 <= i < j < |engines| :: engines[i] != engines[j]
  }

  function FirstIndex(keys: seq<Key>, key: Key): (i: nat)
    ensures i <= |keys|
    ensures i < |keys| ==> keys[i] == key
    ensures forall k | 0 <= k < i :: keys[k] != key
  {
    if keys == [] || keys[0] == key then 0 else 1 + FirstIndex(keys[1..], key)
  }

  lemma {:induction false} EngineKeysAt(engines: seq<Engine>, j: nat, stage: Stage)
    requires j < |engines|
    ensures |AllEngineKeys(engines)| == 7 * |engines|
    ensures AllEngineKeys(engines)[7 * j + StageIndex(stage)] == Of(engines[j], stage)
  {
    if |engines| > 1 {
      EngineKeysAt(engines[1..], if j == 0 then 0 else j - 1, stage);
    }
  }

  lemma {:induction false} EngineKeysCount(engines: seq<Engine>)
    ensures |AllEngineKeys(engines)| == 7 * |engines|
  {
    if engines != [] {
      EngineKeysCount(engines[1..]);
    }
  }

  lemma KeyAt(engines: seq<Engine>, j: nat, stage: Stage)
    requires j < |engines|
    ensures Position(j, stage) < |Keys(engines)| && Keys(engines)[Position(j, stage)] == Of(engines[j], stage)
  {
    EngineKeysAt(engines, j, stage);
  }

  /** Which engine and stage an engine step belongs to. */
  lemma KeyOwner(engines: seq<Engine>, k: nat) returns (j: nat, stage: Stage)
    requires k < |Keys(engines)| && Keys(engines)[k].Of?
    ensures j < |engines| && k == Position(j, stage) && Keys(engines)[k] == Of(engines[j], stage)
  {
    EngineKeysCount(engines);
    j, stage := (k - 1) / 7, STAGES[(k - 1) % 7];
    KeyAt(engines, j, stage);
  }

  /** The lookup by key finds every engine's own step, for every engine, exactly when no engine is
      listed twice. */
  lemma LookupExactIffDistinct(engines: seq<Engine>)
    ensures Distinct(engines) <==>
            forall j: nat, stage | j < |engines| ::
              FirstIndex(Keys(engines), Of(engines[j], stage)) == Position(j, stage)
  {
    forall j: nat, stage: Stage | j < |engines| && Distinct(engines)
      ensures FirstIndex(Keys(engines), Of(engines[j], stage)) == Position(j, stage)
    {
      LookupFinds(engines, j, stage);
    }
    if i, j :| 0 <= i < j < |engines| && engines[i] == engines[j] {
      KeyAt(engines, i, Plan);
      assert FirstIndex(Keys(engines), Of(engines[j], Plan)) <= Position(i, Plan) < Position(j, Plan);
    }
  }

  lemma LookupFinds(engines: seq<Engine>, j: nat, stage: Stage)
    requires Distinct(engines) && j < |engines|
    ensures FirstIndex(Keys(engines), Of(engines[j], stage)) == Position(j, stage)
  {
    KeyAt(engines, j, stage);
    var k := FirstIndex(Keys(engines), Of(engines[j], stage));
    if k < |Keys(engines)| {
      var i, at := KeyOwner(engines, k);
      assert engines[i] == engines[j] && at == stage;
    }
  }

  lemma LookupEnds(engines: seq<Engine>)
    ensures FirstIndex(Keys(engines), Preflight) == 0
    ensures |Keys(engines)| == 7 * |engines| + 2
    ensures FirstIndex(Keys(engines), Insights) == |Keys(engines)| - 1
  {
    EngineKeysCount(engines);
    var keys, n := Keys(engines), 7 * |engines| + 1;
    assert keys[0] == Preflight && keys[n] == Insights && |keys| == n + 1;
    hide *;
    forall k | 0 < k < n ensures keys[k].Of? {
      MiddleKey(engines, k);
    }
  }

  lemma MiddleKey(engines: seq<Engine>, k: nat)
    requires 0 < k < 7 * |engines| + 1
    ensures k < |Keys(engines)| && Keys(engines)[k].Of?
  {
    hide Keys, AllEngineKeys;
    var j, stage := (k - 1) / 7, STAGES[(k - 1) % 7];
    KeyAt(engines, j, stage);
  }

  // ----- What always holds -----

  /** k steps are done, the next one reads `at`, everything after it is pending. */
  ghost predicate Progress(steps: seq<Step>, k: nat, at: Status) {
    && k <= |steps| && at != Done
    && (forall i | 0 <= i < k :: steps[i].status == Done)
    && (k < |steps| ==> steps[k].status == at)
    && (forall i | k < i < |steps| :: steps[i].status == Pending)
  }

  /** An engine may be deployed from the moment its apply is active until its destroy is done. */
  ghost predicate MayBeDeployed(engines: seq<Engine>, e: Engine, k: nat, at: Status) {
    exists j: nat :: j < |engines| && engines[j] == e && Position(j, Apply) <= k <= Position(j, Destroy) &&
                     (k == Position(j, Apply) ==> at != Pending)
  }

  /** What an observer may see at any moment. */
  datatype Snapshot = Snapshot(steps: seq<Step>, deployed: Option<Engine>, vms: set<Engine>)

  ghost predicate Orderly(engines: seq<Engine>, shot: Snapshot, k: nat, at: Status) {
    && |shot.steps| == |Keys(engines)|
    && (forall i | 0 <= i < |shot.steps| :: shot.steps[i].key == Keys(engines)[i])
    && Progress(shot.steps, k, at)
    && (forall e | e in shot.vms :: shot.deployed == Some(e))
    && (shot.deployed.Some? ==> MayBeDeployed(engines, shot.deployed.value, k, at))
  }

  ghost predicate Safe(engines: seq<Engine>, shot: Snapshot) {
    exists k: nat, at :: Orderly(engines, shot, k, at)
  }

  /** At most one step's status differs. */
  ghost predicate OneStep(a: seq<Step>, b: seq<Step>) {
    |a| == |b| && exists i :: 0 <= i < |a| && b == a[i := b[i]]
  }

  /** At most one thing differs: a step's status, the recorded deployment, or the machines. */
  ghost predicate OneChange(a: Snapshot, b: Snapshot) {
    || (a.steps == b.steps && a.deployed == b.deployed)
    || (a.steps == b.steps && a.vms == b.vms)
    || (a.deployed == b.deployed && a.vms == b.vms && OneStep(a.steps, b.steps))
  }

  /** Nothing was skipped between one snapshot and the next. */
  ghost predicate Unbroken(trail: seq<Snapshot>) {
    forall i | 0 <= i < |trail| - 1 :: OneChange(trail[i], trail[i + 1])
  }

  class State {
    var steps: seq<Step>
    var abort: bool
    var cleaning: bool
    var finished: bool
    var result: Result

    constructor (engines: seq<Engine>)
      ensures |steps| == |Keys(engines)|
      ensures forall i | 0 <= i < |steps| :: steps[i] == Step(Keys(engines)[i], Pending)
      ensures !cleaning && !finished && !abort && result == Result(false, None, false, None)
    {
      steps := seq(|Keys(engines)|, i requires 0 <= i < |Keys(engines)| => Step(Keys(engines)[i], Pending));
      abort, cleaning, finished := false, false, false;
      result := Result(false, None, false, None);
    }

    /** The user may press Ctrl-C at any moment. */
    method Interrupt()
      modifies this`abort
      ensures old(abort) ==> abort
    {
      if * {
        abort := true;
      }
    }

    /** Index of the first active step. */
    function FirstActive(from: nat): (i: nat)
      reads this
      requires from <= |steps|
      ensures from <= i <= |steps|
      ensures i < |steps| ==> steps[i].status == Active
      ensures forall j | from <= j < i :: steps[j].status != Active
      decreases |steps| - from
    {
      if from == |steps| || steps[from].status == Active then from else FirstActive(from + 1)
    }
  }

  // ----- What was run -----

  /** The commands, tailnet calls and waits that the steps consist of. */
  datatype Work =
    | TailscaleStatus | TerraformInit
    | TerraformPlan(e: Engine) | TerraformApply(e: Engine) | AwaitVms(e: Engine) | RunExperiment(e: Engine)
    | LogoutVms | TerraformDestroy(e: Engine) | PurgeDevices
    | DrawInsights | CompareEngines

  /** How a piece of work ended: it could not be started, the user interrupted it, the tailnet refused, or
      it exited. */
  datatype Ending = Broke | Interrupted | Refused | Exited(rc: int)

  /** One piece of work that was run, in which step, and whether to clean up. */
  datatype Ran = Ran(work: Work, step: nat, cleaning: bool, ending: Ending)

  function Answer(ending: Ending): Outcome {
    match ending
    case Broke => Raise(InternalError)
    case Interrupted => Raise(Aborted)
    case Refused => Raise(TailscaleError)
    case Exited(rc) => if rc == 0 then Fine else Raise(StepFailed)
  }

  /** Nothing that fails a run: a clean exit, or a comparison that refused. */
  predicate Clean(r: Ran) {
    r.ending == Exited(0) || (r.work.CompareEngines? && r.ending.Exited?)
  }

  ghost predicate AllClean(ran: seq<Ran>) {
    forall i | 0 <= i < |ran| :: Clean(ran[i]) && !ran[i].cleaning
  }

  function WorkOf(e: Engine, stage: Stage): Work {
    match stage
    case Plan => TerraformPlan(e)
    case Apply => TerraformApply(e)
    case Wait => AwaitVms(e)
    case Measure => RunExperiment(e)
    case Logout => LogoutVms
    case Destroy => TerraformDestroy(e)
    case Purge => PurgeDevices
  }

  function Success(work: Work, step: nat): Ran {
    Ran(work, step, false, Exited(0))
  }

  function StageRan(engines: seq<Engine>, j: nat, stage: Stage): Ran
    requires j < |engines|
  {
    Success(WorkOf(engines[j], stage), Position(j, stage))
  }

  function EngineRan(engines: seq<Engine>, j: nat): seq<Ran>
    requires j < |engines|
  {
    [StageRan(engines, j, Plan), StageRan(engines, j, Apply), StageRan(engines, j, Wait), StageRan(engines, j, Measure),
     StageRan(engines, j, Logout), StageRan(engines, j, Destroy), StageRan(engines, j, Purge)]
  }

  /** The work of the first n engines, each step's once and in order. */
  function EnginesRan(engines: seq<Engine>, n: nat): seq<Ran>
    requires n <= |engines|
  {
    if n == 0 then [] else EnginesRan(engines, n - 1) + EngineRan(engines, n - 1)
  }

  function PreflightRan(initialised: bool): seq<Ran> {
    [Success(TailscaleStatus, 0)] + (if initialised then [] else [Success(TerraformInit, 0)]) + [Success(PurgeDevices, 0)]
  }

  /** The last step: the charts, and the comparison if it was attempted, with whatever status. */
  function InsightsRan(step: nat, compared: Option<int>): seq<Ran> {
    [Success(DrawInsights, step)]
    + if compared.Some? then [Ran(CompareEngines, step, false, Exited(compared.value))] else []
  }

  const BOTH: set<Engine> := {"cockroachdb", "postgresql"}

  /** All that a run without failures runs; engines are compared only when both were to be measured. */
  ghost predicate Scripted(engines: seq<Engine>, ran: seq<Ran>) {
    exists initialised, compared ::
      && ran == PreflightRan(initialised) + EnginesRan(engines, |engines|) + InsightsRan(7 * |engines| + 1, compared)
      && MayCompare(engines, compared)
  }

  lemma PreflightRanIs(initialised: bool, first: seq<Ran>, second: seq<Ran>, ran: seq<Ran>)
    requires first == [] + [Success(TailscaleStatus, 0)] && ran == second + [Success(PurgeDevices, 0)]
    requires second == if initialised then first else first + [Success(TerraformInit, 0)]
    ensures ran == PreflightRan(initialised)
  {
    hide Success;
  }

  /** What the last step adds; engines are compared only when both were to be measured. */
  ghost predicate InsightsDone(engines: seq<Engine>, before: seq<Ran>, after: seq<Ran>) {
    exists compared :: after == before + InsightsRan(7 * |engines| + 1, compared) && MayCompare(engines, compared)
  }

  ghost predicate MayCompare(engines: seq<Engine>, compared: Option<int>) {
    compared.Some? ==> forall e | e in BOTH :: e in engines
  }

  lemma InsightsRanIs(engines: seq<Engine>, before: seq<Ran>, step: nat, compared: Option<int>, ran: seq<Ran>)
    requires step == 7 * |engines| + 1 && (compared.Some? ==> forall e | e in BOTH :: e in engines)
    requires var drawn := before + [Success(DrawInsights, step)];
      ran == if compared.Some? then drawn + [Ran(CompareEngines, step, false, Exited(compared.value))] else drawn
    ensures InsightsDone(engines, before, ran)
  {
    assert ran == before + InsightsRan(7 * |engines| + 1, compared);
    assert MayCompare(engines, compared);
  }

  lemma EnginesRanNext(before: seq<Ran>, engines: seq<Engine>, j: nat)
    requires j < |engines|
    ensures before + EnginesRan(engines, j) + EngineRan(engines, j) == before + EnginesRan(engines, j + 1)
  {
    hide EngineRan;
  }

  lemma NoEngines(before: seq<Ran>, engines: seq<Engine>)
    ensures before + EnginesRan(engines, 0) == before
  {
  }

  lemma EngineRanIs(engines: seq<Engine>, j: nat, before: seq<Ran>)
    requires j < |engines|
    ensures before + EngineRan(engines, j) ==
            before + [StageRan(engines, j, Plan)] + [StageRan(engines, j, Apply)] + [StageRan(engines, j, Wait)]
            + [StageRan(engines, j, Measure)] + [StageRan(engines, j, Logout)] + [StageRan(engines, j, Destroy)]
            + [StageRan(engines, j, Purge)]
  {
    hide StageRan, AllClean;
  }

  /** Each stage's step follows that of the stage before it. */
  lemma PositionsFollow(j: nat)
    ensures Position(j, Plan) + 1 == Position(j, Apply) && Position(j, Apply) + 1 == Position(j, Wait)
    ensures Position(j, Wait) + 1 == Position(j, Measure) && Position(j, Measure) + 1 == Position(j, Logout)
    ensures Position(j, Logout) + 1 == Position(j, Destroy) && Position(j, Destroy) + 1 == Position(j, Purge)
    ensures Position(j, Purge) + 1 == Position(j + 1, Plan)
  {
  }

  function CleanupRan(e: Engine, step: nat): seq<Ran> {
    [Ran(LogoutVms, step, true, Exited(0)), Ran(TerraformDestroy(e), step, true, Exited(0)), Ran(PurgeDevices, step, true, Exited(0))]
  }

  /** The last work run was a logout, a destroy and a purge, to clean up, and all of it succeeded. */
  ghost predicate CleanedUp(ran: seq<Ran>) {
    exists n, e, step :: 0 <= n <= |ran| && ran[n..] == CleanupRan(e, step)
  }

  lemma CleansUp(before: seq<Ran>, after: seq<Ran>, e: Engine, step: nat)
    requires after == before + CleanupRan(e, step)
    ensures CleanedUp(after)
  {
    hide CleanupRan;
    assert after[|before|..] == CleanupRan(e, step);
  }

  /** What one piece of work adds to the record, and how its caller learns of it. An abort noticed
      beforehand leaves nothing. */
  ghost predicate Reported(o: Outcome, work: Work, step: nat, cleaning: bool, before: seq<Ran>, after: seq<Ran>) {
    if |after| == |before| then after == before && o == Raise(Aborted) && !cleaning
    else
      && |after| == |before| + 1 && after[..|before|] == before
      && var last := after[|before|];
         last.work == work && last.step == step && last.cleaning == cleaning && o == Answer(last.ending)
  }

  lemma ReportedFine(o: Outcome, work: Work, step: nat, cleaning: bool, before: seq<Ran>, after: seq<Ran>)
    requires Reported(o, work, step, cleaning, before, after) && o.Fine?
    ensures after == before + [Ran(work, step, cleaning, Exited(0))]
  {
  }

  lemma ScriptedBy(engines: seq<Engine>, initialised: bool, before: seq<Ran>, ran: seq<Ran>)
    requires before == PreflightRan(initialised) + EnginesRan(engines, |engines|) && InsightsDone(engines, before, ran)
    ensures Scripted(engines, ran)
  {
    hide PreflightRan, EnginesRan, InsightsRan, MayCompare;
  }

  lemma EnginePositions(n: nat)
    ensures Position(0, Plan) == 1 && Position(n, Plan) == 7 * n + 1
  {
  }

  class Runner {
    const engines: seq<Engine>
    const s: State
    var deployed: Option<Engine>
    var benched: set<Engine>
    ghost var vms: set<Engine>
    ghost var ran: seq<Ran>
    ghost var chosen: Option<Choice>
    ghost var trail: seq<Snapshot>

    constructor (engines: seq<Engine>, s: State)
      requires Distinct(engines)
      requires |s.steps| == |Keys(engines)| && forall i | 0 <= i < |s.steps| :: s.steps[i] == Step(Keys(engines)[i], Pending)
      ensures this.engines == engines && this.s == s && At(0, Pending) && deployed.None? && trail == [Now()] && ran == [] && chosen == None
    {
      this.engines, this.s := engines, s;
      deployed, benched, vms, ran, chosen := None, {}, {}, [], None;
      trail := [Snapshot(s.steps, None, {})];
      new;
      assert Orderly(engines, Now(), 0, Pending);
    }

    ghost function Now(): Snapshot
      reads this, s`steps
    {
      Snapshot(s.steps, deployed, vms)
    }

    /** Nothing unsafe is in the trail, and the trail skips nothing. */
    ghost predicate Recorded()
      reads this`trail, this`benched
    {
      && Distinct(engines)
      && (forall e | e in benched :: e in engines)
      && trail != [] && Unbroken(trail)
      && forall i | 0 <= i < |trail| :: Safe(engines, trail[i])
    }

    /** The pipeline stands before step k, which reads `at`; the trail leads here, recorded change by
        change, and nothing unsafe was ever observable. */
    ghost predicate At(k: nat, at: Status)
      reads this, s`steps
    {
      && Recorded()
      && Orderly(engines, Now(), k, at)
      && trail[|trail| - 1] == Now()
    }

    /** Some step is next, nothing unsafe was ever observable, and no step was left half-marked. */
    ghost predicate Stopped()
      reads this, s`steps
    {
      exists k: nat, at | at == Pending || at == Active :: At(k, at)
    }

    lemma AtKeepsShape(k: nat, at: Status)
      requires At(k, at)
      ensures |s.steps| == |Keys(engines)| && Distinct(engines)
    {
    }

    lemma StopsAt(k: nat, at: Status)
      requires At(k, at) && (at == Pending || at == Active)
      ensures Stopped()
    {
    }

    /** Only the last piece of work may have failed; then the outcome is its answer, and its step is active. */
    ghost predicate Told(o: Outcome)
      reads this`ran, s`steps
    {
      forall i | 0 <= i < |ran| ::
        && !ran[i].cleaning
        && (!Clean(ran[i]) ==>
              && i == |ran| - 1 && o == Answer(ran[i].ending)
              && ran[i].step < |s.steps| && s.steps[ran[i].step].status == Active)
    }

    lemma CleanTells(o: Outcome)
      requires AllClean(ran)
      ensures Told(o)
    {
      hide Clean;
    }

    lemma LastTells(o: Outcome, work: Work, k: nat, before: seq<Ran>)
      requires AllClean(before) && Reported(o, work, k, false, before, ran) && At(k, Active) && k < |s.steps|
      ensures Told(o)
      ensures o.Fine? ==> ran == before + [Success(work, k)] && AllClean(ran)
    {
      if o.Fine? {
        ReportedFine(o, work, k, false, before, ran);
      }
      assert forall i | 0 <= i < |before| :: ran[i] == ran[..|before|][i];
    }

    /** Records the change just made, which must be the only one since the last record. */
    ghost method Observe(k: nat, at: Status)
      requires Recorded() && Orderly(engines, Now(), k, at) && OneChange(trail[|trail| - 1], Now())
      modifies this`trail
      ensures At(k, at) && trail == old(trail) + [Now()]
    {
      hide Orderly, OneChange;
      assert Safe(engines, Now());
      trail := trail + [Now()];
    }

    method CheckAbort() returns (o: Outcome)
      modifies s`abort
      ensures old(s.abort) ==> s.abort
      ensures o.Raise? ==> o.exception == Aborted && s.abort && !s.cleaning
    {
      s.Interrupt();
      if s.abort && !s.cleaning {
        return Raise(Aborted);
      }
      return Fine;
    }

    /** What a command did to the machines, clean exit or not: an apply may have brought its engine's up,
        and a destroy may have taken them down, for certain after a clean exit. */
    ghost method Effect(work: Work, clean: bool, complete: bool, k: nat, at: Status)
      requires At(k, at)
      requires work.TerraformApply? ==> deployed == Some(work.e)
      modifies this`vms, this`trail
      ensures At(k, at) && trail == old(trail) + [Now()]
      ensures !work.TerraformApply? ==> vms <= old(vms)
      ensures clean && work.TerraformDestroy? ==> work.e !in vms
    {
      hide Orderly, OneChange, Recorded;
      match work {
        case TerraformApply(e) => vms := if complete then vms + {e} else vms;
        case TerraformDestroy(e) => vms := if clean || complete then vms - {e} else vms;
        case _ =>
      }
      VmsChange(old(Now()), Now(), k, at);
      Observe(k, at);
    }

    lemma VmsChange(before: Snapshot, after: Snapshot, k: nat, at: Status)
      requires Orderly(engines, before, k, at) && after == before.(vms := after.vms)
      requires forall e | e in after.vms :: e in before.vms || before.deployed == Some(e)
      ensures Orderly(engines, after, k, at) && OneChange(before, after)
    {
    }

    /** The world's part in a command: it cannot be started, or it exits with some status, having done
        what it did to the machines, and the user may have interrupted it meanwhile. */
    method Spawn(work: Work, ghost k: nat, ghost at: Status) returns (started: bool, rc: int)
      requires At(k, at)
      requires work.TerraformApply? ==> deployed == Some(work.e)
      modifies s`abort, this`vms, this`trail, this`ran
      ensures At(k, at) && (old(s.abort) ==> s.abort)
      ensures trail == old(trail) || trail == old(trail) + [Now()]
      ensures !work.TerraformApply? ==> vms <= old(vms)
      ensures started && rc == 0 && work.TerraformDestroy? ==> work.e !in vms
      ensures var interrupted := s.abort && !s.cleaning;
        ran == old(ran) + [Ran(work, k, s.cleaning, if !started then Broke else if interrupted then Interrupted else Exited(rc))]
    {
      hide At;
      started, rc := *, *;
      if started {
        ghost var complete: bool := *;
        Effect(work, rc == 0, complete, k, at);
        s.Interrupt();
      }
      ghost var interrupted := s.abort && !s.cleaning;
      Note(Ran(work, k, s.cleaning, if !started then Broke else if interrupted then Interrupted else Exited(rc)), k, at);
    }

    ghost method Note(r: Ran, k: nat, at: Status)
      requires At(k, at)
      modifies this`ran
      ensures At(k, at) && ran == old(ran) + [r]
    {
      ran := ran + [r];
    }

    /** Runs one command. Whatever its exit status, `apply` may have created the engine's VMs and
        `destroy` may have removed some; only a clean exit of `destroy` says that they are gone. It returns
        normally exactly when the command exits with status 0 and no abort is noticed; any other status
        raises StepFailed. */
    method Cmd(work: Work, ghost k: nat, ghost at: Status) returns (o: Outcome)
      requires At(k, at)
      requires work.TerraformApply? ==> deployed == Some(work.e)
      modifies s`abort, this`vms, this`trail, this`ran
      ensures At(k, at) && (at == Active ==> Stopped()) && (old(s.abort) ==> s.abort)
      ensures trail == old(trail) || trail == old(trail) + [Now()]
      ensures !work.TerraformApply? ==> vms <= old(vms)
      ensures o.Fine? && work.TerraformDestroy? ==> work.e !in vms
      ensures o == Raise(Aborted) ==> s.abort && !s.cleaning
      ensures o.Raise? ==> o.exception != TailscaleError
      ensures Reported(o, work, k, s.cleaning, old(ran), ran)
    {
      hide At, Stopped;
      if at == Active {
        StopsAt(k, at);
      }
      :- CheckAbort();
      var started, rc := Spawn(work, k, at);
      if at == Active {
        StopsAt(k, at);
      }
      if !started {
        return Raise(InternalError);
      }
      if s.abort && !s.cleaning {
        return Raise(Aborted);
      }
      if rc != 0 {
        return Raise(StepFailed);
      }
      return Fine;
    }

    /** A call to Tailscale, which raises its own exception. */
    method TailnetCall(work: Work, ghost k: nat, ghost at: Status) returns (o: Outcome)
      requires At(k, at)
      modifies this`ran
      ensures At(k, at) && (at == Active ==> Stopped())
      ensures o.Raise? ==> o.exception == TailscaleError || o.exception == InternalError
      ensures Reported(o, work, k, s.cleaning, old(ran), ran)
    {
      hide At, Stopped;
      o := *;
      if o.Raise? && o.exception != TailscaleError {
        o := Raise(InternalError);
      }
      Note(Ran(work, k, s.cleaning, if o.Raise? then (if o.exception == TailscaleError then Refused else Broke) else Exited(0)), k, at);
      if at == Active {
        StopsAt(k, at);
      }
    }

    /** Waits until every VM answers, or names those that never did. */
    method WaitForVms(e: Engine, ghost k: nat, ghost at: Status) returns (o: Outcome)
      requires At(k, at)
      modifies s`abort, this`ran
      ensures At(k, at) && (at == Active ==> Stopped()) && (old(s.abort) ==> s.abort)
      ensures o == Raise(Aborted) ==> s.abort && !s.cleaning
      ensures o.Raise? ==> o.exception != TailscaleError
      ensures Reported(o, AwaitVms(e), k, s.cleaning, old(ran), ran)
    {
      hide At, Stopped;
      var answered: bool, problems: nat := *, *;
      s.Interrupt();
      ghost var interrupted := s.abort && !s.cleaning;
      Note(Ran(AwaitVms(e), k, s.cleaning, if !answered then Broke else if interrupted then Interrupted else Exited(problems)), k, at);
      if at == Active {
        StopsAt(k, at);
      }
      if !answered {
        return Raise(InternalError);
      }
      if s.abort && !s.cleaning {
        return Raise(Aborted);
      }
      return if problems > 0 then Raise(StepFailed) else Fine;
    }

    method Begin(key: Key, ghost k: nat) returns (o: Outcome, step: nat)
      requires At(k, Pending) && k < |s.steps| && FirstIndex(Keys(engines), key) == k
      modifies s`abort, s`steps, this`trail
      ensures old(s.abort) ==> s.abort
      ensures o.Fine? ==> At(k, Active) && step == k
      ensures o.Raise? ==> Stopped()
      ensures o == Raise(Aborted) ==> s.abort
      ensures |s.steps| == old(|s.steps|)
      ensures trail == old(trail) + [Now()] || (o.Raise? && trail == old(trail) && s.steps == old(s.steps))
    {
      hide Orderly, OneChange, FirstIndex, Keys, Stopped;
      step := 0;
      StopsAt(k, Pending);
      :- CheckAbort();
      step := FirstIndex(Keys(engines), key);
      s.steps := s.steps[step := s.steps[step].(status := Active)];
      StatusChange(old(Now()), Now(), k, Pending, Active);
      StepIsOneChange(old(Now()), Now(), step);
      Observe(k, Active);
      StopsAt(k, Active);
      var forced: bool := *;
      if forced {
        return Raise(StepFailed), step;
      }
      return Fine, step;
    }

    lemma StepIsOneChange(before: Snapshot, after: Snapshot, i: nat)
      requires i < |before.steps| == |after.steps|
      requires after == before.(steps := before.steps[i := after.steps[i]])
      ensures OneChange(before, after)
    {
    }

    lemma StatusChange(before: Snapshot, after: Snapshot, k: nat, was: Status, is_: Status)
      requires Orderly(engines, before, k, was) && k < |before.steps| && is_ != Done && is_ != Pending
      requires after == before.(steps := before.steps[k := before.steps[k].(status := is_)])
      ensures Orderly(engines, after, k, is_)
    {
    }

    lemma StepDone(before: Snapshot, after: Snapshot, k: nat)
      requires Orderly(engines, before, k, Active) && k < |before.steps|
      requires before.deployed.Some? ==> MayBeDeployed(engines, before.deployed.value, k + 1, Pending)
      requires after == before.(steps := before.steps[k := before.steps[k].(status := Done)])
      ensures Orderly(engines, after, k + 1, Pending)
    {
      hide MayBeDeployed, Keys;
    }

    method End(step: nat, ghost k: nat)
      requires At(k, Active) && step == k < |s.steps|
      requires deployed.Some? ==> MayBeDeployed(engines, deployed.value, k + 1, Pending)
      modifies s`steps, this`trail
      ensures At(k + 1, Pending) && trail == old(trail) + [Now()] && |s.steps| == old(|s.steps|)
    {
      AtKeepsShape(k, Active);
      hide Orderly, OneChange, MayBeDeployed, Recorded, Keys;
      s.steps := s.steps[step := s.steps[step].(status := Done)];
      StepDone(old(Now()), Now(), k);
      StepIsOneChange(old(Now()), Now(), step);
      Observe(k + 1, Pending);
    }

    method DestroyVms(e: Engine, ghost k: nat, ghost at: Status) returns (o: Outcome)
      requires At(k, at) && deployed == Some(e)
      modifies s`abort, this
      ensures chosen == old(chosen)
      ensures At(k, at) && (old(s.abort) ==> s.abort) && old(trail) <= trail
      ensures |trail| <= |old(trail)| + 2
      ensures if o.Fine? then deployed == None && vms == {} else deployed == old(deployed)
      ensures o == Raise(Aborted) ==> s.abort && !s.cleaning
      ensures o.Raise? ==> o.exception != TailscaleError
      ensures Reported(o, TerraformDestroy(e), k, s.cleaning, old(ran), ran)
    {
      hide At, Stopped;
      hide Reported;
      o := Cmd(TerraformDestroy(e), k, at);
      if o.Raise? {
        return;
      }
      VmsAreDeployed(k, at);
      assert vms == {};
      Forget(k, at);
      return Fine;
    }

    /** With the machines gone the deployment is forgotten. */
    method Forget(ghost k: nat, ghost at: Status)
      requires At(k, at) && vms == {}
      modifies this`deployed, this`trail
      ensures At(k, at) && deployed.None? && trail == old(trail) + [Now()]
    {
      deployed := None;
      Observe(k, at);
    }

    method PurgeTailnet(ghost k: nat, ghost at: Status) returns (o: Outcome)
      requires At(k, at)
      modifies s`abort, this`ran
      ensures At(k, at) && (at == Active ==> Stopped()) && (old(s.abort) ==> s.abort)
      ensures o.Raise? ==> o.exception != StepFailed
      ensures o == Raise(Aborted) ==> s.abort && !s.cleaning
      ensures Reported(o, PurgeDevices, k, s.cleaning, old(ran), ran)
    {
      hide At, Stopped;
      o := CheckAbort();
      if o.Fine? {
        o := TailnetCall(PurgeDevices, k, at);
      } else if at == Active {
        StopsAt(k, at);
      }
    }

    /** The first and the last step of the pipeline. */
    method BeginEnd(key: Key, ghost k: nat) returns (o: Outcome, step: nat)
      requires At(k, Pending) && ((key == Preflight && k == 0) || (key == Insights && k == 7 * |engines| + 1))
      modifies s`abort, s`steps, this`trail
      ensures (old(s.abort) ==> s.abort) && old(trail) <= trail
      ensures if o.Fine? then At(step, Active) && step == k < |s.steps| else Stopped()
      ensures o.Fine? && key == Insights ==> step + 1 == |s.steps|
      ensures o == Raise(Aborted) ==> s.abort
    {
      AtKeepsShape(k, Pending);
      LookupEnds(engines);
      hide *;
      o, step := Begin(key, k);
    }

    method DoPreflight() returns (o: Outcome)
      requires At(0, Pending) && deployed.None? && ran == [] && !s.cleaning
      modifies s`abort, s`steps, this
      ensures chosen == old(chosen)
      ensures (old(s.abort) ==> s.abort) && old(trail) <= trail && deployed.None?
      ensures if o.Fine? then At(1, Pending) else Stopped()
      ensures o == Raise(Aborted) ==> s.abort
      ensures Told(o) && (o.Fine? ==> exists initialised :: ran == PreflightRan(initialised))
      ensures o.Fine? ==> AllClean(ran)
    {
      hide *;
      NothingRan();
      CleanTells(Raise(StepFailed));
      CleanTells(Raise(Aborted));
      var step;
      o, step := BeginEnd(Preflight, 0);
      CleanTells(o);
      if o.Raise? {
        return;
      }
      StopsAt(0, Active);
      var toolsMissing: bool, initialised: bool := *, *;
      CleanTells(Raise(StepFailed));
      if toolsMissing {
        return Raise(StepFailed);
      }
      o := Cmd(TailscaleStatus, 0, Active);
      LastTells(o, TailscaleStatus, 0, []);
      if o.Raise? {
        return;
      }
      ghost var first := ran;
      if !initialised {
        o := Cmd(TerraformInit, 0, Active);
        LastTells(o, TerraformInit, 0, first);
        if o.Raise? {
          return;
        }
      }
      ghost var second := ran;
      o := PurgeTailnet(0, Active);
      LastTells(o, PurgeDevices, 0, second);
      if o.Raise? {
        return;
      }
      PreflightRanIs(initialised, first, second, ran);
      End(step, 0);
      CleanTells(o);
    }

    lemma NothingRan()
      requires ran == []
      ensures AllClean(ran) && AllClean([])
    {
    }

    method BeginStage(j: nat, stage: Stage) returns (o: Outcome, step: nat)
      requires j < |engines| && At(Position(j, stage), Pending)
      modifies s`abort, s`steps, this`trail
      ensures (old(s.abort) ==> s.abort) && old(trail) <= trail
      ensures if o.Fine? then At(step, Active) && step == Position(j, stage) < |s.steps| else Stopped()
      ensures o == Raise(Aborted) ==> s.abort
    {
      AtKeepsShape(Position(j, stage), Pending);
      LookupFinds(engines, j, stage);
      KeyAt(engines, j, stage);
      hide *;
      o, step := Begin(Of(engines[j], stage), Position(j, stage));
    }

    /** The work of one step of an engine other than its apply and its destroy. */
    method StageWork(j: nat, stage: Stage, ghost k: nat) returns (o: Outcome)
      requires j < |engines| && stage != Apply && stage != Destroy && At(k, Active)
      modifies s`abort, this`vms, this`trail, this`ran, this`benched
      ensures At(k, Active) && Stopped() && (old(s.abort) ==> s.abort) && old(trail) <= trail
      ensures o == Raise(Aborted) ==> s.abort
      ensures Reported(o, WorkOf(engines[j], stage), k, s.cleaning, old(ran), ran)
    {
      hide At, Stopped, Reported;
      match stage {
        case Plan => o := Cmd(TerraformPlan(engines[j]), k, Active);
        case Wait => o := WaitForVms(engines[j], k, Active);
        case Measure =>
          o := Cmd(RunExperiment(engines[j]), k, Active);
          var newRun: bool := *;
          if o.Fine? && newRun {
            Bench(j, k);
          }
          StopsAt(k, Active);
        case Logout => o := TailnetCall(LogoutVms, k, Active);
        case Purge => o := PurgeTailnet(k, Active);
        case _ => assert false;
      }
    }

    /** The engine's benchmark left a run to compare. */
    method Bench(j: nat, ghost k: nat)
      requires j < |engines| && At(k, Active)
      modifies this`benched
      ensures At(k, Active)
    {
      benched := benched + {engines[j]};
    }

    /** One step of an engine that leaves the deployment as it was. */
    method HarmlessStep(j: nat, stage: Stage) returns (o: Outcome)
      requires j < |engines| && stage != Apply && stage != Destroy
      requires At(Position(j, stage), Pending) && AllClean(ran) && !s.cleaning
      requires if stage == Plan || stage == Purge then deployed.None? else deployed == Some(engines[j])
      modifies s`abort, s`steps, this`vms, this`trail, this`ran, this`benched
      ensures (old(s.abort) ==> s.abort) && old(trail) <= trail
      ensures if o.Fine? then At(Position(j, stage) + 1, Pending) else Stopped()
      ensures o == Raise(Aborted) ==> s.abort
      ensures Told(o) && (o.Fine? ==> AllClean(ran) && ran == old(ran) + [StageRan(engines, j, stage)])
    {
      hide At, Stopped, MayBeDeployed, Told, AllClean, Reported, WorkOf;
      var step;
      o, step := BeginStage(j, stage);
      CleanTells(o);
      if o.Raise? {
        return;
      }
      o := StageWork(j, stage, step);
      LastTells(o, WorkOf(engines[j], stage), step, old(ran));
      if o.Raise? {
        return;
      }
      StaysDeployed(j, step + 1);
      End(step, step);
      CleanTells(o);
    }

    lemma StaysDeployed(j: nat, k: nat)
      requires j < |engines|
      ensures Position(j, Apply) < k <= Position(j, Destroy) ==> MayBeDeployed(engines, engines[j], k, Pending)
    {
    }

    method ApplyStep(j: nat) returns (o: Outcome)
      requires j < |engines| && At(Position(j, Apply), Pending) && deployed.None? && AllClean(ran) && !s.cleaning
      modifies s`abort, s`steps, this
      ensures chosen == old(chosen)
      ensures (old(s.abort) ==> s.abort) && old(trail) <= trail
      ensures if o.Fine? then At(Position(j, Wait), Pending) && deployed == Some(engines[j]) else Stopped()
      ensures o == Raise(Aborted) ==> s.abort
      ensures Told(o) && (o.Fine? ==> AllClean(ran) && ran == old(ran) + [StageRan(engines, j, Apply)])
    {
      hide At, Stopped, MayBeDeployed, Told, AllClean, Reported;
      var step;
      o, step := BeginStage(j, Apply);
      CleanTells(o);
      if o.Raise? {
        return;
      }
      Deploy(j, step);
      o := Cmd(TerraformApply(engines[j]), step, Active);
      LastTells(o, TerraformApply(engines[j]), step, old(ran));
      if o.Raise? {
        return;
      }
      StaysDeployed(j, step + 1);
      End(step, step);
      CleanTells(o);
    }

    /** From here on a failure may leave VMs behind. */
    method Deploy(j: nat, ghost k: nat)
      requires j < |engines| && k == Position(j, Apply) && At(k, Active) && deployed.None?
      modifies this`deployed, this`trail
      ensures At(k, Active) && deployed == Some(engines[j]) && trail == old(trail) + [Now()]
    {
      deployed := Some(engines[j]);
      assert MayBeDeployed(engines, engines[j], k, Active);
      Observe(k, Active);
    }

    method DestroyStep(j: nat) returns (o: Outcome)
      requires j < |engines| && At(Position(j, Destroy), Pending) && deployed == Some(engines[j]) && AllClean(ran) && !s.cleaning
      modifies s`abort, s`steps, this
      ensures chosen == old(chosen)
      ensures (old(s.abort) ==> s.abort) && old(trail) <= trail
      ensures if o.Fine? then At(Position(j, Purge), Pending) && deployed.None? else Stopped()
      ensures o == Raise(Aborted) ==> s.abort
      ensures Told(o) && (o.Fine? ==> AllClean(ran) && ran == old(ran) + [StageRan(engines, j, Destroy)])
    {
      hide At, Stopped, MayBeDeployed, Told, AllClean, Reported;
      var step;
      o, step := BeginStage(j, Destroy);
      CleanTells(o);
      if o.Raise? {
        return;
      }
      o := DestroyVms(engines[j], step, Active);
      StopsAt(step, Active);
      LastTells(o, TerraformDestroy(engines[j]), step, old(ran));
      if o.Raise? {
        return;
      }
      End(step, step);
      CleanTells(o);
    }

    method OneEngine(j: nat) returns (o: Outcome)
      requires j < |engines| && At(Position(j, Plan), Pending) && deployed.None? && AllClean(ran) && !s.cleaning
      modifies s`abort, s`steps, this
      ensures chosen == old(chosen)
      ensures (old(s.abort) ==> s.abort) && old(trail) <= trail
      ensures if o.Fine? then At(Position(j + 1, Plan), Pending) && deployed.None? else Stopped()
      ensures o == Raise(Aborted) ==> s.abort
      ensures Told(o) && (o.Fine? ==> AllClean(ran) && ran == old(ran) + EngineRan(engines, j))
    {
      hide At, Stopped, Told, AllClean, StageRan, Position, EngineRan;
      PositionsFollow(j);
      :- HarmlessStep(j, Plan);
      :- ApplyStep(j);
      :- HarmlessStep(j, Wait);
      :- HarmlessStep(j, Measure);
      :- Teardown(j);
      EngineRanIs(engines, j, old(ran));
      return Fine;
    }

    method Teardown(j: nat) returns (o: Outcome)
      requires j < |engines| && At(Position(j, Logout), Pending) && deployed == Some(engines[j]) && AllClean(ran) && !s.cleaning
      modifies s`abort, s`steps, this
      ensures chosen == old(chosen)
      ensures (old(s.abort) ==> s.abort) && old(trail) <= trail
      ensures if o.Fine? then At(Position(j + 1, Plan), Pending) && deployed.None? else Stopped()
      ensures o == Raise(Aborted) ==> s.abort
      ensures Told(o)
      ensures o.Fine? ==> AllClean(ran) && ran == old(ran) + [StageRan(engines, j, Logout)]
                                                  + [StageRan(engines, j, Destroy)] + [StageRan(engines, j, Purge)]
    {
      hide At, Stopped, Told, AllClean, StageRan, Position;
      PositionsFollow(j);
      :- HarmlessStep(j, Logout);
      :- DestroyStep(j);
      :- HarmlessStep(j, Purge);
      return Fine;
    }

    method DoInsights() returns (o: Outcome)
      requires At(7 * |engines| + 1, Pending) && deployed.None? && AllClean(ran) && !s.cleaning
      modifies s`abort, s`steps, this
      ensures chosen == old(chosen)
      ensures (old(s.abort) ==> s.abort) && old(trail) <= trail
      ensures if o.Fine? then At(|s.steps|, Pending) && deployed.None? else Stopped()
      ensures o == Raise(Aborted) ==> s.abort
      ensures Told(o)
      ensures o.Fine? ==> AllClean(ran) && InsightsDone(engines, old(ran), ran)
    {
      hide *;
      var step;
      o, step := BeginEnd(Insights, 7 * |engines| + 1);
      CleanTells(o);
      if o.Raise? {
        return;
      }
      o := Cmd(DrawInsights, step, Active);
      LastTells(o, DrawInsights, step, old(ran));
      if o.Raise? {
        return;
      }
      ghost var drawn := ran;
      ghost var compared: Option<int> := None;
      if BOTH <= benched {
        BenchedAreEngines(step, Active);
        o, compared := Compare(step);
        if o.Raise? {
          return;
        }
      }
      InsightsRanIs(engines, old(ran), step, compared, ran);
      End(step, step);
      CleanTells(Fine);
      return Fine;
    }

    /** Compares the engines. A comparison that refuses is reported, not fatal. */
    method Compare(ghost k: nat) returns (o: Outcome, ghost compared: Option<int>)
      requires At(k, Active) && k < |s.steps| && AllClean(ran) && !s.cleaning
      modifies s`abort, this`vms, this`trail, this`ran
      ensures At(k, Active) && Stopped() && (old(s.abort) ==> s.abort) && old(trail) <= trail
      ensures vms <= old(vms) && (o == Raise(Aborted) ==> s.abort) && Told(o)
      ensures o.Fine? ==> compared.Some? && AllClean(ran) && ran == old(ran) + [Ran(CompareEngines, k, false, Exited(compared.value))]
    {
      hide At, Stopped, Told, AllClean, Reported;
      o := Cmd(CompareEngines, k, Active);
      compared := ComparedAs(o, k, old(ran));
      if o == Raise(StepFailed) {
        o := Fine;
        CleanTells(o);
      }
    }

    lemma BenchedAreEngines(k: nat, at: Status)
      requires At(k, at)
      ensures forall e | e in benched :: e in engines
    {
    }

    lemma ComparedAs(o: Outcome, k: nat, before: seq<Ran>) returns (compared: Option<int>)
      requires AllClean(before) && Reported(o, CompareEngines, k, false, before, ran) && At(k, Active) && k < |s.steps|
      ensures Told(o)
      ensures o.Fine? || o == Raise(StepFailed) ==>
        compared.Some? && AllClean(ran) && ran == before + [Ran(CompareEngines, k, false, Exited(compared.value))]
    {
      assert forall i | 0 <= i < |before| && |ran| > |before| :: ran[i] == ran[..|before|][i];
      compared := None;
      if |ran| > |before| && ran[|before|].ending.Exited? {
        compared := Some(ran[|before|].ending.rc);
        assert ran == before + [ran[|before|]];
      }
    }

    method Steps() returns (o: Outcome)
      requires At(0, Pending) && deployed.None? && ran == [] && !s.cleaning
      modifies s`abort, s`steps, this
      ensures chosen == old(chosen)
      ensures (old(s.abort) ==> s.abort) && old(trail) <= trail
      ensures if o.Fine? then At(|s.steps|, Pending) && deployed.None? else Stopped()
      ensures o == Raise(Aborted) ==> s.abort
      ensures Told(o) && (o.Fine? ==> AllClean(ran) && Scripted(engines, ran))
    {
      hide At, Stopped, Told, AllClean, PreflightRan, EnginesRan, EngineRan, InsightsDone, Scripted, Position;
      EnginePositions(|engines|);
      :- DoPreflight();
      ghost var initialised :| ran == PreflightRan(initialised);
      ghost var before := ran;
      var j := 0;
      NoEngines(before, engines);
      while j < |engines|
        invariant 0 <= j <= |engines| && At(Position(j, Plan), Pending) && deployed.None?
        invariant (old(s.abort) ==> s.abort) && old(trail) <= trail && chosen == old(chosen)
        invariant AllClean(ran) && ran == before + EnginesRan(engines, j)
      {
        EnginesRanNext(before, engines, j);
        :- OneEngine(j);
        j := j + 1;
      }
      before := ran;
      o := DoInsights();
      if o.Fine? {
        ScriptedBy(engines, initialised, before, ran);
      }
    }

    // ----- Failure -----

    /** What was run since then was run to clean up. */
    ghost predicate CleansAfter(before: seq<Ran>)
      reads this`ran
    {
      before <= ran && forall i | |before| <= i < |ran| :: ran[i].cleaning
    }

    /** Every piece of work that failed outside cleanup is answered for: its step reads failed, and the
        error is its exception, or StepFailed for an unforeseen one. */
    ghost predicate Blamed(error: Option<Exception>)
      reads this`ran, s`steps
    {
      forall i | 0 <= i < |ran| && !ran[i].cleaning && !Clean(ran[i]) ::
        && ran[i].step < |s.steps| && s.steps[ran[i].step].status == Failed
        && error == Some(if ran[i].ending.Broke? then StepFailed else Answer(ran[i].ending).exception)
    }

    /** Logout, destroy, purge, none of which an abort can interrupt. */
    method CleanupCommands(e: Engine, ghost k: nat, ghost at: Status) returns (o: Outcome)
      requires At(k, at) && deployed == Some(e) && s.cleaning
      modifies s`abort, this
      ensures chosen == old(chosen)
      ensures (old(s.abort) ==> s.abort)
      ensures CleansAfter(old(ran)) && (o.Fine? ==> ran == old(ran) + CleanupRan(e, k))
      ensures ran != old(ran)
      ensures At(k, at) && old(trail) <= trail && (deployed == Some(e) || (deployed.None? && vms == {}))
      ensures o.Fine? ==> deployed.None?
      ensures o.Raise? ==> o.exception != Aborted
    {
      hide At;
      :- TailnetCall(LogoutVms, k, at);
      :- DestroyVms(e, k, at);
      :- PurgeTailnet(k, at);
      return Fine;
    }

    method Cleanup(e: Engine, ghost k: nat, ghost at: Status) returns (o: Outcome)
      requires At(k, at) && deployed == Some(e)
      modifies s`abort, s`cleaning, s`result, this
      ensures (old(s.abort) ==> s.abort) && ran != old(ran) && chosen == old(chosen)
      ensures CleansAfter(old(ran)) && (s.result.cleaned && !old(s.result.cleaned) ==> CleanedUp(ran))
      ensures At(k, at) && old(trail) <= trail && !s.cleaning && s.result.error == old(s.result.error)
      ensures s.result.ok == old(s.result.ok)
      ensures o.Raise? ==> o.exception == InternalError
      ensures o.Fine? ==> if deployed.None? && s.result.cleaned then vms == {} else s.result.cleanupCmd == Some(e)
      ensures deployed == Some(e) || (deployed.None? && vms == {})
    {
      hide At;
      s.cleaning := true;
      o := CleanupCommands(e, k, at);
      s.cleaning := false;
      match o {
        case Fine =>
          CleansUp(old(ran), ran, e, k);
          s.result := s.result.(cleaned := true);
        case Raise(x) =>
          if x != InternalError {
            s.result := s.result.(cleanupCmd := Some(e));
            o := Fine;
          }
      }
    }

    method MarkFailed(ghost k: nat, ghost was: Status) returns (ghost at: Status)
      requires At(k, was) && (was == Pending || was == Active)
      modifies s`steps, this`trail
      ensures At(k, at) && at == (if was == Active && k < |s.steps| then Failed else was)
      ensures trail == (if at == Failed then old(trail) + [Now()] else old(trail))
      ensures |s.steps| == old(|s.steps|)
      ensures forall i | 0 <= i < |s.steps| && old(s.steps[i].status) == Active :: s.steps[i].status == Failed
    {
      at := was;
      var active := s.FirstActive(0);
      if active < |s.steps| {
        assert active == k;
        s.steps := s.steps[active := s.steps[active].(status := Failed)];
        at := Failed;
        StatusChange(old(Now()), Now(), k, was, at);
        StepIsOneChange(old(Now()), Now(), active);
        Observe(k, at);
      }
    }

    /** Marks the step that was running, and destroys the VMs or names the command that will. Asking which
        may itself raise; then the deployment is still recorded as it was. */
    method Fail(x: Exception, ghost k: nat, ghost was: Status) returns (o: Outcome)
      requires At(k, was) && (was == Pending || was == Active)
      requires !s.result.ok && chosen.None? && x != InternalError && (Told(Raise(x)) || (x == StepFailed && Told(Raise(InternalError))))
      modifies s, this
      ensures (old(s.abort) ==> s.abort)
      ensures Blamed(s.result.error)
      ensures CleansAfter(old(ran)) && (s.result.cleaned && !old(s.result.cleaned) ==> CleanedUp(ran))
      ensures chosen == Some(DestroyNow) <==> ran != old(ran)
      ensures s.result.error == Some(x) && !s.result.ok && s.finished == old(s.finished)
      ensures At(k, was) || At(k, Failed)
      ensures o.Raise? ==> o.exception == InternalError
      ensures o.Fine? && deployed.Some? ==> s.result.cleanupCmd == deployed
      ensures forall e | e in vms :: deployed == Some(e)
      ensures old(trail) <= trail
    {
      hide At;
      ghost var at := MarkFailed(k, was);
      s.result := s.result.(error := Some(x));
      VmsAreDeployed(k, at);
      match deployed {
        case None => return Fine;
        case Some(e) => o := Dispose(e, k, at);
      }
    }

    /** What to do with machines that may be left; the question may itself raise. */
    method Ask(ghost k: nat, ghost at: Status) returns (answer: Option<Choice>)
      requires At(k, at)
      modifies this`chosen
      ensures At(k, at) && chosen == answer
    {
      answer := *;
      chosen := answer;
    }

    /** Destroys the VMs, or leaves them up and names the command that will, as the user chooses. */
    method Dispose(e: Engine, ghost k: nat, ghost at: Status) returns (o: Outcome)
      requires At(k, at) && deployed == Some(e)
      modifies s`abort, s`cleaning, s`result, this
      ensures (old(s.abort) ==> s.abort) && At(k, at) && old(trail) <= trail
      ensures s.result.error == old(s.result.error) && s.result.ok == old(s.result.ok)
      ensures CleansAfter(old(ran)) && (s.result.cleaned && !old(s.result.cleaned) ==> CleanedUp(ran))
      ensures chosen == Some(DestroyNow) <==> ran != old(ran)
      ensures o.Raise? ==> o.exception == InternalError
      ensures o.Fine? && deployed.Some? ==> s.result.cleanupCmd == deployed
      ensures forall e | e in vms :: deployed == Some(e)
    {
      hide At, CleanedUp;
      VmsAreDeployed(k, at);
      var choice := Ask(k, at);
      if choice.None? {
        return Raise(InternalError);
      }
      if choice.value == DestroyNow {
        o := Cleanup(e, k, at);
        VmsAreDeployed(k, at);
      } else {
        s.result := s.result.(cleanupCmd := Some(e));
        o := Fine;
      }
    }

    lemma VmsAreDeployed(k: nat, at: Status)
      requires At(k, at)
      ensures forall e | e in vms :: deployed == Some(e)
    {
    }

    /** The whole pipeline. `escaped` is what leaves it: nothing, or an unforeseen exception raised while
        cleaning up. However its commands end and whenever the user interrupts, everything observable on
        the way was safe: the trail runs from the start to the end, one change at a time. It ends with every
        step done, the whole script run cleanly and nothing deployed, or with the failure recorded (against the
        step whose work failed, if that is why) and any deployment that may survive named in the cleanup
        command. */
    method Execute() returns (escaped: Outcome)
      requires At(0, Pending) && deployed.None? && trail == [Now()] && s.result == Result(false, None, false, None)
      requires ran == [] && !s.cleaning && chosen.None?
      modifies s, this
      ensures s.result.ok ==> AllClean(ran) && Scripted(engines, ran)
      ensures s.result.cleaned ==> CleanedUp(ran)
      ensures forall i, j | 0 <= i < j < |ran| && ran[i].cleaning :: ran[j].cleaning
      ensures chosen == Some(DestroyNow) <==> exists r :: r in ran && r.cleaning
      ensures Blamed(s.result.error)
      ensures s.finished && (escaped.Raise? ==> escaped.exception == InternalError)
      ensures trail != [] && trail[0] == old(Now()) && trail[|trail| - 1] == Now() && Unbroken(trail)
      ensures forall i | 0 <= i < |trail| :: Safe(engines, trail[i])
      ensures s.result.ok <==> s.result.error.None?
      ensures s.result.ok ==> deployed.None? && vms == {} && forall i | 0 <= i < |s.steps| :: s.steps[i].status == Done
      ensures s.result.error == Some(Aborted) ==> s.abort
      ensures forall e | e in vms :: deployed == Some(e)
      ensures !s.result.ok && escaped.Fine? && vms != {} ==> s.result.cleanupCmd.Some? && vms == {s.result.cleanupCmd.value}
    {
      hide At, Stopped, Orderly, OneChange, Told, Blamed, CleansAfter, CleanedUp, AllClean, Scripted;
      var o := Steps();
      ghost var before := ran;
      NoneCleaning(o);
      escaped := Fine;
      match o {
        case Fine =>
          AtTheEnd();
          CleanIsBlameless(None);
          s.result := s.result.(ok := true);
        case Raise(x) =>
          ghost var k, at := StoppedAt();
          escaped := Fail(if x == InternalError then StepFailed else x, k, at);
          StillRecorded();
          CleaningIsLast(before);
      }
      s.finished := true;
    }

    lemma NoneCleaning(o: Outcome)
      requires Told(o)
      ensures forall r | r in ran :: !r.cleaning
    {
      hide Clean;
    }

    lemma CleanIsBlameless(error: Option<Exception>)
      requires AllClean(ran)
      ensures Blamed(error)
    {
      hide Clean;
    }

    lemma CleaningIsLast(before: seq<Ran>)
      requires CleansAfter(before) && forall r | r in before :: !r.cleaning
      ensures forall i, j | 0 <= i < j < |ran| && ran[i].cleaning :: ran[j].cleaning
      ensures ran != before <==> exists r :: r in ran && r.cleaning
    {
      assert forall i | 0 <= i < |before| :: ran[i] == before[i] && before[i] in before;
      if ran != before {
        assert ran[|before|] in ran;
      }
    }

    lemma StoppedAt() returns (k: nat, at: Status)
      requires Stopped()
      ensures At(k, at) && (at == Pending || at == Active)
    {
      k, at :| (at == Pending || at == Active) && At(k, at);
    }

    /** What every standing says of the trail. */
    lemma StillRecorded()
      requires exists k: nat, at :: At(k, at)
      ensures trail != [] && trail[|trail| - 1] == Now() && Recorded()
      ensures forall e | e in vms :: deployed == Some(e)
    {
    }

    lemma AtTheEnd()
      requires At(|s.steps|, Pending)
      ensures trail != [] && trail[|trail| - 1] == Now() && Recorded()
      ensures forall i | 0 <= i < |s.steps| :: s.steps[i].status == Done
      ensures forall e | e in vms :: deployed == Some(e)
    {
    }
  }
}
