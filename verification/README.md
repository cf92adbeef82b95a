# crdblab: the instruments and the verdicts, verified

crdblab measures how a CockroachDB or PostgreSQL cluster behaves under load and under faults. This project
models the parts of it that turn observations into verdicts, and proves what those verdicts mean.

| file | models |
|---|---|
| `ProbeProtocol`, `ProbePermits`, `ProbeClock`, `ProbeSpacing`, `ProbeStop`, `ProbeLog`, `ProbeAnswers`, `ProbeOrder` | the RTO probe: one dispatcher, N workers, a bounded queue, a permit semaphore and a stop flag, as atomic steps over every interleaving and every outcome of a write |
| `RtoAnalysis`, `RtoServed`, `RtoReport`, `RtoOutage`, `RtoOpenOutage`, `RtoFloor`, `RtoAttribution`, `RtoQuotable`, `RtoInvariance`, `RemoteProbe` | the gap analysis that derives a recovery time from the probe's log, and the rebasing of a remote agent's log |
| `Quantiles`, `Ordering`, `Options`, `Numbers` | both nearest-rank quantiles, Python's `sorted`, `round` and `int` |
| `Pipeline` | the two-engine pipeline: steps, the record of what was run, failures, an interrupt that may come at any moment, cleanup |
| `WorkloadParser`, `HeaderBinding`, `RawHeader` | the header-bound parser of the load generator's output |
| `Ticks`, `TimedTicks`, `TierRows`, `TierRoundTrip`, `RunRows` | grouping samples into ticks, the rows a benchmark's tiers write, and the loader's regrouping of those rows |
| `QuorumFloor`, `RowMatch`, `Placement`, `PreflightReports` | pre-flight: the quorum latency floor, the row-match probes, the Patroni primary's placement |
| `Recovery` | the chaos phase's throughput recovery |
| `AuditProtocol`, `AuditAnswers`, `AuditLoss`, `AuditWriting` | the audit writer against a store, as atomic steps over every interleaving: what its record and its loss figure mean |
| `Availability`, `AvailabilityFloor` | the recovery time derived from the audit writer's record |
| `EngineComparison`, `BranchTiers`, `MatchedUtilisation` | interpolation, and the comparisons at matched throughput and at matched utilisation |

What the source updates in place is a class here (`ProbeProtocol.RtoProbe`, `RemoteProbe.RemoteRtoProbe`,
`Pipeline.Runner` and `State`, `WorkloadParser.Parser`, `AuditWriting.AuditWriter`, the row-match probes,
`PreflightReports.PreflightReport`); each of its methods is proved against a function of the old state, and the
properties are proved about that function. Loops are loops with invariants. What is an expression in the source
is a function.

Time and rates are exact reals. What comes from outside is an input: the outcome and duration of every write,
every clock reading, every HTTP answer, the exit status of every command, the user's interrupt, the text of the
generator (a token carries what the regular expressions and `float` make of it). Clocks never go back.

## What was found

Where the code and what it is documented to do differ, the model follows the code:

- `RtoProbe.attempts` is documented as being in completion order (`crdblab/core/rto_probe.py:203`). It is so in
  every run if and only if there is one worker (`ProbeOrder.CompletionOrderIffSingleWorker`).
- An outage still open when the probe stopped is documented as truncated (`crdblab/core/rto_probe.py:627`). One
  that is open beyond the noise floor goes unreported exactly when fewer than two writes were served, the last was
  served before the fault, or an earlier outage has already closed (`RtoOpenOutage.OpenOutageUnreportedIff`). So a
  cluster that never serves again after the fault can read as one without an interruption
  (`RtoAttribution.SilentAfterFault`, `RtoAttribution.DeadClusterReadsAsNoInterruption`), and one that recovers
  once and then dies for good reads as recovered (`RtoOpenOutage.ClosedOutageMasks`,
  `RtoOpenOutage.DeadClusterReadsAsRecovered`).
- The probe's noise floor is settled before the fault if and only if the healthy 95th-percentile gap is positive
  (`RtoFloor.FloorSettledIff`). A comment says that the audit writer's floor uses only pre-fault gaps
  (`crdblab/phases/p4_chaos.py:509-510`), but it adds a median over all gaps: it is settled before the fault if and
  only if no gap closed before it, and then there is no floor at all (`AvailabilityFloor.FloorSettledIff`).
- The same median lets an outage hide itself: the longest gap goes undetected exactly when the median gap is zero
  or no more than half of all gaps are shorter than its excess over the longest healthy one
  (`Availability.HiddenIff`, `Availability.OutageHidesItself`).
- The audit's loss figure is exact in every run if and only if the store commits before it acknowledges, once the
  writer's thread has ended (`AuditLoss.AlwaysExactIff`). The join is bounded, and a write that outlasts it can be
  called lost although it is in the table (`AuditLoss.OutlastedReadsAsLost`). Before the table is read it can be told
  whether that may happen: the figure is sure to be exact if and only if no write is about to begin or outstanding
  and not yet committed (`AuditLoss.ExactFromIff`).
- With at least 20 healthy gaps, no interruption of a run is ever offered as a recovery time, whatever happens from
  the fault on, if and only if no healthy gap exceeds the healthy 95th percentile (`RtoQuotable.NeverQuotableIff`).
  That is so for 20 or more equal gaps, and for exactly 20 gaps of any lengths. With fewer than 20 every
  interruption is offered, untested (`RtoQuotable.FewGapsQuote`).
- The two quantile implementations agree except when q * n is an odd integer (`Quantiles.RanksDiffer`).
- A row-match pass is sound for every run if and only if the sample taken at the start passes by itself; a
  PostgreSQL pass also needs that sample to hold no sequential scan (`RowMatch.SoundIff`, `RowMatch.PgSoundIff`).
- Grouping compares neighbours and aggregation compares with the first sample, so drifting offsets form a group
  that cannot be aggregated (`TimedTicks.DriftRaises`); offsets on a decimal grid cannot.
- A total line printed beside component lines is excluded from a tick's total but written as a row, and the
  loader counts it again (`TierRoundTrip.TotalsAgreeIff`, `TierRoundTrip.TotalLineCountsTwice`).
- Looking a pipeline step up by its key finds the right step if and only if no engine is listed twice
  (`Pipeline.LookupExactIffDistinct`); `--engines` accepts a repeated name.
- The common range of throughputs, and that of utilisations, is taken from whole curves, but only rising branches
  are interpolated, so a measured level inside the range may give no point (`EngineComparison.RangeIsNotCoverage`,
  `MatchedUtilisation.LevelGivesPointIff`). The test for an empty range of utilisations can never succeed
  (`MatchedUtilisation.RangeNeverEmpty`).
- The "least confounded" point is always the lowest load (`EngineComparison.LeastConfoundedIsLowest`).

## Model

| member | source | states |
|---|---|---|
| ProbeProtocol.RtoProbe.constructor | crdblab/core/rto_probe.py:171-213 | the pool starts idle, with one permit per worker and an empty queue |
| ProbeProtocol.RtoProbe.RequestStop | crdblab/core/rto_probe.py:391-392 | raising the stop flag is one step of the protocol and changes nothing else |
| ProbeProtocol.RtoProbe.BeginTick | crdblab/core/rto_probe.py:340-351 | the top of the dispatcher's loop: return, wait for the absolute deadline, fire late, or skip forward |
| ProbeProtocol.RtoProbe.EndWait | crdblab/core/rto_probe.py:344-346 | the wait ends at the deadline or with the stop flag |
| ProbeProtocol.RtoProbe.CountTick | crdblab/core/rto_probe.py:352-356 | a tick that is due is counted, and spaced out when the last dispatch is too recent |
| ProbeProtocol.RtoProbe.TryAcquire | crdblab/core/rto_probe.py:357-359 | a permit is taken, or the tick counts as saturated |
| ProbeProtocol.RtoProbe.NextSeq | crdblab/core/rto_probe.py:218-221 | a fresh sequence number is drawn for the job |
| ProbeProtocol.RtoProbe.PutNowait | crdblab/core/rto_probe.py:360-363 | the job joins the queue, or the permit goes back when the queue is full |
| ProbeProtocol.RtoProbe.TestStop | crdblab/core/rto_probe.py:258 | a worker polls on, or exits once stopped |
| ProbeProtocol.RtoProbe.GetJob | crdblab/core/rto_probe.py:259-262 | a worker takes the head of the queue, or finds it empty |
| ProbeProtocol.RtoProbe.FinishWrite | crdblab/core/rto_probe.py:264-297 | whatever the write came to is timestamped when it ends |
| ProbeProtocol.RtoProbe.NoteLatency | crdblab/core/rto_probe.py:233-242 | a served latency enters the window of 32 and moves the median that spaces dispatches |
| ProbeProtocol.RtoProbe.RecordAttempt | crdblab/core/rto_probe.py:300-310 | one attempt is appended, for the answer the worker holds; what it says is AttemptsAreAnswers |
| ProbeProtocol.RtoProbe.ReleasePermit | crdblab/core/rto_probe.py:311 | the permit comes back only when the whole attempt is over |
| ProbePermits.PermitsKept | crdblab/core/rto_probe.py:193-196 | every step of every thread keeps free permits + queue + busy workers + the dispatcher's permit equal to the pool size |
| ProbePermits.PermitsConserved | crdblab/core/rto_probe.py:355-363 | in every reachable state permits are conserved, at most `workers` writes are outstanding, and the put never meets a full queue |
| ProbePermits.TicksAccounted | crdblab/core/rto_probe.py:332-363 | at the top of the loop ticks = numbers drawn + spaced out + saturated, and every number drawn was queued |
| ProbeStop.SaturatedIff | crdblab/core/rto_probe.py:355-363 | a tick far enough from the last dispatch goes out exactly when fewer jobs than workers are queued or being written; otherwise it counts as saturated |
| ProbeStop.NobodyLeavesEarly | crdblab/core/rto_probe.py:258-394 | in every run the flag is up exactly once a stop was requested, and neither dispatcher nor worker has left its loop before |
| ProbeStop.StopIsFinal | crdblab/core/rto_probe.py:258-394 | once stopped, a worker back at the top of its loop takes no further job, and the dispatcher there counts and sends nothing more |
| ProbeClock.SkipGoesForward | crdblab/core/rto_probe.py:347-350 | skipping forward lands beyond the tick that was missed |
| ProbeClock.TickStrictlyIncreases | crdblab/core/rto_probe.py:340-351 | every pass works on a later tick, including one that skips forward |
| ProbeClock.TickDecides | crdblab/core/rto_probe.py:340-351 | a pass waits for a tick that is not due, fires one no more than an interval late, and otherwise skips to the last tick that is due |
| ProbeClock.Scheduled | crdblab/core/rto_probe.py:320-363 | in every reachable state a counted tick is due, dispatches keep the interval and no time lies in the future |
| ProbeClock.TicksBoundedByElapsedTime | crdblab/core/rto_probe.py:332-352 | counted ticks never exceed elapsed time over the interval: the cadence cannot run ahead |
| ProbeClock.DispatchesSpread | crdblab/core/rto_probe.py:320-330 | any k dispatches of a run span at least k - 1 intervals |
| ProbeSpacing.WindowIs | crdblab/core/rto_probe.py:233-242 | in every reachable state the window holds the latest 32 served latencies in the order they were noted |
| ProbeSpacing.TickDispatchesIff | crdblab/core/rto_probe.py:320-356 | a counted tick goes on to dispatch exactly when it comes at least an interval after the last dispatch and at least the median of those latencies divided among the workers |
| ProbeSpacing.DispatchesAreSpaced | crdblab/core/rto_probe.py:320-363 | in every run each write went out at a counted tick that far after the write before it |
| ProbeLog.LogKept | crdblab/core/rto_probe.py:255-311 | no step loses, repeats or reorders a number on its way from the queue to the log |
| ProbeLog.EveryNumberInOnePlace | crdblab/core/rto_probe.py:218-231 | in every reachable state each number drawn is held, queued, in flight or logged, exactly once, and numbers leave the queue in order |
| ProbeLog.FinishedLog | crdblab/analysis/validation.py:524-600 | once all workers have exited the log is exactly 1..m with at most `workers` abandoned, each completing no earlier than its dispatch and none dispatched before the epoch: the validator's checks cannot fire |
| ProbeAnswers.AttemptsAreAnswers | crdblab/core/rto_probe.py:264-310 | in every run each logged attempt is an answer: its worker was writing the job of that number and dispatch time when it was answered, at that completion time and with that outcome |
| ProbeAnswers.AnswersAreLogged | crdblab/core/rto_probe.py:264-310 | conversely every answer is still to be logged by its worker, or is in the log as it was |
| ProbeOrder.LaterAnswerLoggedFirst | crdblab/core/rto_probe.py:203-204 | with two workers some run logs a later completion first |
| ProbeOrder.CompletionOrderIffSingleWorker | crdblab/core/rto_probe.py:203-204 | the log is in completion order in every run exactly when there is one worker |
| Ordering.SortRealsAscending | crdblab/core/rto_probe.py:457-463 | sorting orders the values |
| Ordering.AscendingUnique | crdblab/core/rto_probe.py:457-463 | there is one ascending arrangement, so sorting forgets the order of arrival |
| Ordering.RankCount | crdblab/core/rto_probe.py:457-463 | the value of rank i + 1 was observed, at least i + 1 values are at or below it and at most i lie below |
| Ordering.SortPermutation | crdblab/core/rto_probe.py:632-640 | sorting records by a key that identifies them forgets their recorded order |
| Quantiles.RanksDiffer | crdblab/phases/p1_network.py:69-74 | the probe's half-to-even rank is Phase I's ceiling rank, one higher only at odd integers q * n below the top |
| Quantiles.QuantilesAgree | crdblab/phases/p1_network.py:69-74 | on the same samples the two quantiles agree unless q * n is an odd integer, and the probe's is never lower |
| Quantiles.QuantileCovers | crdblab/core/rto_probe.py:457-463 | a quantile is an observed value with at least q * n samples at or below it |
| Quantiles.PhaseOneRankIs | crdblab/phases/p1_network.py:69-74 | Phase I's rank is the least from 1 on that covers q * n |
| RtoReport.QuantileIs | crdblab/core/rto_probe.py:457-463 | the value read off is a quantile: no more than q * n values lie below it and at least q * n at or below it |
| RtoAnalysis.LongestIsLongest | crdblab/core/rto_probe.py:719-726 | the chosen gap is at least every qualifying gap |
| RtoOutage.FloorAboveHealthyGaps | crdblab/core/rto_probe.py:699-717 | the noise floor is at least every gap that closed before the fault |
| RtoOutage.InterruptedMeans | crdblab/core/rto_probe.py:806-869 | an interruption is reported exactly when some gap closes at or after the fault and exceeds the floor, with the longest such gap's start, end and length |
| RtoOutage.OutageIsLongestSilence | crdblab/core/rto_probe.py:719-869 | no silence of the served span ending at or after the fault is longer than the reported outage, or than the floor when none is reported |
| RtoOutage.OutageIsASilence | crdblab/core/rto_probe.py:806-869 | a reported outage is itself such a silence, longer than the floor, and the recovery time is its end less the fault |
| RtoOutage.InFlightIff | crdblab/core/rto_probe.py:812-823 | the closing write was in flight for none to all of the gap, and for at least half exactly when it was dispatched by its middle |
| RtoServed.CompletionsCount | crdblab/core/rto_probe.py:632 | the sorted completion times hold each time as often as attempts were served then |
| RtoServed.ClosingWrite | crdblab/core/rto_probe.py:632-636 | the sorted record at the end of a gap is the first recorded of the writes served then |
| RtoReport.InFlightMeans | crdblab/core/rto_probe.py:806-841 | the reported share of the outage is the part of it that write was in flight for, and it counts as closed in flight exactly when the write was dispatched by the middle of the outage |
| RtoReport.DelaysAndCounts | crdblab/core/rto_probe.py:642-676 | the report counts the served attempts on either side of the fault; the detection lag is the least delay of a failed attempt after it and the next write the least delay of a served one |
| RtoReport.GapsSplit | crdblab/core/rto_probe.py:633-640 | the gaps that closed before the fault come first, and the others are the late ones |
| RtoReport.ResolutionAndFloor | crdblab/core/rto_probe.py:638-717 | with k gaps closed before the fault, the resolution is their 95th percentile, falling back on all gaps when there is none or it is zero, and the floor is the longest of the k plus the resolution, or twice the resolution |
| RtoReport.CoverageIs | crdblab/core/rto_probe.py:659-686 | the last observation is the greatest completion of any outcome, and coverage is truncated when the run outlived it by more than 20 times the resolution |
| RtoReport.CoverageLostIff | crdblab/core/rto_probe.py:752-804 | with two served writes, no qualifying gap and no open outage, the report blames the probe exactly when coverage was truncated and otherwise denies an interruption |
| RtoReport.QualifyingCount | crdblab/core/rto_probe.py:721-810 | the report counts the gaps that close at or after the fault and exceed the floor |
| RtoOpenOutage.StillOpenIff | crdblab/core/rto_probe.py:728-750 | an open outage is reported exactly when the last served write is at or after the fault, the probe went on beyond the floor, and no closed gap qualifies |
| RtoOpenOutage.OpenOutageUnreportedIff | crdblab/core/rto_probe.py:627-733 | an outage open beyond the floor is not reported exactly for fewer than two served writes, a last one before the fault, or an earlier closed outage |
| RtoOpenOutage.StillOpenIsLongest | crdblab/core/rto_probe.py:728-750 | an outage reported as open is longer than every silence that closed after the fault, and runs from the last served write to the last attempt |
| RtoOpenOutage.ClosedOutageMasks | crdblab/core/rto_probe.py:719-732 | once an outage has closed, failed attempts added at the end change no verdict |
| RtoOpenOutage.DeadClusterReadsAsRecovered | crdblab/core/rto_probe.py:732 | a run that serves once after the fault and never again is reported with a recovery time, however long it fails |
| RtoFloor.FloorIgnoresPostFault | crdblab/core/rto_probe.py:632-640 | with a positive healthy percentile, changing anything that completes at or after the fault leaves resolution and floor unchanged |
| RtoFloor.FloorSettledIff | crdblab/core/rto_probe.py:632-640 | the floor is a function of the healthy part of the run exactly when the healthy percentile is positive |
| RtoAttribution.AttributionMeans | crdblab/core/rto_probe.py:555-845 | an interruption is tested exactly with 20 healthy gaps; exceedances are the healthy and the late gaps beyond the healthy 95th percentile, at most 5% of the healthy ones and every qualifying gap; an outage is offered exactly when untested or when they became 1.5 times as frequent with some before the fault, and what is offered is the end of the first of the longest qualifying gaps less the fault |
| RtoAttribution.RatesMean | crdblab/core/rto_probe.py:579-594 | the expected exceedances are those after the fault at the rate before it, and the ratio says how much more frequent they became, when there were any before |
| RtoQuotable.NeverQuotableIff | crdblab/core/rto_probe.py:555-594 | with at least 20 healthy gaps, no continuation of a run is ever offered as a recovery time if and only if no healthy gap exceeds the healthy 95th percentile |
| RtoQuotable.ExceedanceQuotes | crdblab/core/rto_probe.py:579-593 | with an exceedance before the fault, one write long enough after it is offered as a recovery |
| RtoQuotable.FewGapsQuote | crdblab/core/rto_probe.py:564-578 | with fewer than 20 healthy gaps every interruption is offered, untested |
| RtoQuotable.TwentyGapsAreNeverQuotable | crdblab/core/rto_probe.py:457-593 | exactly 20 healthy gaps, of any lengths, withhold every interruption, since their 95th percentile is the longest |
| RtoQuotable.SteadyCadenceIsNeverQuotable | crdblab/core/rto_probe.py:579-593 | so do 20 or more equal healthy gaps |
| RtoAttribution.SilentAfterFault | crdblab/core/rto_probe.py:728-804 | when nothing is served after the fault the verdict is lost coverage or no interruption, decided by the coverage test alone |
| RtoAttribution.DeadClusterReadsAsNoInterruption | crdblab/core/rto_probe.py:779-804 | a concrete run of a cluster that never came back, read as no interruption |
| RtoInvariance.RecordingOrderIrrelevant | crdblab/core/rto_probe.py:602-869 | the report does not depend on the order racing workers recorded attempts in, except for the closing write's in-flight share when completion times tie |
| RtoInvariance.RebasingMovesOnlyTheClock | crdblab/core/rto_probe.py:602-869 | shifting attempts, fault and end by one skew shifts only the absolute fields |
| RemoteProbe.RemoteRtoProbe.OnStart | crdblab/core/remote_probe.py:216-229 | a parseable epoch fixes the skew; an unparseable one is an error and keeps the old skew |
| RemoteProbe.RemoteRtoProbe.OnAttempt | crdblab/core/remote_probe.py:243-262 | an attempt is dropped until the epoch is known, then placed on the run's clock |
| RemoteProbe.RemoteRtoProbe.OnStop | crdblab/core/remote_probe.py:231-241 | the agent's own error is kept and its counters replace the old ones; attempts and skew are untouched |
| RemoteProbe.RemoteRtoProbe.ReadStdout | crdblab/core/remote_probe.py:193-214 | reading an output appends exactly its rebased attempts, leaves the last summary's counters and the last skew, and records an error exactly for a start without an epoch or a stop with an error |
| RemoteProbe.SkewIs | crdblab/core/remote_probe.py:216-229 | the skew is that of the last readable start line |
| RemoteProbe.ReplaySplits | crdblab/core/remote_probe.py:193-262 | each part of an output is placed with the skew the part before it left |
| RemoteProbe.LastSummaryIs | crdblab/core/remote_probe.py:231-241 | the counters are those of the last stop line that carries a summary |
| RemoteProbe.RebasedLog | crdblab/core/remote_probe.py:243-262 | the log is the agent's well-formed attempts after its epoch line, in order, each unchanged but for its two times |
| RemoteProbe.RebasedReport | crdblab/core/remote_probe.py:327-330 | judging the rebased log equals judging the agent's own log on the agent's clock, with only absolute times moved |
| Pipeline.LookupFinds | pipeline/run_all.py:168-171 | with distinct engines the lookup finds each engine's own step |
| Pipeline.LookupExactIffDistinct | pipeline/run_all.py:138-171 | the lookup is right for every engine exactly when no engine is listed twice |
| Pipeline.Runner.CheckAbort | pipeline/run_all.py:200-202 | an abort is raised only when the flag is up and no cleanup is running |
| Pipeline.Runner.Cmd | pipeline/run_all.py:204-237 | a command returns normally exactly when it exits with status 0 and no abort is noticed, any other status raises StepFailed, and its ending is on the record; only an apply may add VMs, only for the recorded deployment, and a clean destroy leaves none of that engine's |
| Pipeline.Runner.Effect | pipeline/run_all.py:204-237 | what a command did to the machines is one recorded change, and a clean destroy leaves none of its engine's |
| Pipeline.Runner.MarkFailed | pipeline/run_all.py:482-490 | every step that was active, which is at most one, is marked failed, as one recorded change |
| Pipeline.Runner.Deploy | pipeline/run_all.py:334-372 | the deployment is recorded before the apply that may leave VMs behind |
| Pipeline.Runner.Begin | pipeline/run_all.py:282-292 | the next step becomes active, or the run stops with nothing half-marked |
| Pipeline.Runner.End | pipeline/run_all.py:294-297 | the active step becomes done and the next one is pending |
| Pipeline.Runner.DoPreflight | pipeline/run_all.py:314-332 | preflight ends before the first engine step having run its commands cleanly, or stops safely with the outcome of the one that failed |
| Pipeline.Runner.OneEngine | pipeline/run_all.py:334-385 | an engine's seven steps run their work once each, in order and cleanly, and leave nothing deployed, or stop safely with the outcome of the one that failed |
| Pipeline.Runner.DestroyVms | pipeline/run_all.py:395-402 | the deployment is forgotten only when its VMs are gone |
| Pipeline.Runner.DoInsights | pipeline/run_all.py:456-479 | the last step ends the list; engines are compared only when both were benchmarked, and a comparison that refuses is not fatal |
| Pipeline.Runner.Steps | pipeline/run_all.py:299-312 | a run that raises nothing has every step done, nothing deployed, and has run exactly the script of its engines, cleanly but for the comparison |
| Pipeline.Runner.CleanupCommands | pipeline/run_all.py:512-528 | cleanup is never aborted; it ends with logout, destroy and purge all run cleanly, or with the deployment gone or still recorded |
| Pipeline.Runner.Cleanup | pipeline/run_all.py:512-528 | a cleanup is reported as clean only when logout, destroy and purge all were; one that returns has removed the deployment or named it in the cleanup command |
| Pipeline.Runner.Fail | pipeline/run_all.py:482-510 | every piece of work that failed is answered for by its step and the error; cleanup runs exactly when the user chose to destroy; a surviving deployment is named unless an unforeseen exception, in cleaning up or in asking the user, escapes; even then it is still the recorded one |
| Pipeline.Runner.Execute | pipeline/run_all.py:299-312 | a run ends ok only if every piece of work, comparison aside, exited cleanly and the record is exactly the script of its engines; outside cleanup any other nonzero exit leaves its own step failed and the error StepFailed; for every pattern of failures and interrupts the trail runs unbroken from start to end, one change at a time, and at each moment statuses read done*, then at most one active or failed, then pending*, and VMs exist for at most the one recorded engine; a finished run is all done with nothing deployed, or names any survivor |
| WorkloadParser.Parser.BindLine | crdblab/core/workload.py:139-184 | a line binds to exactly the sample or error its header determines |
| WorkloadParser.Parser.Feed | crdblab/core/workload.py:113-137 | one line yields a sample, nothing or an error, and replaces the header only if it is one |
| WorkloadParser.Parser.ParseStream | crdblab/core/workload.py:187-191 | the samples of a stream, up to the first line that raises, and the chatter kept aside |
| HeaderBinding.SamplesAreLocal | crdblab/core/workload.py:113-137 | each sample depends only on its own line and the latest header line before it |
| RawHeader.SummaryIff | crdblab/core/workload.py:24-110 | a header is a summary's exactly when one of its raw tokens names the total of operations or the average latency |
| RawHeader.LineSays | crdblab/core/workload.py:99-184 | a data line raises exactly when it has not one token for each column, an unreadable one, or a numeric label; otherwise its sample has the header's kind, the line's label ("all" without one), and as offset, errors and "tps" the tokens under the last column so spelled in the raw header |
| RawHeader.LastCounts | crdblab/core/workload.py:164-184 | of columns with one name the last counts, for any name |
| RawHeader.StreamSays | crdblab/core/workload.py:113-191 | parsing a stream raises exactly when some data line does not fit the header in force there, or in strict mode has none, and every sample is that of such a line |
| RawHeader.ChatterIs | crdblab/core/workload.py:113-137 | when nothing raises, the lines kept aside are those that are neither header nor data, and without strictness data above the first header |
| HeaderBinding.BindColumnsBinds | crdblab/core/workload.py:164-184 | with distinct column names, each value is its own column's token, whatever the order; it fails exactly when some token is unreadable for its column |
| Numbers.TruncateIs | crdblab/core/workload.py:164-176 | an error count is truncated towards zero |
| HeaderBinding.RearrangedBind | crdblab/core/workload.py:139-184 | the same names paired with the same tokens bind alike in any order |
| HeaderBinding.RearrangedStream | crdblab/core/workload.py:99-184 | permuting columns identically in headers and rows changes no sample, with or without a trailing label |
| HeaderBinding.HeaderRearranged | crdblab/core/workload.py:99-110 | permuting the known columns of a header line keeps its layout and kind, and a trailing label column is dropped |
| Ticks.GroupedPairs | crdblab/core/workload.py:247-266 | the loop yields the grouping of the periodic samples |
| Ticks.GroupsGroup | crdblab/core/workload.py:247-266 | the groups concatenate to exactly the periodic samples, are linked within the tolerance, and cannot be joined |
| Ticks.GroupingUnique | crdblab/core/workload.py:247-266 | there is only one such grouping |
| Ticks.CompleteGroupsStay | crdblab/core/workload.py:247-266 | all but the last group of any prefix are groups of the whole stream, so lazy yielding is final |
| Ticks.AggregateTick | crdblab/core/workload.py:212-244 | the fold gives the tick of its samples, or the error of the first that cannot join |
| Ticks.AggregatesIff | crdblab/core/workload.py:212-228 | a tick is made exactly of nonempty periodic samples all within the tolerance of the first |
| Ticks.LatestPerOp | crdblab/core/workload.py:214-224 | a tick holds one entry per operation type, its latest sample |
| Ticks.TickMeans | crdblab/core/workload.py:212-244 | a tick stands at its first sample's offset; its error count is the greatest of the latest samples of the types that are no totals, and without such a type it repeats the latest sample of the first |
| Ticks.SumSplits | crdblab/core/workload.py:229-238 | a tick's throughput is additive over its entries, and absent when one of them has none |
| Ticks.RefusalMeans | crdblab/core/workload.py:212-228 | a refusal names the first sample that cannot join, or that there was none |
| Ticks.PeriodicsSplit | crdblab/core/workload.py:255-258 | summary samples are dropped and the others keep their order |
| TimedTicks.GroupTimedTicks | crdblab/core/workload.py:275-288 | ticks are stamped with their first arrival, up to the first group that raises |
| TimedTicks.RaisesIff | crdblab/core/workload.py:275-288 | nothing raises exactly when every group stays within the tolerance of its own first sample |
| TimedTicks.RaisesAt | crdblab/core/workload.py:275-288 | when timing raises it is with the error of the first group that cannot be folded, after every group before it was stamped |
| TimedTicks.DriftRaises | crdblab/core/workload.py:221-261 | three offsets 0.9 ns apart form one group that cannot be folded |
| TimedTicks.GridIsTight | crdblab/core/workload.py:260 | on a decimal grid coarser than the tolerance every group shares one offset |
| TierRows.WriteRows | crdblab/phases/bench.py:146-172 | exactly the ticks past the warm-up are kept and written, one row per operation type |
| TierRows.RowsAre | crdblab/phases/bench.py:146-172 | row for row: each row has its tick's offset, its own operation type and that type's throughput, after the rows of all ticks before |
| TierRows.PastRows | crdblab/analysis/loader.py:95-97 | dropping rows up to a warm-up drops whole ticks |
| TierRows.WrittenRowsReload | crdblab/analysis/loader.py:88-114 | rows of rising ticks read back as exactly those ticks, each with the sum of all its throughputs |
| TierRoundTrip.TotalsAgreeIff | crdblab/core/workload.py:229-238 | the reloaded total is the tick's exactly when every counted entry reports a throughput and the excluded total lines add up to zero |
| TierRoundTrip.TotalLineCountsTwice | crdblab/core/workload.py:229-238 | a total line beside component lines doubles the reloaded total |
| TierRoundTrip.TimedRising | crdblab/core/workload.py:247-288 | when the generator's clock never goes back, tick offsets strictly rise |
| TierRoundTrip.ReadBack | crdblab/analysis/loader.py:88-114 | from arrivals on a decimal grid to reloaded rows: nothing raises, and every kept tick comes back |
| RunRows.RunReloads | crdblab/analysis/loader.py:88-114 | a run's file reads back under ascending keys of concurrency and repetition, whatever order its tiers ran in: each tier that wrote anything comes back with exactly its own ticks |
| RunRows.OnlyTiersRun | crdblab/analysis/loader.py:99-113 | no group appears that no tier wrote |
| QuorumFloor.FloorIsMinimax | crdblab/core/preflight.py:883-899 | the floor is the least bound within which some set of voters // 2 followers has answered |
| QuorumFloor.SomeQuorumAttains | crdblab/core/preflight.py:883-899 | some quorum's slowest follower sits exactly on the floor |
| QuorumFloor.LossNeverLowers | crdblab/analysis/resilience.py:640-648 | losing a follower never lowers the floor |
| QuorumFloor.LossRaisesIff | crdblab/analysis/resilience.py:640-648 | losing a follower raises the floor exactly when it belongs to every set attaining the minimum |
| QuorumFloor.FlagMeansFastQuorum | crdblab/analysis/resilience.py:649-660 | the reported flag says exactly that, for round trips recorded to a step wider than its margin |
| QuorumFloor.FloorExistsIff | crdblab/core/preflight.py:883-899 | a floor exists exactly from three voters on with enough followers to complete a majority |
| QuorumFloor.FollowerGeometryMeans | crdblab/analysis/resilience.py:640-665 | the two reported floors are the least bounds met by some quorum before the loss and by some quorum of those left; nothing is reported exactly when either does not exist |
| QuorumFloor.LeaderGeometry | crdblab/analysis/resilience.py:690-728 | when the leader is lost, the candidates are the survivors that could lead with their floors, in order, and best and worst are the first of the least and of the greatest |
| QuorumFloor.CandidatesAre | crdblab/analysis/resilience.py:690-700 | a candidate is listed exactly when a surviving node has enough round trips left to lead, with the floor it would lead with |
| QuorumFloor.BestCaseIsMinimax | crdblab/analysis/resilience.py:690-728 | the best case is the least bound over all survivors and all their quorums |
| RowMatch.RowMatchProbe.Finish | crdblab/core/preflight.py:651-734 | the check and rate added are those of the evidence in the two samples |
| RowMatch.NoFlushIsExact | crdblab/core/preflight.py:661-734 | without a reset the returned rate is the matching share of the tier's statements, and the verdict is right |
| RowMatch.FlushedRate | crdblab/core/preflight.py:668-672 | after a reset that leaves fewer statements than the start sample held, rate and verdict are those of the statements since |
| RowMatch.MeasuredPassTouched | crdblab/core/preflight.py:661-734 | from a start sample that passes, a measured pass means at least 99% of the statements since the later of tier start and last reset matched |
| RowMatch.SoundIff | crdblab/core/preflight.py:661-734 | that holds for every run exactly when the start sample passes by itself |
| RowMatch.UnmeasuredPass | crdblab/core/preflight.py:673-695 | an unmeasured pass is corroborated, after a reset that left no statement, and gives no rate |
| RowMatch.PostgresRowMatchProbe.Finish | crdblab/core/preflight.py:787-858 | the check and rate added are those of the evidence in the two samples |
| RowMatch.PgSoundIff | crdblab/core/preflight.py:794-858 | a measured pass is sound for every run exactly when the start sample passes and holds no sequential scan |
| RowMatch.PgNoFlushIsExact | crdblab/core/preflight.py:794-858 | without a restart the rate is the matching share and the verdict right, unless a sequential scan ran: then the check fails |
| RowMatch.PgUnmeasuredPass | crdblab/core/preflight.py:796-840 | without a measured rate the check passes exactly on corroboration after a restart that left lower counts and no more sequential scans, and gives no rate |
| Placement.ResolvePatroniPrimary | crdblab/core/preflight.py:439-473 | one claimant is the primary; none or several is an error |
| Placement.ResolvesIff | crdblab/core/preflight.py:439-473 | a node is named exactly when it alone claims to be primary |
| Placement.UnresolvedIff | crdblab/core/preflight.py:439-473 | no primary is reported exactly when no node claims to be one, a split brain exactly when two do |
| Placement.CheckPlacement | crdblab/core/preflight.py:474-596 | the check, for every sequence of answers, follows the protocol its lemmas are about, and terminates |
| Placement.PassesIff | crdblab/core/preflight.py:489-596 | a check passes exactly when the last resolution named the expected node |
| Placement.SwitchoverIsGuarded | crdblab/core/preflight.py:517-566 | at most one switchover, only with repair on and the primary elsewhere, directly after a reading that clears every gate |
| Placement.RepairedIff | crdblab/core/preflight.py:567-596 | a repair is reported exactly when a switchover was ordered |
| Placement.NoCheckIff | crdblab/core/preflight.py:560-566 | only a switchover command that raises keeps the check out of the report, and then it was ordered |
| Placement.ReadingsBounded | crdblab/core/preflight.py:524-540 | for an advancing clock the wait is bounded by the settling time |
| Placement.ReadyCandidateIsUsed | crdblab/core/preflight.py:524-566 | a candidate that clears every gate in time is switched to |
| Recovery.FindRecovery | crdblab/phases/p4_chaos.py:590-610 | the loop with its early break computes the scan |
| Recovery.ScanIsFirst | crdblab/phases/p4_chaos.py:603-609 | the scan finds the first tick that holds, and giving up early loses none |
| Recovery.RecoveryIsFirst | crdblab/phases/p4_chaos.py:590-610 | the recovery is the first tick at or after the fault whose hold fits and stays at or above baseline times threshold, and there is none only if no tick holds |
| Recovery.RecoveryMonotone | crdblab/phases/p4_chaos.py:590-610 | an earlier fault or a lower threshold never recovers later |
| Recovery.NoHoldNoRecovery | crdblab/phases/p4_chaos.py:605-607 | without a positive hold nothing is found |
| AuditWriting.AuditWriter.Loop | crdblab/phases/p4_chaos.py:179-219 | the sets, the log and the times of first and last acknowledgement are those of the turns taken, one fresh number a turn |
| AuditWriting.AcksAre | crdblab/phases/p4_chaos.py:190-194 | the first and the last acknowledgement are the ends of the first and the last turn that returned |
| AuditWriting.AuditWriter.Collect | crdblab/phases/p4_chaos.py:233-250 | whatever run of writer and store led here, against a store that commits before it acknowledges the lost writes are listed in order and are exactly the acknowledged ones it dropped and did not commit again |
| AuditLoss.RunPartitions | crdblab/phases/p4_chaos.py:152-158 | in every run each number drawn is acknowledged, ambiguous, refused or in flight, only one of these, and no other number is any |
| AuditLoss.LogInOrder | crdblab/phases/p4_chaos.py:171-206 | in every run the log holds the finished numbers in order at nondecreasing times, all but one at most |
| AuditAnswers.RecordMeans | crdblab/phases/p4_chaos.py:179-206 | in every run a number is acknowledged exactly when the write of that number, while outstanding, was answered by returning; ambiguous when by an error of the connection, refused when by another |
| AuditAnswers.LogMeans | crdblab/phases/p4_chaos.py:171-206 | each entry of the log has the time and the kind of the answer its write got |
| AuditLoss.TableHolds | crdblab/phases/p4_chaos.py:236-240 | the table read is what was committed last and not dropped since |
| AuditLoss.LostMeans | crdblab/phases/p4_chaos.py:226-250 | over every run and every store that commits before it acknowledges, lost is exactly the acknowledged numbers dropped and not committed again, and at most one more that a timed-out join left in flight |
| AuditLoss.AlwaysExactIff | crdblab/phases/p4_chaos.py:152-158 | a store makes every such collection exact if and only if it commits before it acknowledges |
| AuditLoss.OutlastedReadsAsLost | crdblab/phases/p4_chaos.py:226-231 | a run, under that discipline, in which a write is called lost that never left the table |
| AuditLoss.ExactFromIff | crdblab/phases/p4_chaos.py:226-250 | after the join, every collection to come is exact if and only if no write is about to begin, or outstanding and not committed |
| AuditLoss.NothingPendingIsExact | crdblab/phases/p4_chaos.py:226-250 | the sufficient half for every store that commits before it acknowledges, whether or not the writer's thread has ended |
| Availability.RecordAscending | crdblab/phases/p4_chaos.py:463-467 | on the writer's own record, unsorted adjacent differences are true gaps |
| Availability.AckedAre | crdblab/phases/p4_chaos.py:463 | the acknowledgement times are those of the writes marked acknowledged, each as often as recorded |
| Availability.FloorClearsHealthy | crdblab/phases/p4_chaos.py:509-513 | the floor exceeds every gap that closed before the fault |
| Availability.OutageObservedIff | crdblab/phases/p4_chaos.py:515-560 | an outage is observed exactly when a gap closing at or after the fault exceeds the floor |
| Availability.OutageIsLongest | crdblab/phases/p4_chaos.py:515-527 | an observed outage is the longest gap of the whole run, and the recovery time runs from the fault to its end |
| Availability.SilenceWithinOutage | crdblab/phases/p4_chaos.py:463-560 | no silence ending at or after the fault is longer than the reported outage, or than the floor, if there is one, when none is reported |
| Availability.SilenceUnreportedIff | crdblab/phases/p4_chaos.py:492-553 | a silence at the end beyond the slack goes unreported exactly when an earlier outage has closed; without any acknowledgement after the fault the report says so |
| Availability.NeverClosedIff | crdblab/phases/p4_chaos.py:492-545 | a run never closed exactly when something was acknowledged at or after the fault, no gap qualifies, and the run outlived the last acknowledgement by more than ten times the upper median of the gaps |
| Availability.WithoutOutage | crdblab/phases/p4_chaos.py:546-549 | without an observed outage the recovery time runs to the first acknowledgement at or after the fault, and the write gap from the last before it, absent without one or when it is recorded at exactly 0 |
| Availability.ClosedOutageIgnoresEnd | crdblab/phases/p4_chaos.py:529-553 | once an outage has closed, when the run ended no longer matters |
| Availability.HiddenIff | crdblab/phases/p4_chaos.py:468-527 | the longest gap goes undetected exactly when the median gap is zero or at most half of all gaps are shorter than its excess over the longest healthy gap |
| Availability.OutageHidesItself | crdblab/phases/p4_chaos.py:468-527 | a seven-second outage, against one-second gaps, that raises the median and goes undetected |
| AvailabilityFloor.FloorSettledIff | crdblab/phases/p4_chaos.py:468-513 | the floor is settled by what was acknowledged before the fault exactly when no gap closed before it |
| AvailabilityFloor.NoFloorForAny | crdblab/phases/p4_chaos.py:513 | without a healthy gap no continuation of the record has a floor |
| AvailabilityFloor.ContinuedFloor | crdblab/phases/p4_chaos.py:468-513 | with one, continuing the record at any spacing makes that spacing part of the floor |
| EngineComparison.DefinedIff | crdblab/analysis/engine_comparison.py:80-93 | a latency is given exactly on the range of the rising branch |
| BranchTiers.BranchIs | crdblab/analysis/engine_comparison.py:86-92 | for distinct concurrencies the branch holds the throughput and latency of exactly the tiers measured at no more than the concurrency of the first to reach the greatest throughput |
| BranchTiers.DefinedOnTiers | crdblab/analysis/engine_comparison.py:80-93 | a latency is given exactly where some tier of the curve reaches the throughput and some tier up to the peak's concurrency lies at or below it |
| EngineComparison.BranchReachesPeak | crdblab/analysis/engine_comparison.py:87-90 | the branch reaches the curve's greatest throughput |
| EngineComparison.StaysBetween | crdblab/analysis/engine_comparison.py:94-99 | an interpolated latency lies on the straight line between the first two neighbouring tiers that bracket the throughput, and so between their latencies |
| EngineComparison.TierComesBack | crdblab/analysis/engine_comparison.py:94-100 | at a branch tier's own throughput its own latency comes back, when throughputs are distinct |
| EngineComparison.InterpolationRises | crdblab/analysis/engine_comparison.py:94-100 | interpolation is monotone where latencies are |
| EngineComparison.MatchedThroughput | crdblab/analysis/engine_comparison.py:131-224 | the loop collects the points of every measured throughput in the common range and picks the first least gap |
| EngineComparison.MatchedIff | crdblab/analysis/engine_comparison.py:177-183 | a throughput up to the end of the common range gives a point exactly when both rising branches reach down to it and the first engine's latency there is positive; the point carries both latencies |
| EngineComparison.PointsAre | crdblab/analysis/engine_comparison.py:171-209 | the points are those of every throughput measured in either engine, and nothing else |
| EngineComparison.PointsAscend | crdblab/analysis/engine_comparison.py:171-209 | the points come in order of throughput, each once |
| EngineComparison.GapMeans | crdblab/analysis/engine_comparison.py:183-203 | a point's gap is the distance of the throughput's shares of the two peaks to three decimals, absent only at zero |
| EngineComparison.LeastConfoundedIs | crdblab/analysis/engine_comparison.py:211-218 | the least confounded point of any list is the first with the least gap, if one has a gap |
| EngineComparison.NoOverlapNoPoint | crdblab/analysis/engine_comparison.py:146-168 | ranges that do not overlap have no point in any case |
| EngineComparison.LeastConfoundedIsLowest | crdblab/analysis/engine_comparison.py:171-218 | the least confounded point is the lowest positive throughput among the points, since the gap is linear in it and rounding is monotone |
| EngineComparison.RangeIsNotCoverage | crdblab/analysis/engine_comparison.py:144-170 | a measured level inside the common range that gives no point |
| MatchedUtilisation.MatchUtilisation | crdblab/analysis/engine_comparison.py:227-290 | the loops fill the levels and collect the points of the levels in label order |
| MatchedUtilisation.LevelsAre | crdblab/analysis/engine_comparison.py:264-271 | every measured ratio's label is kept, and stands exactly for the first ratio that has it |
| MatchedUtilisation.TierIsNotShifted | crdblab/analysis/engine_comparison.py:264-277 | the point at a tier's exact ratio has that tier's own throughput, and its own latency when it lies on a rising branch with distinct throughputs |
| MatchedUtilisation.LevelGivesPointIff | crdblab/analysis/engine_comparison.py:249-281 | a level gives a point exactly when both rising branches reach down to it and the first engine's latency there is positive; a level in range fails exactly below the start of a branch, or there |
| MatchedUtilisation.ComparisonsAre | crdblab/analysis/engine_comparison.py:264-290 | the points are those of the measured ratios of either engine that are the first with their label |
| MatchedUtilisation.ComparisonsAscend | crdblab/analysis/engine_comparison.py:264-290 | the points come in order of their labels, one a label |
| MatchedUtilisation.RangeNeverEmpty | crdblab/analysis/engine_comparison.py:248-262 | with positive peaks the range of levels is never empty |
| MatchedUtilisation.FallingTierGivesNoPoint | crdblab/analysis/engine_comparison.py:249-279 | a level in the range, set by a tier past the peak, that gives no point |

## Left out

- SSH, SQL, HTTP, subprocesses, Tailscale, the terminal, charts and printing: only their possible outcomes are inputs.
- Human-readable details and claims, decimal rounding of reported fields (except in the quantile and the least-confounded point), and floating-point error.
- ProbeProtocol.RtoProbe.RecordAttempt: does not model the optional output stream; an exception while writing to it would end the worker with its permit held.
- ProbeProtocol.RtoProbe.EndWait: takes the wait to last until the deadline or the stop flag, never shorter.
- RtoProbe.stop's join timeout: the finished log is stated for workers that have exited.
- The list of the ten longest qualifying gaps in the report, `outage_windows` and `summarise`, which only regroup the attempts.
- Pipeline.Runner.Cleanup: after an exception other than the two it handles, the source names no cleanup command and neither does the model; Execute reports it as escaped.
- Pipeline.Runner.Execute: requires distinct engines, as the steps' lookup does; the dry run's simulated output and failures are left out, but for the failure forced at a step.
- Pipeline: what a step's work does in detail (waiting for VMs, the tailnet's calls, manifests, timings) is one entry of the record with one ending.
- The text of the generator's lines: splitting, the regular expressions and `float` are token data; an infinite or NaN token is not represented.
- HeaderBinding.BindColumnsBinds: assumes distinct column names; with repeated names the last one wins.
- The median latencies and other columns of the benchmark's rows, the tier's error counter in the loader, CSV encoding and pandas' treatment of a missing operation label.
- QuorumFloor.LeaderGeometry: leaves out the ratios and texts of the geometry.
- AuditLoss.RunPartitions: takes the time stamp that follows an acknowledgement not to raise; if it did, the number would be recorded twice.
- The reasons given for a candidate that is not ready, beyond their kind.
- The chaos phase's timer and live hand-off of ticks, clock offsets, alignment of the two clocks, performance and degradation profiles.
- EngineComparison.TierComesBack: equal throughputs are taken in stable order, and so are equal concurrencies, which the tables compared never hold; the source's sort leaves their order open.
- The comparisons at equal concurrency and at the lightest load.
- Hardware counter differences, the demo's replay, tailnet name matching, tier shuffling and the single-condition validation checks: they would add only easy members.
