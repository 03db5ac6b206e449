# Research control plane: verified model

A research platform runs its jobs as tasks of a Postgres table. A scheduler admits tasks and writes an outbox row for
each; a dispatcher puts the rows on Redis streams; workers lease tasks, renew their leases, write results under a
fencing token and report failures; a reaper takes expired leases back. Around that core stand per-route circuit
breakers, a lineage graph of what was derived from what, and a signal engine that ranks raw metrics and decides when
enough evidence is covered to score.

This project models those parts and proves what holds of them over every input and every run:

- **Shared state and steps** (`World`): the task table, the outbox, the streams and the clock, with one atomic step per
  SQL statement or transaction, including a crash between the stream append and the commit, and a wipe of all streams.
  `ControlPlane.Plane` is the same state as an object whose methods are the source's functions; each method is proved
  to do exactly the corresponding step, and the theorems about runs (`Leases`, `LeaseRuns`, `Outbox`, `Delivery`,
  `Caps`, `Spending`, `Gates`, `Eligibility`, `TableRules`, `Dependencies`, `Retries`, `RetryTimes`, `Backpressure`,
  `Backlogs`, `Ticks`, `Picks`, `Blocking`) are about those steps: on the columns, the clock and the events of a run.
- **Fair batches** (`Fairness`, `FairnessTheorems`, `ArrivalOrder`, `Starvation`, `FirstPick`, `Turns`, `Threshold`,
  `Shares`): the credit loop, its termination and completeness, the order within and between jobs, how picks are shared
  by weight, and exactly which job gets nothing in any batch.
- **Circuit breakers** (`Circuit`, `CircuitTheorems`, `Permission`, `Wedging`): the breaker object, its registry, its
  behaviour over whole histories of requests and reports, exactly when it refuses, and exactly what wedges it.
- **Lineage** (`Graph`, `Search`, `Lineage`, `LineageTheorems`, `Replay`): ancestor closure, diff and shortest-path pins
  over possibly cyclic graphs, both walks proved against one breadth-first search.
- **Signals** (`Normalize`, `ClipMarks`, `Outsiders`, `ScoreOrder`, `Coverage`, `CoverageTheorems`, `CoverageSignals`):
  rank algebra over exact reals, the clip marks as percentiles, what a value outside the cohort scores and where scores
  follow raw values, the coverage grid against its direct definition, the gate read off the signals, and the
  hostile-dependence test.

`Wrappers` (optional values), `Ordering` (Python's tuple order and stable sort) and `Lanes` (lanes, stream tiers) are
shared.

## Where the code and its documentation disagree

The model follows the code. Each point below is a lemma with the exact condition.

- The fairness rule promises that a large job cannot starve a small one (`docs/build/control_plane_v3_24gb.md:156`).
  In a batch of any length a job gets nothing if and only if the limit is reached before its turn, which is counted from
  weights, priorities, ids and queue lengths alone (`FirstPick.StarvationExact`). Heavier jobs that exceed it in total
  by at least the largest weight shut it out for as long as they have more candidates than the batch takes; jobs that
  exceed it by less cannot shut it out of any long batch, whatever the queues hold (`Threshold.ThresholdExact`,
  `Threshold.UnpressedJobIsServed`). Two busy priority-1 jobs shut out a priority-3 job under the shipped weights
  (`Starvation.ShippedWeightsStarve`).
- Cooldowns are documented as 5, then 15, then 30 minutes (`docs/archive/control_plane.md:600-603`). The counter is
  raised before it is used as an index, so the first step is never used (`CircuitTheorems.DocumentedCooldownExact`,
  `CircuitTheorems.FirstStepNeverUsed`); the youtube:ytdlp route starts at 24 hours, not 12
  (`Permission.YtdlpCooldown`).
- Half-open is documented to allow one probe (`docs/archive/control_plane.md:605-607`). Asking does not spend it: every
  request passes until a result is reported (`CircuitTheorems.ProbeIsNotConsumed`).
- A success reported while a breaker is open can leave it half-open with no probe left, refusing every request until a
  result is reported (`CircuitTheorems.LateSuccessWedges`, `CircuitTheorems.WedgedRefusesAll`). Which configurations
  allow that at all is decided by threshold, window and rate alone (`Wedging.CanWedgeExact`); the shipped one does. Once
  its cooldown has run out, a retry of such a route is scheduled in the past (`Wedging.PastRetryExact`).
- A task of a lane without streams, or of a budgeted lane its job's stored budget does not name, is listed as a
  candidate, and the error raised at its admission aborts the tick (`Ticks.TickReturnsExact`, `Ticks.TickAborts`).
  `POST /v1/research-jobs` stores any budget (`control/api/routes_jobs.py:89`), so one that names the search lane only
  is enough (`Blocking.PartialBudgetAborts`). The task never moves, stays a candidate, and starves every pick ordered
  after it (`Blocking.UnadmittableStarves`); on the repository's own connections, which commit once the caller is done,
  it undoes the picks before it as well (`Ticks.AfterTickExact`, `Blocking.UnadmittableBlocksAll`).
- A task is dead-lettered by its (max/2 + 1)-th failure, because failure and re-admission both raise the attempt
  (`Retries.AttemptLimitExact`); for the same reason the backoff schedule skips every other step until it reaches its
  ceiling (`Retries.RetryDelayExact`).
- A terminal state is not final for the worker that still holds the token (`Leases.TerminalChangeExact`,
  `Leases.FinishedTaskRevived`).
- At a full budget a waiting retry is refused although it is counted already, and stays refused
  (`Caps.BudgetRefusalExact`, `Caps.RetryStarvesAtFullBudget`); a direct enqueue is not gated at all
  (`Caps.EnqueueKeepsBudgetExact`, `Caps.EnqueueKeepsLimitExact`).
- Republishing never looks beyond its first batch of rows (`Outbox.RepublishRestoresExact`).
- Removing hostile-tier signals cannot break hard-required coverage, which only open and defended tiers count for, so
  the documented confidence cap (`docs/build/08_signal_engine.md:200-206`) never applies
  (`CoverageTheorems.NeverHostileDependent`).
- A raw value outside the cohort is added to its own cohort before ranking, so scores do not follow raw values: every
  nonempty cohort scores some value against its largest member in the wrong order (`ScoreOrder.EveryCohortMisorders`),
  though never two values it leaves unclipped (`ScoreOrder.KeptInOrder`). The order of any two raw values is decided by
  how many members lie below them (`Outsiders.ScoreIsMarks`, `Outsiders.ScoreOrderExact`).
- A lineage trace is incomplete exactly when some ancestor has more than 500 parent rows
  (`LineageTheorems.TraceCompleteExact`).

## Model

| member | source | states |
|---|---|---|
| Fairness.SelectFairBatch | control/scheduler/fairness.py:20-62 | The loop terminates for positive weights and returns the picks of the credit run that the fairness lemmas are about. |
| Fairness.GroupByJob | control/scheduler/fairness.py:29-40 | One pass over the sorted candidates collects each job's queue in arrival order, the weight and priority of its latest candidate, and the largest weight. |
| Fairness.ServeRound | control/scheduler/fairness.py:43-60 | One pass pays every backlogged job, then serves the best eligible job or idles. |
| Fairness.BestOf | control/scheduler/fairness.py:55-58 | The job served is the unique least by (most credit, smaller priority number, smaller id). |
| Fairness.RoundKeepsRunning | control/scheduler/fairness.py:42-60 | Credits never go negative, and fewer idle rounds than the largest weight pass between picks: the measure that makes the loop end. |
| FairnessTheorems.BatchIsComplete | control/scheduler/fairness.py:26-62 | A batch holds exactly min(limit, n) candidates, none more often than given, and each job's picks are a prefix of its arrival order. |
| ArrivalOrder.OldestFirst | control/scheduler/fairness.py:32-56 | Of two candidates of one job the one created later, or as late with the larger task id, is never picked without the other nor before it. |
| Ordering.StrLeExact | control/scheduler/fairness.py:32 | Ids are compared at the first place where they differ, a proper prefix coming first. |
| ArrivalOrder.NewestDecides | control/scheduler/fairness.py:34-38 | A job counts with the priority, and the weight of the priority, of its newest candidate. |
| ArrivalOrder.LeaderOpens | control/scheduler/fairness.py:42-58 | A batch opens with the job that has the most weight, then the smaller priority number, then the smaller id, each job judged by its newest candidate. |
| FairnessTheorems.WeightDominance | control/scheduler/fairness.py:38-60 | A job of no smaller weight that still has work is at most one pick behind any other job. |
| Shares.ShareBound | control/scheduler/fairness.py:42-60 | In any batch a job no heavier than j, where j still has work, gets at most its share by weight of one pick more than j has. |
| ArrivalOrder.ShippedShares | config/queues.yaml:41-45 | Under the shipped weights, while a job of a higher class has work, a normal job gets at most half of a high one's picks, a bulk job a quarter of a normal and an eighth of a high one's, counting one pick more. |
| Shares.HeaviestShare | control/scheduler/fairness.py:42-60 | A heaviest job with more candidates than the batch takes gets at least an even share of the batch, less one pick. |
| Shares.LighterFallsBehind | control/scheduler/fairness.py:42-60 | In a batch of at least 3 * maxWeight * jobs / (maxWeight - weight) picks over any number of jobs, a lighter job is two or more picks behind a heaviest one that has more candidates than the batch takes. |
| Shares.DominanceExact | control/scheduler/fairness.py:42-60 | Among any number of jobs a heaviest one gets at most one pick ahead of another if and only if the other weighs as much: for two queues longer than the batch, and for a lighter job in a batch of that length. |
| Starvation.HeavyJobsStarve | docs/build/control_plane_v3_24gb.md:156 | Heavier jobs whose surplus weight covers the largest weight leave a lighter job without a pick for as long as they have work. |
| FirstPick.StarvationExact | control/scheduler/fairness.py:40-60 | In any nonempty batch, at any limit, a job gets nothing if and only if the picks of the busy rounds reach the limit before they cover all that precede its first one, counted from weights, priorities, ids and queue lengths alone. |
| FirstPick.PrecedesExact | control/scheduler/fairness.py:55-58 | How many picks of a rival precede a job's first pick in a round, as a quotient of the weights, from the pick order with its tie-breaks. |
| Threshold.DeepExact | control/scheduler/fairness.py:40-60 | When every queue is longer than the batch, a job gets nothing if and only if in each round at least as many picks precede its first one as there were rounds. |
| Threshold.UnpressedJobIsServed | control/scheduler/fairness.py:42-60 | Whatever the queues hold, a job whose rivals' surplus stays under the largest weight is served in every batch longer than maxWeight * rivals / (maxWeight - surplus). |
| Threshold.ThresholdExact | docs/build/control_plane_v3_24gb.md:156 | A job gets nothing if and only if its rivals' surplus reaches the largest weight: at every length while the heavier jobs have more candidates than the batch takes, and, if it does not reach it, in every batch longer than that bound. |
| Threshold.DefaultBatchExact | control/scheduler/admit.py:219 | With the shipped weights a default batch of 32 over up to four jobs starves exactly the jobs over that threshold, the heavier ones of an over-threshold job having more than 32 candidates. |
| Starvation.ShippedWeightsStarve | config/queues.yaml:41-45 | With weights 8, 4 and 1, two priority-1 jobs shut a priority-3 job out of batches of every size. |
| Starvation.SortKeepsQueues | control/scheduler/fairness.py:32-34 | Sorting by arrival changes the size of no job's queue. |
| Circuit.RouteCircuit.constructor | control/retries/circuit_breaker.py:44-56 | A new breaker is closed with an empty window, and carries its route's cooldown steps. |
| Circuit.RouteCircuit.MaybeOpenNow | control/retries/circuit_breaker.py:63-86 | The conditional opening as a whole-state change. |
| Circuit.RouteCircuit.RefreshState | control/retries/circuit_breaker.py:88-103 | Open becomes half-open, with a probe, from the end of the cooldown on. |
| Circuit.RouteCircuit.AllowRequest | control/retries/circuit_breaker.py:105-111 | The answer to a permission request and the refreshed state. |
| Circuit.RouteCircuit.RecordFailure | control/retries/circuit_breaker.py:113-132 | The state after a reported failure, branch by branch. |
| Circuit.RouteCircuit.RecordSuccess | control/retries/circuit_breaker.py:134-152 | The state after a reported success: half-open closes, otherwise only the counter and the window change. |
| Circuit.CircuitRegistry.Get | control/retries/circuit_breaker.py:174-180 | A breaker is created on first use, and looking one up changes no route's state. |
| Circuit.CircuitRegistry.AllowRequest | control/retries/circuit_breaker.py:182-183 | A request moves its own route's breaker only. |
| Circuit.CircuitRegistry.RecordFailure | control/retries/circuit_breaker.py:185-192 | A failure moves its own route's breaker only. |
| Circuit.CircuitRegistry.RecordSuccess | control/retries/circuit_breaker.py:194-195 | A success moves its own route's breaker only. |
| CircuitTheorems.WindowIsHistory | control/retries/circuit_breaker.py:55-56 | The deque always equals the last window-size results of the full history. |
| CircuitTheorems.CounterIsTrailing | control/retries/circuit_breaker.py:121-151 | The failure counter never exceeds the failures in a row and equals them while closed. |
| CircuitTheorems.OpeningExact | docs/archive/control_plane.md:595-598 | A closed breaker opens on a failure if and only if the history meets the documented rule: enough failures in a row, or a full window above the rate. |
| CircuitTheorems.RunIsHealthy | control/retries/circuit_breaker.py:63-103 | With no success reported while open, the opening condition holds whenever the breaker is not closed, and half-open has its probe. |
| CircuitTheorems.NeverWedges | control/retries/circuit_breaker.py:105-132 | In such runs half-open admits a request, open admits one exactly from its cooldown's end on, and a failed probe re-opens. |
| Permission.ClosedExact | control/retries/circuit_breaker.py:63-152 | A breaker is closed if and only if it has not opened since it last closed. |
| Permission.UnopenedAdmits | control/retries/circuit_breaker.py:105-108 | Until it opens a breaker lets every request pass. |
| Permission.RefusedExact | control/retries/circuit_breaker.py:105-111 | In any run a request is refused if and only if the breaker is open before its cooldown's end or is wedged. |
| Permission.AdmitsUntilFailure | control/retries/circuit_breaker.py:105-152 | Once it lets a request pass it lets every later one pass until a failure is reported. |
| Permission.SuccessCloses | control/retries/circuit_breaker.py:134-147 | A success while half-open closes the breaker whatever its window holds, with counter and openings at zero. |
| Permission.FailureReportExact | control/retries/circuit_breaker.py:63-132 | A failure reports a change if and only if it opens the breaker, naming both modes and the cooldown's end. |
| Permission.SuccessReportExact | control/retries/circuit_breaker.py:134-152 | A success reports a change if and only if it closes the breaker. |
| Permission.YtdlpCooldown | control/retries/settings.py:18-20 | Whatever is configured, the youtube:ytdlp route stays shut a day, then two days. |
| Permission.OtherRoutesAsConfigured | control/retries/settings.py:54-60 | Every other route has the configured steps. |
| CircuitTheorems.FailedProbeExact | control/retries/circuit_breaker.py:119-128 | A failure on a half-open breaker, or on an open one past its cooldown, wedges it if and only if the opening condition fails after it is counted; otherwise it re-opens. |
| Wedging.WedgeStepExact | control/retries/circuit_breaker.py:88-152 | An event wedges a breaker if and only if it is such a failure; a wedged one stays so under requests and such failures only. |
| Wedging.WedgedRunExact | control/retries/circuit_breaker.py:105-152 | A run leaves the breaker wedged if and only if some failure wedged it and no later report freed it. |
| Wedging.CanWedgeExact | control/retries/circuit_breaker.py:63-72 | Some run wedges a breaker if and only if its threshold is at least two and a full window tolerates one failure or is longer than the threshold by more than two. |
| Wedging.PastRetryExact | control/retries/handle.py:148-159 | After any run a retry is scheduled in the past if and only if the breaker's cooldown has run out and it is wedged already, or the failure counts and wedges it now. |
| RetryTimes.RetryTimeExact | control/retries/handle.py:147-188 | Over any history: a route that has not opened since it last closed retries after the delay, a cooling one at the end of its cooldown, a wedged one at the end of the cooldown it had, any other after the delay. |
| RetryTimes.WaitsForBackoff | control/retries/handle.py:182-188 | Where a request passes, the wait is a backoff of the next attempt for every draw of the jitter. |
| RetryTimes.WaitsForHeader | control/retries/backoff.py:20-21 | With a Retry-After header it is the header's seconds, never negative, whatever lane, attempt and draw. |
| CircuitTheorems.WedgedRefusesAll | control/retries/circuit_breaker.py:105-111 | A wedged breaker refuses every request, however late, until a result is reported. |
| CircuitTheorems.LateSuccessWedges | control/retries/circuit_breaker.py:134-152 | Ten failures, a success while open, then a failed probe wedge a breaker with the shipped settings. |
| CircuitTheorems.CooldownSilence | control/retries/circuit_breaker.py:88-122 | Until the cooldown ends, nothing reported moves the breaker or its cooldown, and a request passes exactly from its end on. |
| CircuitTheorems.OpenCountCountsOpenings | control/retries/circuit_breaker.py:75-76 | The counter is the number of openings since the last close. |
| CircuitTheorems.OpeningLength | control/retries/circuit_breaker.py:58-77 | The n-th opening since the last close lasts the step of index min(n, last). |
| CircuitTheorems.CooldownsEscalate | docs/archive/control_plane.md:600-603 | Until the breaker closes again each opening lasts at least as long as those before it, for non-decreasing steps. |
| CircuitTheorems.DocumentedCooldownExact | control/retries/circuit_breaker.py:58-61 | The n-th opening lasts as documented if and only if skipping a step makes no difference there. |
| CircuitTheorems.FirstStepNeverUsed | control/retries/settings.py:15 | The first opening lasts 900 seconds, and no opening lasts 300. |
| CircuitTheorems.ProbeIsNotConsumed | docs/archive/control_plane.md:605-607 | A half-open breaker admits any number of requests until a result is reported. |
| Lineage.TraceAncestors | lineage/trace.py:202-253 | The walk terminates on any graph and returns exactly the reachable nodes, each with the relation of the last edge of a shortest path to it, and exactly the edges leaving them. |
| Lineage.RootHasNoRelation | lineage/trace.py:210-226 | A traced node has no relation if and only if it is the root. |
| Lineage.Expand | lineage/trace.py:227-237 | The edges of a visited node are collected by key, and exactly the parents not yet visited are queued, in row order, each with its relation. |
| Graph.VisibleIsEdgesFor | lineage/edges.py:64-111 | A walk sees an edge if and only if it is among the first 500 rows of its child. |
| LineageTheorems.SeenExact | lineage/edges.py:64-99 | A walk sees a row if and only if fewer than 500 rows of the same child come before it in the query's order. |
| LineageTheorems.TraceCompleteExact | lineage/edges.py:71-99 | The trace of a root is its whole ancestry if and only if no ancestor in the table, itself included, has more than 500 rows. |
| LineageTheorems.DiffLineage | lineage/diff.py:70-126 | In one snapshot each part of a diff is characterised by reachability from the two roots, and no version tag changes are found. |
| LineageTheorems.EdgesFollowNodes | lineage/diff.py:89-99 | An edge lands on the side, or in the shared part, where its child lands. |
| LineageTheorems.SharedIsClosed | lineage/diff.py:87-93 | A shared edge has a shared child and a shared parent. |
| LineageTheorems.IdenticalExact | lineage/diff.py:36-42 | Two roots have identical ancestries if and only if each is an ancestor of the other. |
| Replay.VersionPinsForLeaf | lineage/replay.py:51-84 | The pins of a reachable leaf are those of a shortest path from the root; an unreachable one, or pinning off, gives none. |
| Replay.GroupByChild | lineage/replay.py:61-68 | The adjacency map lists each child's edges in order. |
| Search.PathsAreCovered | lineage/replay.py:72-83 | At every point of either walk any path to a node was matched by an earlier visit or is at least as long as the next entry. |
| Search.WalkFinds | lineage/trace.py:214-226 | The first entry of either walk for an unvisited node was noted from a shortest path to it. |
| Replay.ShortestIsSimple | lineage/replay.py:70-76 | A shortest path leaves no node twice. |
| Replay.PinnedIsOnPath | lineage/replay.py:79-83 | A key is pinned if and only if an edge of the path has it. |
| Replay.PinsAreThePath | lineage/replay.py:79-83 | The pins hold one entry for each edge of the path, with that edge's own tag. |
| Replay.EmptyPinsMeanRoot | lineage/replay.py:77-84 | For a reachable leaf the pins are empty if and only if the leaf is the root. |
| Replay.ReplayLineage | lineage/replay.py:87-119 | The plan lists exactly the stored query_specs the root descends from, each with the pins of a shortest path over the whole visible table. |
| Leases.ApplyIsNextTask | control/leases/acquire.py:28-51 | Every step of the control plane moves each existing task as its column-level definition says, and removes none. |
| Leases.ApplyAddsFresh | control/dispatcher/enqueue.py:77-107 | A task a step adds is the given row, READY or PENDING, of a known job, without lease or retry time and with generation zero. |
| Leases.TokenLostExact | control/leases/fencing.py:40-56 | A step takes a token from its holder if and only if it re-grants, reaps or retries the task. |
| Leases.StaleTokenNeverWrites | control/leases/fencing.py:40-56 | Once lost, a token never again passes a fenced write or a heartbeat, in any run. |
| Leases.GrantsIncrease | control/leases/acquire.py:34 | Every grant of a task carries a larger generation than all earlier ones. |
| Leases.RunKeepsLeasesOk | control/leases/reaper.py:27-36 | In disciplined runs owner and expiry are set together, active tasks have an owner and waiting ones none. |
| Leases.HeartbeatOrTake | control/leases/heartbeat.py:31-41 | At any instant the owner can heartbeat if and only if nobody can acquire or reap the task. |
| Leases.LeaseEndsLawfully | control/leases/acquire.py:38-45 | A lease is taken from its holder only past its expiry or by a failure report. |
| Leases.LeasesDoNotOverlap | control/leases/acquire.py:38-45 | Before a later grant takes effect, each earlier lease of the task expired or was given up. |
| Leases.GrantIsExclusive | control/leases/acquire.py:32-46 | Until a grant's expiry its token stays current whatever other workers, the reaper and the scheduler do. |
| Leases.TerminalChangeExact | control/leases/fencing.py:41-47 | A terminal task changes if and only if its token's holder writes another state, or a report blocks, fails or dead-letters it from another state or grants a retry. |
| Leases.TerminalIsFinal | control/leases/fencing.py:11 | In disciplined runs a terminal task never changes again. |
| Leases.FinishedTaskRevived | control/leases/fencing.py:41-47 | Without the discipline the finishing worker can set its task running again. |
| LeaseRuns.GenerationCounts | control/leases/acquire.py:32-36 | The generation of a task counts exactly its grants and retries. |
| LeaseRuns.LapsedLeaseIsFree | control/leases/acquire.py:38-45 | While a silent worker holds its token, others can take the task and the reaper sees it if and only if the granted time is over. |
| LeaseRuns.GrantExact | control/leases/acquire.py:28-59 | A grant names its worker, a generation one higher and the lease's end, and changes no other task, row or stream. |
| LeaseRuns.HeartbeatExtends | control/leases/heartbeat.py:29-41 | A heartbeat moves the lease's end to the asked time from now, and nothing else. |
| LeaseRuns.ReapExact | control/leases/reaper.py:20-36 | A reaper pass hands back exactly the selected tasks, keeping generation and attempt; it leaves nothing overdue if it does not use up its limit, and otherwise only leases that ended no earlier. |
| LeaseRuns.EndedStays | control/leases/fencing.py:11 | A task that succeeded, failed, was blocked or was dead-lettered is never changed by a disciplined run. |
| LeaseRuns.HolderWrites | control/leases/fencing.py:14-56 | The discipline lets the holder write RUNNING or one of the four ends only, and such a write sets the state and nothing else. |
| TableRules.RunKeepsTable | control/dispatcher/enqueue.py:77-107 | In every run idempotency keys stay unique, priorities in range and jobs known. |
| TableRules.ColumnsKept | control/dispatcher/enqueue.py:77-107 | No step changes a task's job, lane, priority, key, payload reference or times of creation and hold, and each new task has a key of its own. |
| TableRules.TakenKeyAddsNothing | control/dispatcher/enqueue.py:77-107 | A task whose key is taken is added by neither way in. |
| TableRules.RetryTimeExactlyWaiting | control/retries/handle.py:58-78 | In disciplined runs a task carries a retry time if and only if it waits for one. |
| TableRules.RowsDescribe | control/scheduler/admit.py:160-203 | Every task a worker may hold has an outbox row on its lane's stream with its id, job, lane, priority, attempt, key, payload reference and creation time. |
| TableRules.EnqueueWritesBoth | control/dispatcher/enqueue.py:49-125 | An enqueue writes a READY task and one new unpublished row that describes it, and answers with that row; an unknown lane or a constraint violation writes nothing. |
| TableRules.AdmitWritesBoth | control/scheduler/admit.py:154-213 | An admission writes the READY task, a retry as its next attempt, and one new unpublished row that describes it; any other answer writes nothing. |
| TableRules.ReportAnswers | control/retries/handle.py:110-212 | A failure report answers blocked, failed, dead-lettered, a lookup error or a retry by action, attempt and limit, and leaves the task, if there is one, in exactly that state. |
| Outbox.NoOrphanMessages | control/dispatcher/publish.py:49-68 | In every run each stream message has its outbox row, on that stream and with that payload. |
| Outbox.PublishedWasSent | control/dispatcher/publish.py:66-68 | Every row marked published during a run was put on its stream during that run. |
| Outbox.LostOnlyByWipe | control/dispatcher/publish.py:66-68 | In runs without a wipe every published row is still on its stream. |
| Outbox.ReadyTasksHaveRows | control/scheduler/admit.py:173-203 | Every task that became READY has an outbox row for its current attempt, on the stream of its lane and priority. |
| Outbox.PublishPassExact | control/dispatcher/publish.py:71-102 | A pass publishes exactly the first batch of unpublished rows, each onto its stream, and counts them. |
| Delivery.PublishesInOrder | control/dispatcher/publish.py:78-102 | A publish pass appends to each stream exactly its unpublished rows with fewer than a batch of such rows before them, in row order and with their payloads, and marks exactly those. |
| Delivery.RestoresInOrder | control/dispatcher/republish.py:28-51 | A republish pass appends to each stream exactly its missing published rows of READY tasks among the first batch of such rows, in row order. |
| Delivery.PassesCount | control/dispatcher/publish.py:93-102 | The number a publish pass returns is that of the rows that were due, and a republish pass that of the rows that were missing. |
| Outbox.CrashThenPublishDuplicates | control/dispatcher/publish.py:66-68 | A crash between append and commit leaves the message twice after the next publish: at least once, not exactly once. |
| Outbox.RepublishRestoresExact | control/dispatcher/republish.py:28-51 | A pass restores every published row of a READY task if and only if none past its batch limit was missing. |
| Outbox.SecondPassAddsNothing | control/dispatcher/republish.py:45-47 | A second pass changes nothing and counts zero. |
| Caps.CapsAreInvariant | control/scheduler/admit.py:146-203 | Job budgets and lane limits hold throughout every run that starts within them and enters the table by admission. |
| Spending.BudgetByEvents | control/scheduler/budgets.py:16-77 | From a table whose tasks of a job and lane are all PENDING, no run admits more of them out of PENDING than the budget plus those that ended BLOCKED, FAILED or DEAD_LETTER. |
| Spending.SpendConserved | control/scheduler/budgets.py:16 | In every governed run the tasks that left PENDING are those still counted plus those that ended without a result. |
| Spending.SuccessFreesNothing | control/scheduler/budgets.py:16-77 | A worker's write of SUCCEEDED never turns another task's budget refusal into anything else. |
| Spending.LimitByEvents | control/scheduler/concurrency.py:12-60 | From an idle lane, tasks handed out exceed those taken back by no more than the lane's limit. |
| Gates.AnswersExact | control/scheduler/admit.py:132-165 | Pause, budget, limit and admission are each answered if and only if theirs is the first gate that does not let the task through, on columns and counts. |
| Gates.IneligibleAnswers | control/scheduler/admit.py:120-136 | A task that is missing, in another state or waiting for dependencies gets exactly that answer. |
| TableRules.PauseExact | control/scheduler/admit.py:137-144 | The pause holds back the four fetch lanes and changes nothing for any other task. |
| Caps.OnlyAdmissionEnters | control/scheduler/budgets.py:16 | No other step moves a task into a state that spends budget or counts as in flight. |
| Caps.EnqueueKeepsBudgetExact | control/dispatcher/enqueue.py:77-107 | A direct enqueue keeps its lane's budget if and only if there was room. |
| Caps.EnqueueKeepsLimitExact | control/dispatcher/enqueue.py:77-107 | A direct enqueue keeps its lane's in-flight limit if and only if there was room. |
| Caps.BudgetRefusalExact | control/scheduler/budgets.py:69-77 | A budget refusal was unnecessary for the cap if and only if the task was a waiting retry. |
| Caps.RetryStarvesAtFullBudget | control/scheduler/budgets.py:69-77 | At a full budget a retry stays in RETRY_WAIT for as long as nothing leaves the job's spend on that lane. |
| Backpressure.BackpressureGate.Update | control/scheduler/backpressure.py:24-34 | The hysteresis update of the gate's one field. |
| Backpressure.GateClosedForm | control/scheduler/backpressure.py:24-34 | Fetching is paused if and only if some reading hit a high mark and no later one released the gate. |
| Backpressure.LowReleasesExact | control/scheduler/backpressure.py:31-34 | Readings at or below all low marks always release the gate if and only if every low mark lies below its high mark. |
| Backpressure.AdmitAllKeepsMeasure | control/scheduler/backpressure.py:15 | Admissions leave every downstream backlog count unchanged. |
| Backlogs.BacklogConserved | control/scheduler/backpressure.py:15 | In every disciplined run a lane's measured backlog grows by exactly the tasks added and shrinks by exactly those that ended. |
| Backlogs.MeasureByEvents | control/scheduler/backpressure.py:15 | From an empty table the three measured levels are the tasks added less those that ended. |
| Backpressure.CachedBackpressureExact | control/scheduler/admit.py:224-241 | The state measured at the start of a tick equals a fresh measurement at every point of it. |
| Dependencies.AdmittedAfterDependencies | control/scheduler/admit.py:132-136 | A task that left PENDING was admitted at a step where each dependency had succeeded. |
| Dependencies.DependencySucceedsFirst | control/scheduler/admit.py:40-56 | Each dependency's success is an earlier event of the run than its dependent's admission. |
| Dependencies.AcyclicMakesProgress | control/scheduler/dependencies.py:22-49 | With acyclic dependencies and nothing but PENDING and SUCCEEDED tasks, a PENDING task implies a candidate. |
| Dependencies.DeadlockExact | control/scheduler/dependencies.py:22-49 | A table can stall that way if and only if its dependencies have a cycle. |
| Dependencies.CycleNeverStarts | control/scheduler/admit.py:135-136 | No disciplined run admits a task of a PENDING dependency cycle. |
| Retries.AttemptsFollowReports | control/retries/handle.py:126-138 | The attempt and state of an always-failing task are a function of the number of its reported failures. |
| Retries.DeadLetterExact | control/retries/handle.py:126-138 | It is dead-lettered if and only if exactly max/2 + 1 failures were reported, and never more are. |
| Retries.AttemptLimitExact | control/scheduler/admit.py:154 | A dead-lettered task used as many attempts as its limit names if and only if the limit is one or two. |
| Retries.RetryDelayExact | control/retries/handle.py:182-189 | In any run the k-th failure, if it backs off, leaves the task waiting for a delay of attempt 2k, which is the k-th of the schedule if and only if that one is at the ceiling. |
| Backoff.DelayGrowsExact | control/retries/backoff.py:11-28 | Whatever the jitter draws, the next delay is longer if and only if the raw delay is under three fifths of the ceiling. |
| Backoff.SkippedStepExact | control/retries/backoff.py:23-26 | Doubling the attempt leaves the raw delay unchanged if and only if it is at the ceiling already. |
| RetryTimes.Schedules | control/retries/settings.py:23-43 | The delays before jitter, attempt by attempt: 2, 4, 8, 16, 32 for http, 5, 10, 20, 40, 45 for browser and 1, 2, 4, 8, 16, 30 for extract, the last from then on. |
| RetryTimes.SharedSchedules | control/retries/settings.py:23-43 | Enrich and index share the extract schedule, all other lanes the http one. |
| ControlPlane.Plane.EnqueueReadyTask | control/dispatcher/enqueue.py:49-125 | Task and outbox row are written together, or on an unknown lane or a constraint violation neither is. |
| ControlPlane.Plane.AdmitTask | control/scheduler/admit.py:86-213 | The gates in their order, an unknown job, a budget without the lane's field and a lane without stream among them, then the READY update with its attempt bump and the outbox row. |
| ControlPlane.Plane.AcquireLease | control/leases/acquire.py:19-59 | A READY or expired task is leased under a new generation; any other is left alone. |
| ControlPlane.Plane.RefreshLease | control/leases/heartbeat.py:19-53 | Only the unexpired current owner extends its lease. |
| ControlPlane.Plane.UpdateTaskFenced | control/leases/fencing.py:14-56 | The write happens only under the current token; otherwise it is reported stale. |
| ControlPlane.Plane.ReclaimExpiredLeases | control/leases/reaper.py:8-40 | The earliest-expired leases, at most the limit, go back to READY without owner or expiry. |
| ControlPlane.Plane.HandleTaskFailure | control/retries/handle.py:81-212 | Block, give up, dead-letter or retry at that time, with the breaker of that route alone moved, and only on a retry. |
| ControlPlane.PlanRetry | control/retries/handle.py:140-188 | The failure is reported to the route's breaker; where a request then passes the task waits for the delay, on an open route until the first moment one will, and on a wedged one for the cooldown it had. |
| ControlPlane.Plane.SetTerminalState | control/retries/handle.py:40-55 | The unfenced terminal write. |
| ControlPlane.Plane.SetRetryWaitState | control/retries/handle.py:58-78 | The unfenced retry write: lease cleared, generation raised, retry time and attempt set. |
| ControlPlane.Plane.PublishOutboxEvent | control/dispatcher/publish.py:41-68 | An unpublished row is appended to its stream and marked; any other is a no-op. |
| ControlPlane.Plane.PublishPendingOutbox | control/dispatcher/publish.py:71-102 | The loop performs the publish pass that PublishPassExact describes. |
| ControlPlane.Plane.StreamContainsEvent | control/dispatcher/republish.py:12-19 | True if and only if some message of the row's stream carries its id. |
| ControlPlane.Plane.RepublishMissingStreamMessages | control/dispatcher/republish.py:22-51 | The loop performs the republish pass that RepublishRestoresExact describes. |
| ControlPlane.Plane.FetchAdmissionCandidates | control/scheduler/dependencies.py:10-61 | The result lists exactly the eligible tasks of the lane, each once, ordered by priority, creation and id. |
| Eligibility.NothingEarly | control/scheduler/dependencies.py:28-43 | No result lists a task that is neither PENDING nor waiting for a retry, nor one before its retry or hold time. |
| Eligibility.DueRetryListed | control/scheduler/dependencies.py:39-43 | Every retry that is due is listed. |
| Eligibility.DuePendingListed | control/scheduler/dependencies.py:29-38 | A PENDING task past its hold is listed if and only if every dependency in the table has succeeded. |
| Eligibility.ListedInOrder | control/scheduler/dependencies.py:46 | The result is ordered by priority, then creation, then id, on the tasks' own columns. |
| Eligibility.CarriesColumns | control/scheduler/dependencies.py:24-60 | Each entry carries its task's columns, and a lane filter lets only that lane through. |
| Eligibility.WaitsItsTime | control/scheduler/dependencies.py:30-42 | In runs that admit what the query lists, a held or retried task stays as it is until a step at or after its time makes it READY. |
| Eligibility.RetryWaitsItsTime | control/retries/handle.py:58-78 | There a task sent to wait for a retry becomes READY only at or after the retry time it was given. |
| ControlPlane.AdmitEach | control/scheduler/admit.py:229-241 | Each pick is tried after the ones before it, up to the first that raises; if none does, the two lists hold the admitted and the denied in order. |
| ControlPlane.RunAdmissionTick | control/scheduler/admit.py:216-247 | A tick measures once, fetches the candidates, picks a fair batch and admits from it, and returns or ends in the error raised at a pick. |
| ControlPlane.RaisedStays | control/scheduler/admit.py:231-237 | Nothing after the first raised error is tried. |
| Ticks.CandidateListUnique | control/scheduler/dependencies.py:46 | The candidate query has exactly one answer. |
| Ticks.TickKeepsCaps | control/scheduler/admit.py:229-241 | A tick, finished or aborted, takes no job over its budget and no lane over its limit. |
| Ticks.SelectedAreCandidates | control/scheduler/admit.py:226-227 | The picks of a tick are distinct eligible tasks. |
| Ticks.RefusalExact | control/scheduler/admit.py:132-160 | A pick is never refused as missing, in the wrong state or waiting for dependencies, and raises if and only if its lane has no stream, or is open and budgeted and its job unknown or without that field in its budget, when the tick starts. |
| Ticks.TickReturnsExact | control/scheduler/admit.py:229-247 | A tick returns if and only if it has no such pick. |
| Ticks.TickEffect | control/scheduler/admit.py:229-247 | In a tick that returns every pick is admitted or denied; the admitted are promoted, none a fetch task while paused, the new outbox rows are theirs in order with attempt and stream, and all else is untouched. |
| Picks.AdmittedExact | control/scheduler/admit.py:229-241 | A tick that returns has admitted exactly the picks that fit, counted from the starting table and the picks before them that fit. |
| Picks.PickAdmittedExact | control/scheduler/admit.py:139-152 | A pick is admitted if and only if it is no paused fetch task, its job's spend plus the earlier admitted pending picks of that job and lane is under budget, and its lane's flight plus the earlier admitted picks is under the limit. |
| Picks.AdmittedComeFirst | control/scheduler/admit.py:146-152 | Of a job's picks on a lane, retries among them, the admitted are the first ones. |
| Ticks.TickAborts | control/scheduler/budgets.py:67-68 | A tick with such a pick ends at the first one: the picks before it are handled as usual, and it and all after it stay untouched. |
| Ticks.AfterTickExact | db/repositories/connection.py:52-54 | On a connection that does not commit by itself a tick has the effect of its whole batch if no pick raises, and none at all otherwise. |
| Blocking.PartialBudgetAborts | control/scheduler/budgets.py:67-68 | A stored budget that names the search lane only makes the first eligible http task of its job abort the tick. |
| Ticks.TickTriesItsBatch | control/scheduler/admit.py:243-247 | A tick returns, with min(limit, candidates) admitted or denied in all, if and only if no pick raises. |
| Blocking.UnadmittableNeverMoves | control/dispatcher/streams.py:41-42 | In no disciplined run does a waiting task of an unknown lane, or of a lane its job has no budget for, change. |
| Blocking.UnadmittableStaysCandidate | control/scheduler/dependencies.py:22-49 | Once eligible it stays eligible in every disciplined run. |
| Blocking.UnadmittableStarves | control/scheduler/admit.py:231-241 | In every later table it aborts each tick that picks it while its lane is open and starves every pick ordered after it; picked first, it makes the tick a no-op. |
| Blocking.UnadmittableBlocksAll | control/api/deps.py:13-22 | Where the caller commits, each such tick changes nothing, wherever the task stands in the batch. |
| Ticks.AdmitAllIsRun | control/scheduler/admit.py:231-237 | A tick's admissions are a run of single steps, so everything proved of runs holds of ticks. |
| Lanes.StreamForExact | control/dispatcher/streams.py:24-45 | Only unknown lanes have no stream, and which tier each lane and priority resolves to. |
| Normalize.RankInUnitExact | signal_engine/normalize.py:69-80 | A rank lies in [0, 1] if and only if not every cohort member is below the value. |
| Normalize.ClipIsMember | signal_engine/normalize.py:57-66 | Clipping a cohort member gives a cohort member. |
| ClipMarks.ClipsAtPercents | signal_engine/normalize.py:57-66 | A value is kept between the members at 5% and 95% of the cohort, found by counting, and clipped to them outside. |
| ClipMarks.PercentUnique | signal_engine/normalize.py:61-65 | The counts determine the two marks. |
| Normalize.ScoreInUnit | guards/runtime_guards.py:59-69 | For every cohort and raw value the score is in [0, 1], so guard 11's range check never fires. |
| Normalize.DirectionIsReflection | signal_engine/normalize.py:83-92 | Inverting a member's score equals ranking its negative in the negated cohort. |
| Normalize.RanksSumToHalf | signal_engine/normalize.py:69-80 | The ranks of a whole cohort sum to half its size. |
| Normalize.WinsAreShared | signal_engine/normalize.py:77-79 | Over two cohorts the pairwise wins of both sides add up to two points a pair. |
| Normalize.FixedCohortMonotone | signal_engine/normalize.py:146-147 | Against one fixed cohort a larger value never gets a smaller rank after clipping. |
| Normalize.MembersMonotone | signal_engine/normalize.py:142-152 | Over cohort members scores follow the raw values, and go against them for negative metrics. |
| Outsiders.ClipOfOutsider | signal_engine/normalize.py:57-66 | A value outside the cohort is clipped to the sorted member at the high or low mark, or kept, by how many members lie below it. |
| Outsiders.ScoreIsMarks | signal_engine/normalize.py:142-152 | The score of any raw value, member or not, as a fraction read off the given cohort alone. |
| Outsiders.ScoreOrderExact | signal_engine/normalize.py:142-147 | Any two raw values are scored in order if and only if those fractions are. |
| ScoreOrder.AboveAllScore | signal_engine/normalize.py:142-147 | Every value above all members gets one and the same score, that of the member at the high mark. |
| ScoreOrder.AboveAllExact | signal_engine/normalize.py:57-66 | It is no lower than the top member's if and only if the high marks of the cohort with and without it fall on different members. |
| ScoreOrder.BelowAllScore | signal_engine/normalize.py:142-147 | Every value below all members gets one and the same score: zero under twenty members, else that of the member at the low mark with itself counted. |
| ScoreOrder.BelowAllExact | signal_engine/normalize.py:57-66 | It is no higher than the bottom member's if and only if there are fewer than twenty members or the low marks fall on different ones. |
| ScoreOrder.EveryCohortMisorders | signal_engine/normalize.py:142-147 | Every nonempty cohort scores some value out of order with its largest member. |
| ScoreOrder.AlwaysInOrderExact | signal_engine/normalize.py:142-147 | All raw values are scored in order if and only if the cohort is empty. |
| ScoreOrder.KeptInOrder | signal_engine/normalize.py:57-80 | Any two values that are not clipped, members or not, are scored in order. |
| ScoreOrder.OutliersOfOnes | signal_engine/normalize.py:142-147 | Against twenty-five ones, 0 scores 0.52, 1 scores 0.5 and 2 scores 0.48. |
| Coverage.CoverageGrid.UpsertSignal | signal_engine/coverage.py:69-121 | The refusals in order, the one cell an accepted signal may change, and that the result says whether it did. |
| Coverage.BuildGridFromSignals | signal_engine/coverage.py:140-153 | The grid of the whole list, or the error of the first refused signal. |
| CoverageTheorems.BuildIsDirect | signal_engine/coverage.py:86-121 | Each cell holds the maximum confidence of its signals and exactly the ids attaining it, sorted and once each. |
| CoverageTheorems.CellIsOrderFree | signal_engine/coverage.py:69-121 | A cell depends on neither the order nor the repetition of the signals. |
| CoverageSignals.IdsInOrder | signal_engine/coverage.py:110-121 | The ids of a cell stand in string order, once each. |
| CoverageSignals.CellsStamped | signal_engine/coverage.py:89-121 | Every cell of a build carries the time of the build. |
| CoverageSignals.StampExact | signal_engine/coverage.py:86-121 | A signal leaves every other cell alone, and stamps its own cell anew and is named in it if and only if it is more confident, or as confident and not named yet. |
| CoverageTheorems.GateOpensExact | signal_engine/coverage.py:206-261 | Scoring opens if and only if hard coverage is met, and fully if and only if nothing is lacking. |
| CoverageTheorems.GapsReportedExact | signal_engine/coverage.py:168-261 | The gate reports a kind if and only if it falls short and either hard coverage is met or the deadline is reached. |
| CoverageSignals.GateOnSignals | signal_engine/coverage.py:156-261 | On an accepted list scoring opens if and only if demand and pain each have a confident enough open or defended signal, and fully if and only if growth, competition and content each have one from any tier. |
| CoverageSignals.GapsOnSignals | signal_engine/coverage.py:168-261 | The gate names exactly the kinds without such a signal, once it is open or at the deadline. |
| CoverageSignals.BuildExact | signal_engine/coverage.py:69-85 | A list is accepted if and only if each signal is of the niche, with a source object, a known kind and a known tier; otherwise the error is the first failed check of the first bad signal. |
| CoverageTheorems.MoreSignalsNeverClose | signal_engine/coverage.py:156-261 | Adding signals never lowers the gate. |
| CoverageTheorems.NeverHostileDependent | signal_engine/tiers.py:71-93 | No list of signals is ever found hostile-dependent. |
| CoverageSignals.WithoutHostileExact | signal_engine/tiers.py:58-68 | Dropping the hostile tier drops exactly the hostile signals. |
| CoverageTheorems.SelectBestSignals | signal_engine/score.py:163-180 | For each known kind present a signal is chosen that no other beats on confidence, then on smaller id. |
| CoverageSignals.ChosenExact | signal_engine/score.py:163-180 | The chosen signal of a kind is the most confident, and of those the one with the smallest id. |
| CoverageTheorems.SelectionMatchesGrid | signal_engine/score.py:163-180 | The chosen signal is as confident as the grid's best over all tiers, which is zero when none is chosen. |

## Assumptions

- One scheduler. The source locks only the task row, so two schedulers could both pass a count.
- Disciplined workers, where a theorem says so: the holder of a token writes RUNNING or a terminal state, and failures
  are reported, only while the task is leased or running; writes with a stale token are allowed at any time. The failure
  writes themselves are not fenced in the source (`control/retries/handle.py:40-78`), and the model keeps them so.
- Who commits: `Ticks.TickAborts` and `Blocking.UnadmittableStarves` describe a tick whose admissions commit one by one, as
  on an autocommit connection. The repository's connections are not (`db/repositories/connection.py:52-54`): there the
  caller commits or rolls back the whole tick (`control/api/deps.py:13-22`), which `Ticks.AfterTickExact` and
  `Blocking.UnadmittableBlocksAll` describe.
- Poll weights are at least one. With a zero weight the credit loop could idle forever.
- Cooldown steps are not empty; the source indexes them.
- Confidences lie in [0, 1], where a lemma says so.
- At most one lineage row for a (child, parent) pair, as the table's unique constraint has it, and one snapshot per diff.

## Left out

- `requeue_dead_letter` resets the lease generation, so tokens are compared only between requeues.
- `insert_task_idempotent`, the media worker's circuit-open path and the workers' stream-name overwrites: they sidestep the invariants above.
- Consumer groups and acknowledgements: no consumer loop is part of this model, so nothing is claimed about redelivery after a reap.
- Concurrent schedulers, publishers and reapers: `FOR UPDATE SKIP LOCKED` is modelled as a plain selection.
- SQL, Redis, HTTP, file and model-gateway input and output; tables and streams are maps and sequences.
- Bookkeeping columns: heartbeat, completion and update times, provenance, trace parents, result artifact ids and extra columns of a fenced update.
- Event ids are outbox positions and outbox order is insertion order; sequence gaps are not modelled.
- A budget field is the integer the source's conversion makes of the stored value, or missing where that fails.
- Text order is code-point order, as in Python; a database collation may differ.
- ControlPlane.Plane.EnqueueReadyTask: the payload's creation time is the row's; the source may take the two from different clocks.
- ControlPlane.Plane.HandleTaskFailure: the classification's action and whether the failure counts for the breaker are inputs, and the drawn delay is an input in whole clock units; the degradation event is not built.
- Fairness.SelectFairBatch: the credit table, queues and selection are one value updated in the loop; proportional share is not claimed, being false.
- Lineage.TraceAncestors: nodes and edges are maps, not sorted tuples, and node metadata and the lookup of a root's kind are left out.
- LineageTheorems.DiffLineage: the parts are sets of keys, not sorted tuples of dictionaries.
- Replay.VersionPinsForLeaf: pin keys are node pairs; the source joins kinds and ids into one string, which could collide for ids holding the separators.
- Normalize.ScoreInUnit: over exact reals; the winsorising indices are the exact 5% and 95% of the index range, which the source computes in floating point.
- Retries.RetryDelayExact: waits are whole clock units inside the range of the jitter draw; rounding to the clock is not modelled, and a retry deferred to a breaker's cooldown does not back off.
- Backoff.DelayGrowsExact: over exact reals, with the draw as an input.
- CoverageTheorems.GateOpensExact: gap reasons are text and are left out, as is parsing the deadline.
- Geometric means, confidence decay, rounding and rendering of scores: transcendental or floating-point.
- Phase and pressure tables, failure classification, command line, CSV store, dossier text, prompts, schema checks and static lint: finite tables, text or wrapped libraries.
- Snapshots and degradation events of breakers: read-only records.
