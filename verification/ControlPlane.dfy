/** The control plane as the mutable store its functions update: one method per source function. */
module ControlPlane {
  import opened Ordering
  import opened Wrappers
  import opened Lanes
  import opened World
  import Circuit
  import Fairness
  import Outbox
  import Backpressure
  import Dependencies

  /** The ORDER BY key of the candidate query. */
  function QueryKey(c: Fairness.Candidate): Key {
    Key(c.priority, c.created, c.task)
  }

  function CandidateOf(t: TaskId, task: Task): Fairness.Candidate {
    Fairness.Candidate(t, task.job, task.lane, task.priority, task.createdAt)
  }

  predicate Wanted(cfg: Config, w: World, lane: Option<Lane>, t: TaskId) {
    Dependencies.IsCandidate(cfg, w, t) && (lane.None? || w.tasks[t].lane == lane.value)
  }

  /** A result of the candidate query: each wanted task once, in query order. */
  ghost predicate IsCandidateList(cfg: Config, w: World, lane: Option<Lane>, cs: seq<Fairness.Candidate>) {
    && Sorted(QueryKey, cs)
    && DistinctTasks(cs)
    && (forall c :: c in cs <==> Wanted(cfg, w, lane, c.task) && c == CandidateOf(c.task, w.tasks[c.task]))
  }

  /** A reaper selection: the earliest-expired leases, at most `limit` of them. */
  predicate IsReapSelection(w: World, ids: seq<TaskId>, limit: nat) {
    && (forall i, j :: 0 <= i < j < |ids| ==> ids[i] != ids[j])
    && (forall t :: t in ids ==> t in ExpiredTasks(w))
    && (|ids| < limit ==> forall t :: t in ExpiredTasks(w) ==> t in ids)
    && |ids| <= limit
    && (forall t, u :: t in ids && u in ExpiredTasks(w) && u !in ids ==>
          w.tasks[t].expires.value <= w.tasks[u].expires.value)
  }

  /**
   * The breaker took the failure, if it counts, and was asked: where it lets a request pass the task waits for the
   * delay, where it is open until the first moment it will, and where it is half-open without a probe for the cooldown
   * it had.
   */
  ghost predicate Planned(config: Circuit.Config, route: string, before: Circuit.Breaker, counts: bool, time: int,
                          delay: int, after: Circuit.Breaker, retryAt: int)
  {
    var setup := Circuit.SetupFor(route, config);
    && setup.steps != [] && |before.recent| <= config.window
    && after == Circuit.Ask(if counts then Circuit.Fail(setup, before, time).0 else before, time).0
    && (Circuit.Ask(after, time).1 ==> retryAt == time + delay)
    && (after.mode.Open? ==> forall s :: Circuit.Ask(after, s).1 <==> s >= retryAt)
    && (!Circuit.Ask(after, time).1 ==> after.cooldownUntil == Some(retryAt))
  }

  /** Report the failure to the route's breaker and pick the retry time: the end of its cooldown, or the backoff. */
  method PlanRetry(circuits: Circuit.CircuitRegistry, route: string, counts: bool, time: int, delay: int)
    returns (retryAt: int)
    requires circuits.Valid()
    modifies circuits, circuits.circuits.Values
    ensures circuits.Valid() && fresh(circuits.circuits.Values - old(circuits.circuits.Values))
    ensures Planned(circuits.config, route, old(circuits.At(route)), counts, time, delay, circuits.At(route), retryAt)
    ensures forall r :: r != route ==> circuits.At(r) == old(circuits.At(r))
  {
    ghost var before := circuits.At(route);
    if counts {
      var _ := circuits.RecordFailure(route, time);
    }
    ghost var recorded := circuits.At(route);
    var allowed := circuits.AllowRequest(route, time);
    ghost var after := circuits.At(route);
    var circuit := circuits.Get(route);
    retryAt := if !allowed && circuit.cooldownUntil.Some? then circuit.cooldownUntil.value else time + delay;
    PlanFollows(circuits.config, route, before, counts, time, delay, recorded, after, allowed, retryAt);
  }

  lemma PlanFollows(config: Circuit.Config, route: string, before: Circuit.Breaker, counts: bool, time: int, delay: int,
                    recorded: Circuit.Breaker, after: Circuit.Breaker, allowed: bool, retryAt: int)
    requires Circuit.SetupFor(route, config).steps != [] && |before.recent| <= config.window
    requires recorded == if counts then Circuit.Fail(Circuit.SetupFor(route, config), before, time).0 else before
    requires (after, allowed) == Circuit.Ask(recorded, time)
    requires after.mode != Circuit.Closed ==> after.cooldownUntil.Some?
    requires retryAt == if !allowed && after.cooldownUntil.Some? then after.cooldownUntil.value else time + delay
    ensures Planned(config, route, before, counts, time, delay, after, retryAt)
  {
  }

  class Plane {
    const cfg: Config
    var tasks: map<TaskId, Task>
    var outbox: seq<Row>
    var streams: map<Stream, seq<Message>>
    var now: int

    function View(): World
      reads this
    {
      World(tasks, outbox, streams, now)
    }

    constructor (cfg: Config)
      ensures this.cfg == cfg && View() == World(map[], [], map[], 0)
    {
      this.cfg := cfg;
      tasks, outbox, streams, now := map[], [], map[], 0;
    }

    method EnqueueReadyTask(t: TaskId, task: Task) returns (outcome: EnqueueOutcome)
      modifies this
      ensures (View(), outcome) == Enqueue(cfg, old(View()), t, task)
    {
      match StreamFor(task.lane, task.priority)
      case None => outcome := UnknownLane;
      case Some(stream) =>
        if !Insertable(cfg, View(), t, task) {
          return ConstraintViolation;
        }
        var ready := task.(state := Ready);
        outcome := Enqueued(|outbox|, stream);
        tasks := tasks[t := ready];
        outbox := outbox + [Row(t, stream, PayloadOf(t, ready), false)];
    }

    method AdmitTask(t: TaskId, paused: bool) returns (outcome: AdmitOutcome)
      modifies this
      ensures (View(), outcome) == Admit(cfg, old(View()), t, paused)
    {
      if t !in tasks {
        return TaskNotFound;
      }
      var task := tasks[t];
      if task.state != Pending && task.state != RetryWait {
        return WrongState;
      }
      if task.state == Pending && !DepsSatisfied(cfg, View(), t) {
        return DependenciesUnsatisfied;
      }
      if IsFetchLane(task.lane) && paused {
        return BackpressurePaused;
      }
      if Budgeted(task.lane) {
        if task.job !in cfg.budgets {
          return UnknownJob;
        }
        if BudgetField(cfg.budgets[task.job], task.lane).None? {
          return NoBudgetField;
        }
        if LaneSpend(View(), task.job, task.lane) >= BudgetField(cfg.budgets[task.job], task.lane).value {
          return BudgetExhausted;
        }
      }
      var limit := InFlightLimit(cfg.limits, task.lane);
      if limit.Some? && LaneInFlight(View(), task.lane) >= limit.value {
        return MaxInFlightExceeded;
      }
      var nextAttempt := if task.state == RetryWait then task.attempt + 1 else task.attempt;
      var stream := StreamFor(task.lane, task.priority);
      if stream.None? {
        return NoStream;
      }
      var ready := task.(state := Ready, attempt := nextAttempt, retryAt := None);
      outcome := Admitted(|outbox|, stream.value);
      tasks := tasks[t := ready];
      outbox := outbox + [Row(t, stream.value, PayloadOf(t, ready), false)];
    }

    method AcquireLease(t: TaskId, worker: WorkerId, duration: int) returns (grant: Option<Grant>)
      modifies this
      ensures (View(), grant) == Acquire(old(View()), t, worker, duration)
    {
      if t !in tasks {
        return None;
      }
      var task := tasks[t];
      if task.state != Ready
         && !((task.state == Leased || task.state == Running) && task.expires.Some? && task.expires.value < now) {
        return None;
      }
      tasks := tasks[t := task.(state := Leased, owner := Some(worker), generation := task.generation + 1,
                                expires := Some(now + duration))];
      grant := Some(Grant(worker, tasks[t].generation, now + duration));
    }

    method RefreshLease(t: TaskId, worker: WorkerId, generation: int, duration: int) returns (until: Option<int>)
      modifies this
      ensures (View(), until) == Heartbeat(old(View()), t, worker, generation, duration)
    {
      if t !in tasks {
        return None;
      }
      var task := tasks[t];
      if task.owner != Some(worker) || task.generation != generation
         || (task.state != Leased && task.state != Running) || task.expires.None? || task.expires.value < now {
        return None;
      }
      tasks := tasks[t := task.(expires := Some(now + duration))];
      until := Some(now + duration);
    }

    method UpdateTaskFenced(t: TaskId, worker: WorkerId, generation: int, state: State) returns (ok: bool)
      modifies this
      ensures (View(), ok) == FencedUpdate(old(View()), t, worker, generation, state)
    {
      if t !in tasks || tasks[t].owner != Some(worker) || tasks[t].generation != generation {
        return false;
      }
      tasks := tasks[t := tasks[t].(state := state)];
      ok := true;
    }

    /** The expired task whose lease ran out first. */
    method EarliestExpired(rest: set<TaskId>) returns (first: TaskId)
      requires rest != {} && rest <= ExpiredTasks(View())
      ensures first in rest
      ensures forall t :: t in rest ==> tasks[first].expires.value <= tasks[t].expires.value
    {
      first :| first in rest;
      var others := rest - {first};
      while others != {}
        invariant others <= rest && first in rest - others
        invariant forall t :: t in rest - others ==> tasks[first].expires.value <= tasks[t].expires.value
        decreases others
      {
        var t :| t in others;
        if tasks[t].expires.value < tasks[first].expires.value {
          first := t;
        }
        others := others - {t};
      }
    }

    method ReclaimExpiredLeases(limit: nat) returns (ids: seq<TaskId>)
      modifies this
      ensures IsReapSelection(old(View()), ids, limit)
      ensures View() == Reap(old(View()), set t | t in ids)
    {
      ghost var w := View();
      var rest := ExpiredTasks(View());
      ids := [];
      while |ids| < limit && rest != {}
        invariant View() == w && |ids| <= limit
        invariant forall t :: t in ExpiredTasks(w) <==> t in rest || t in ids
        invariant forall t :: t in ids ==> t !in rest
        invariant forall i, j :: 0 <= i < j < |ids| ==> ids[i] != ids[j]
        invariant forall t, u :: t in ids && u in rest ==> tasks[t].expires.value <= tasks[u].expires.value
        decreases rest
      {
        var first := EarliestExpired(rest);
        ids := ids + [first];
        rest := rest - {first};
      }
      tasks := map t | t in tasks :: if t in ids then tasks[t].(state := Ready, owner := None, expires := None)
          else tasks[t];
    }

    /** `handle_task_failure` after classification; `delay` is the backoff drawn for the next attempt. */
    method HandleTaskFailure(t: TaskId, route: string, action: FailureAction, counts: bool, attempt: int,
                             maxAttempts: int, circuits: Circuit.CircuitRegistry, time: int, delay: int)
      returns (outcome: FailureOutcome, retryAt: int)
      requires circuits.Valid()
      modifies this, circuits, circuits.circuits.Values
      ensures circuits.Valid() && fresh(circuits.circuits.Values - old(circuits.circuits.Values))
      ensures (View(), outcome) == ReportFailure(old(View()), t, action, attempt, maxAttempts, retryAt)
      ensures !outcome.WillRetry? ==> forall r :: circuits.At(r) == old(circuits.At(r))
      ensures outcome.WillRetry? ==>
                && Planned(circuits.config, route, old(circuits.At(route)), counts, time, delay,
                           circuits.At(route), retryAt)
                && forall r :: r != route ==> circuits.At(r) == old(circuits.At(r))
    {
      retryAt := time + delay;
      match action
      case Block =>
        SetTerminalState(t, Blocked);
        outcome := WasBlocked;
      case GiveUp =>
        SetTerminalState(t, Failed);
        outcome := WasFailed;
      case Retry =>
        var nextAttempt := attempt + 1;
        if nextAttempt > maxAttempts {
          if t !in tasks {
            return LookupError, retryAt;
          }
          SetTerminalState(t, DeadLetter);
          return WasDeadLettered, retryAt;
        }
        retryAt := PlanRetry(circuits, route, counts, time, delay);
        SetRetryWaitState(t, retryAt, nextAttempt);
        outcome := WillRetry(nextAttempt);
    }

    method SetTerminalState(t: TaskId, state: State)
      modifies this
      ensures View() == SetState(old(View()), t, state)
    {
      if t in tasks {
        tasks := tasks[t := tasks[t].(state := state)];
      }
    }

    method SetRetryWaitState(t: TaskId, retryAt: int, attempt: int)
      modifies this
      ensures View() == SetRetryWait(old(View()), t, retryAt, attempt)
    {
      if t in tasks {
        var task := tasks[t];
        tasks := tasks[t := task.(state := RetryWait, retryAt := Some(retryAt), attempt := attempt, owner := None,
                                  generation := task.generation + 1, expires := None)];
      }
    }

    method PublishOutboxEvent(i: nat) returns (ok: bool)
      modifies this
      ensures (View(), ok) == PublishRow(old(View()), i)
    {
      if i >= |outbox| || outbox[i].published {
        return false;
      }
      streams := XAdd(streams, outbox[i].stream, Message(i, outbox[i].payload));
      outbox := outbox[i := outbox[i].(published := true)];
      ok := true;
    }

    method PublishPendingOutbox(batch: nat) returns (published: nat)
      modifies this
      ensures (View(), published) == Outbox.PublishPass(old(View()), batch)
    {
      ghost var w := View();
      var rows := Outbox.Take(Outbox.UnpublishedIds(outbox, |outbox|), batch);
      published := 0;
      for k := 0 to |rows|
        invariant (View(), published) == Outbox.PublishAll(w, rows[..k])
      {
        assert rows[..k + 1][..k] == rows[..k];
        var ok := PublishOutboxEvent(rows[k]);
        if ok {
          published := published + 1;
        }
      }
      assert rows[..|rows|] == rows;
    }

    method StreamContainsEvent(i: nat) returns (found: bool)
      requires i < |outbox|
      ensures found == InStream(View(), i)
    {
      var messages := StreamOf(streams, outbox[i].stream);
      for k := 0 to |messages|
        invariant forall j :: 0 <= j < k ==> messages[j].event != i
      {
        if messages[k].event == i {
          return true;
        }
      }
      found := false;
    }

    method RepublishMissingStreamMessages(batch: nat) returns (republished: nat)
      modifies this
      ensures (View(), republished) == Outbox.RepublishPass(old(View()), batch)
    {
      ghost var w := View();
      var rows := Outbox.Take(Outbox.RepublishableIds(View(), |outbox|), batch);
      Outbox.TakenIds(w, batch, rows);
      republished := 0;
      for k := 0 to |rows|
        invariant (View(), republished) == Outbox.RepublishAll(w, rows[..k])
        invariant outbox == w.outbox
      {
        Outbox.RepublishNext(w, rows, k);
        var present := StreamContainsEvent(rows[k]);
        if !present {
          streams := XAdd(streams, outbox[rows[k]].stream, Message(rows[k], outbox[rows[k]].payload));
          republished := republished + 1;
        }
      }
      assert rows[..|rows|] == rows;
    }

    method FetchAdmissionCandidates(lane: Option<Lane>) returns (cs: seq<Fairness.Candidate>)
      ensures IsCandidateList(cfg, View(), lane, cs)
    {
      var wanted := set t | t in tasks && Wanted(cfg, View(), lane, t);
      var rest := wanted;
      cs := [];
      while rest != {}
        invariant rest <= wanted && Sorted(QueryKey, cs)
        invariant forall c :: c in cs <==> c.task in wanted - rest && c == CandidateOf(c.task, tasks[c.task])
        invariant DistinctTasks(cs)
        decreases rest
      {
        var t :| t in rest;
        var c := CandidateOf(t, tasks[t]);
        InsertDistinct(cs, c);
        InsertMembers(QueryKey, cs, c);
        cs := Insert(QueryKey, cs, c);
        rest := rest - {t};
      }
    }
  }

  // ---- Admission ticks ----------------------------------------------------------

  function TaskIds(cs: seq<Fairness.Candidate>): (ts: seq<TaskId>)
    ensures |ts| == |cs| && forall i :: 0 <= i < |cs| ==> ts[i] == cs[i].task
  {
    seq(|cs|, i requires 0 <= i < |cs| => cs[i].task)
  }

  /** `admit_task` raises instead of answering: unknown job or no such field in the budget check, or no stream. */
  predicate Raises(outcome: AdmitOutcome) {
    outcome.UnknownJob? || outcome.NoBudgetField? || outcome.NoStream?
  }

  /** How a tick ended: with its two result lists, or with the error raised at a pick, which nothing catches. */
  datatype TickResult = Returned(admitted: seq<TaskId>, denied: seq<TaskId>) | Raised(pick: TaskId)

  /** Try to admit each of `ts` after the ones before it, up to the first that raises. */
  function TryAll(cfg: Config, w: World, ts: seq<TaskId>, paused: bool): (World, TickResult) {
    if ts == [] then (w, Returned([], []))
    else
      var (v, before) := TryAll(cfg, w, ts[..|ts| - 1], paused);
      if before.Raised? then (v, before)
      else
        var t := ts[|ts| - 1];
        var (u, outcome) := Admit(cfg, v, t, paused);
        (u, if Raises(outcome) then Raised(t)
            else if outcome.Admitted? then Returned(before.admitted + [t], before.denied)
            else Returned(before.admitted, before.denied + [t]))
  }

  /** What was raised stays raised, whatever would have followed. */
  lemma {:induction false} RaisedStays(cfg: Config, w: World, ts: seq<TaskId>, paused: bool, k: nat)
    requires k <= |ts| && TryAll(cfg, w, ts[..k], paused).1.Raised?
    ensures TryAll(cfg, w, ts, paused) == TryAll(cfg, w, ts[..k], paused)
    decreases |ts|
  {
    if k < |ts| {
      assert ts[..|ts| - 1][..k] == ts[..k];
      RaisedStays(cfg, w, ts[..|ts| - 1], paused, k);
    } else {
      assert ts[..k] == ts;
    }
  }

  /** The loop of a tick: try each pick in turn under the one measured backpressure state. */
  method AdmitEach(plane: Plane, ts: seq<TaskId>, paused: bool) returns (result: TickResult)
    modifies plane
    ensures (plane.View(), result) == TryAll(plane.cfg, old(plane.View()), ts, paused)
  {
    ghost var w := plane.View();
    var admitted: seq<TaskId>, denied: seq<TaskId> := [], [];
    for k := 0 to |ts|
      invariant (plane.View(), Returned(admitted, denied)) == TryAll(plane.cfg, w, ts[..k], paused)
    {
      assert ts[..k + 1][..k] == ts[..k];
      var outcome := plane.AdmitTask(ts[k], paused);
      if Raises(outcome) {
        RaisedStays(plane.cfg, w, ts, paused, k + 1);
        return Raised(ts[k]);
      }
      if outcome.Admitted? {
        admitted := admitted + [ts[k]];
      } else {
        denied := denied + [ts[k]];
      }
    }
    assert ts[..|ts|] == ts;
    result := Returned(admitted, denied);
  }

  /** One scheduler tick: measure, fetch the candidates, pick a fair batch, try to admit each pick. */
  method RunAdmissionTick(plane: Plane, weights: Fairness.PollWeights, limit: int, lane: Option<Lane>,
                          gate: Backpressure.BackpressureGate, marks: Backpressure.Watermarks)
    returns (candidates: seq<Fairness.Candidate>, selected: seq<Fairness.Candidate>, result: TickResult)
    requires weights.Positive()
    modifies plane, gate
    ensures gate.fetchPaused
            == Backpressure.GateUpdate(old(gate.fetchPaused), Backpressure.Measure(old(plane.View())), marks)
    ensures IsCandidateList(plane.cfg, old(plane.View()), lane, candidates)
    ensures selected == Fairness.FairBatch(weights, candidates, limit)
    ensures (plane.View(), result) == TryAll(plane.cfg, old(plane.View()), TaskIds(selected), gate.fetchPaused)
  {
    gate.Update(Backpressure.Measure(plane.View()), marks);
    candidates := plane.FetchAdmissionCandidates(lane);
    selected := Fairness.SelectFairBatch(weights, candidates, limit);
    result := AdmitEach(plane, TaskIds(selected), gate.fetchPaused);
  }

  ghost predicate DistinctTasks(cs: seq<Fairness.Candidate>) {
    forall i, j :: 0 <= i < j < |cs| ==> cs[i].task != cs[j].task
  }

  lemma DistinctSnoc(cs: seq<Fairness.Candidate>, c: Fairness.Candidate)
    requires DistinctTasks(cs) && forall x :: x in cs ==> x.task != c.task
    ensures DistinctTasks(cs + [c])
  {
    forall i | 0 <= i < |cs|
      ensures cs[i].task != c.task
    {
      assert cs[i] in cs;
    }
  }

  lemma DistinctFront(cs: seq<Fairness.Candidate>, front: seq<Fairness.Candidate>, last: Fairness.Candidate)
    requires DistinctTasks(cs) && cs == front + [last]
    ensures DistinctTasks(front) && forall x :: x in front ==> x in cs && x.task != last.task
  {
    assert forall i :: 0 <= i < |front| ==> front[i] == cs[i];
    forall x | x in front
      ensures x in cs && x.task != last.task
    {
      var k :| 0 <= k < |front| && front[k] == x;
      assert cs[k] == x && cs[|front|] == last;
    }
  }

  lemma {:induction false} InsertDistinct(cs: seq<Fairness.Candidate>, c: Fairness.Candidate)
    requires DistinctTasks(cs) && forall x :: x in cs ==> x.task != c.task
    ensures DistinctTasks(Insert(QueryKey, cs, c))
  {
    if cs != [] {
      var front, last := cs[..|cs| - 1], cs[|cs| - 1];
      if KeyLe(QueryKey(last), QueryKey(c)) {
        DistinctSnoc(cs, c);
      } else {
        DistinctFront(cs, front, last);
        InsertDistinct(front, c);
        InsertMembers(QueryKey, front, c);
        DistinctSnoc(Insert(QueryKey, front, c), last);
      }
    }
  }
}
