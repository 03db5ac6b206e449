/** Fencing tokens and leases over whole runs of the control plane. */
module Leases {
  import opened Wrappers
  import opened World

  /** The state one step leaves a given existing task in. */
  function NextTask(cfg: Config, w: World, op: Op, t: TaskId): Task
    requires t in w.tasks
  {
    var task := w.tasks[t];
    match op
    case OpAdmit(u, paused) => if u == t && Gate(cfg, w, t, paused).Admitted? then Promote(task) else task
    case OpAcquire(u, worker, duration) =>
      if u == t && (task.state.Ready? || Expired(task, w.now)) then
        task.(state := Leased, owner := Some(worker), generation := task.generation + 1,
            expires := Some(w.now + duration))
      else task
    case OpHeartbeat(u, worker, generation, duration) =>
      if u == t && Heartbeat(w, t, worker, generation, duration).1.Some? then task.(expires := Some(w.now + duration))
      else task
    case OpFenced(u, worker, generation, state) =>
      if u == t && Holds(w, t, worker, generation) then task.(state := state) else task
    case OpReport(u, action, attempt, maxAttempts, retryAt) =>
      if u != t then task
      else if action.Block? then task.(state := Blocked)
      else if action.GiveUp? then task.(state := Failed)
      else if attempt + 1 > maxAttempts then task.(state := DeadLetter)
      else task.(state := RetryWait, retryAt := Some(retryAt), attempt := attempt + 1, owner := None,
                 generation := task.generation + 1, expires := None)
    case OpReap(ids) => if t in ids && Expired(task, w.now) then Release(task) else task
    case _ => task
  }

  /** Every step moves each existing task exactly as `NextTask` says, and no step removes a task. */
  lemma ApplyIsNextTask(cfg: Config, w: World, op: Op, t: TaskId)
    requires t in w.tasks
    ensures t in Apply(cfg, w, op).tasks && Apply(cfg, w, op).tasks[t] == NextTask(cfg, w, op, t)
  {
  }

  /** A task the step adds: enqueued or inserted PENDING, without a lease. */
  lemma ApplyAddsFresh(cfg: Config, w: World, op: Op, t: TaskId)
    requires t !in w.tasks && t in Apply(cfg, w, op).tasks
    ensures var task := Apply(cfg, w, op).tasks[t];
            && (op.OpEnqueue? || op.OpAddPending?) && op.task == t && op.row.job in cfg.budgets
            && task == op.row.(state := if op.OpEnqueue? then Ready else Pending)
            && task.owner == None && task.expires == None && task.retryAt == None && task.generation == 0
            && task.attempt >= 1
  {
  }

  // ---- Fencing -----------------------------------------------------------------

  lemma GenerationGrows(cfg: Config, w: World, op: Op, t: TaskId)
    requires t in w.tasks
    ensures t in Apply(cfg, w, op).tasks && Apply(cfg, w, op).tasks[t].generation >= w.tasks[t].generation
  {
    ApplyIsNextTask(cfg, w, op, t);
  }

  /** The token is not ahead of the task: it may have been granted. */
  predicate Issued(w: World, t: TaskId, generation: int) {
    t in w.tasks && generation <= w.tasks[t].generation
  }

  /** What ends a held lease: a new grant, the reaper, or a retry. */
  predicate EndsLease(cfg: Config, w: World, op: Op, t: TaskId) {
    t in w.tasks &&
    match op
    case OpAcquire(u, _, _) => u == t && (w.tasks[t].state.Ready? || Expired(w.tasks[t], w.now))
    case OpReap(ids) => t in ids && Expired(w.tasks[t], w.now)
    case OpReport(u, action, attempt, maxAttempts, _) => u == t && action.Retry? && attempt + 1 <= maxAttempts
    case _ => false
  }

  /** A step takes a token away from its holder exactly when it re-grants, reaps or retries the task. */
  lemma TokenLostExact(cfg: Config, w: World, op: Op, t: TaskId, worker: WorkerId, generation: int)
    requires Holds(w, t, worker, generation)
    ensures !Holds(Apply(cfg, w, op), t, worker, generation) <==> EndsLease(cfg, w, op, t)
  {
    ApplyIsNextTask(cfg, w, op, t);
  }

  lemma StaleStaysStale(cfg: Config, w: World, op: Op, t: TaskId, worker: WorkerId, generation: int)
    requires Issued(w, t, generation) && !Holds(w, t, worker, generation)
    ensures Issued(Apply(cfg, w, op), t, generation) && !Holds(Apply(cfg, w, op), t, worker, generation)
  {
    ApplyIsNextTask(cfg, w, op, t);
  }

  /** Once a token is superseded, reaped or retired by a retry, no later write or heartbeat with it succeeds. */
  lemma {:induction false} StaleTokenNeverWrites(cfg: Config, w: World, ops: seq<Op>, t: TaskId, worker: WorkerId,
                                                 generation: int, state: State, duration: int)
    requires Issued(w, t, generation) && !Holds(w, t, worker, generation)
    ensures var v := Exec(cfg, w, ops);
            && Issued(v, t, generation) && !Holds(v, t, worker, generation)
            && FencedUpdate(v, t, worker, generation, state) == (v, false)
            && Heartbeat(v, t, worker, generation, duration) == (v, None)
  {
    if ops != [] {
      var front := ops[..|ops| - 1];
      StaleTokenNeverWrites(cfg, w, front, t, worker, generation, state, duration);
      StaleStaysStale(cfg, Exec(cfg, w, front), ops[|ops| - 1], t, worker, generation);
    }
  }

  /** Step `i` of the run grants task `t` its lease. */
  predicate Grants(cfg: Config, w: World, ops: seq<Op>, i: nat, t: TaskId) {
    i < |ops| && ops[i].OpAcquire? && ops[i].task == t
    && Acquire(Exec(cfg, w, ops[..i]), t, ops[i].worker, ops[i].duration).1.Some?
  }

  function GrantAt(cfg: Config, w: World, ops: seq<Op>, i: nat, t: TaskId): Grant
    requires Grants(cfg, w, ops, i, t)
  {
    Acquire(Exec(cfg, w, ops[..i]), t, ops[i].worker, ops[i].duration).1.value
  }

  lemma {:induction false} RunGenerationGrows(cfg: Config, w: World, ops: seq<Op>, t: TaskId, i: nat)
    requires i <= |ops| && t in Exec(cfg, w, ops[..i]).tasks
    ensures t in Exec(cfg, w, ops).tasks
    ensures Exec(cfg, w, ops).tasks[t].generation >= Exec(cfg, w, ops[..i]).tasks[t].generation
  {
    if i < |ops| {
      var front := ops[..|ops| - 1];
      assert front[..i] == ops[..i];
      RunGenerationGrows(cfg, w, front, t, i);
      GenerationGrows(cfg, Exec(cfg, w, front), ops[|ops| - 1], t);
    } else {
      assert ops[..i] == ops;
    }
  }

  /** Every grant of a task carries a larger generation than all earlier grants of it. */
  lemma GrantsIncrease(cfg: Config, w: World, ops: seq<Op>, t: TaskId, i: nat, j: nat)
    requires i < j && Grants(cfg, w, ops, i, t) && Grants(cfg, w, ops, j, t)
    ensures GrantAt(cfg, w, ops, i, t).generation < GrantAt(cfg, w, ops, j, t).generation
  {
    ExecSnoc(cfg, w, ops, i);
    assert ops[..j][..i + 1] == ops[..i + 1];
    RunGenerationGrows(cfg, w, ops[..j], t, i + 1);
  }

  // ---- Lease invariants --------------------------------------------------------

  /** Owner and expiry come and go together; a leased or running task has them, a waiting one does not. */
  predicate LeaseOk(task: Task) {
    && (task.owner.Some? <==> task.expires.Some?)
    && (Active(task.state) ==> task.owner.Some?)
    && (task.state.Pending? || task.state.Ready? || task.state.RetryWait? ==> task.owner.None?)
  }

  predicate LeasesOk(w: World) {
    forall t :: t in w.tasks ==> LeaseOk(w.tasks[t])
  }

  /**
   * A worker holding the token writes RUNNING or a terminal state, and failures are reported, only while the task is
   * leased or running. Writes with a stale token may be tried at any time.
   */
  predicate Disciplined(w: World, op: Op) {
    match op
    case OpFenced(t, worker, generation, state) =>
      Holds(w, t, worker, generation) ==> Active(w.tasks[t].state) && (state.Running? || Terminal(state))
    case OpReport(t, _, _, _, _) => t in w.tasks ==> Active(w.tasks[t].state)
    case _ => true
  }

  predicate DisciplinedRun(cfg: Config, w: World, ops: seq<Op>) {
    forall i :: 0 <= i < |ops| ==> Disciplined(Exec(cfg, w, ops[..i]), ops[i])
  }

  lemma DisciplinedFront(cfg: Config, w: World, ops: seq<Op>)
    requires ops != [] && DisciplinedRun(cfg, w, ops)
    ensures DisciplinedRun(cfg, w, ops[..|ops| - 1])
    ensures Disciplined(Exec(cfg, w, ops[..|ops| - 1]), ops[|ops| - 1])
  {
    var front := ops[..|ops| - 1];
    forall i | 0 <= i < |front|
      ensures Disciplined(Exec(cfg, w, front[..i]), front[i])
    {
      assert front[..i] == ops[..i];
    }
  }

  lemma StepKeepsLeaseOk(cfg: Config, w: World, op: Op, t: TaskId)
    requires t in w.tasks && LeaseOk(w.tasks[t]) && Disciplined(w, op)
    ensures LeaseOk(NextTask(cfg, w, op, t))
  {
  }

  lemma {:induction false} RunKeepsLeasesOk(cfg: Config, w: World, ops: seq<Op>)
    requires LeasesOk(w) && DisciplinedRun(cfg, w, ops)
    ensures LeasesOk(Exec(cfg, w, ops))
  {
    if ops != [] {
      var front, op := ops[..|ops| - 1], ops[|ops| - 1];
      var v := Exec(cfg, w, front);
      DisciplinedFront(cfg, w, ops);
      RunKeepsLeasesOk(cfg, w, front);
      forall t | t in Apply(cfg, v, op).tasks
        ensures LeaseOk(Apply(cfg, v, op).tasks[t])
      {
        if t in v.tasks {
          ApplyIsNextTask(cfg, v, op, t);
          StepKeepsLeaseOk(cfg, v, op, t);
        } else {
          ApplyAddsFresh(cfg, v, op, t);
        }
      }
    }
  }

  /** At any instant the owner of an active lease can heartbeat exactly when nobody can acquire or reap the task. */
  lemma HeartbeatOrTake(w: World, t: TaskId, owner: WorkerId, other: WorkerId, duration: int)
    requires t in w.tasks && LeaseOk(w.tasks[t]) && Active(w.tasks[t].state) && w.tasks[t].owner == Some(owner)
    ensures Heartbeat(w, t, owner, w.tasks[t].generation, duration).1.Some?
            <==> Acquire(w, t, other, duration).1.None? && t !in ExpiredTasks(w)
  {
  }

  /** A lease is taken from its holder only after it expired or by a failure report on the task. */
  lemma LeaseEndsLawfully(cfg: Config, w: World, op: Op, t: TaskId, worker: WorkerId, generation: int)
    requires LeasesOk(w) && Holds(w, t, worker, generation)
    requires !Holds(Apply(cfg, w, op), t, worker, generation)
    ensures w.tasks[t].expires.Some? && (w.tasks[t].expires.value < w.now || (op.OpReport? && op.task == t))
  {
    TokenLostExact(cfg, w, op, t, worker, generation);
  }

  /** The token is held after the first `k` steps. */
  predicate HeldAfter(cfg: Config, w: World, ops: seq<Op>, k: nat, t: TaskId, worker: WorkerId, generation: int) {
    k <= |ops| && Holds(Exec(cfg, w, ops[..k]), t, worker, generation)
  }

  /** The step at which a token held after `i` steps is lost before step `j`. */
  lemma {:induction false} FindLoss(cfg: Config, w: World, ops: seq<Op>, t: TaskId, worker: WorkerId, generation: int,
                                    i: nat, j: nat) returns (k: nat)
    requires i <= j <= |ops|
    requires HeldAfter(cfg, w, ops, i, t, worker, generation) && !HeldAfter(cfg, w, ops, j, t, worker, generation)
    ensures i <= k < j
    ensures HeldAfter(cfg, w, ops, k, t, worker, generation) && !HeldAfter(cfg, w, ops, k + 1, t, worker, generation)
    decreases j
  {
    k := j - 1;
    if !HeldAfter(cfg, w, ops, k, t, worker, generation) {
      k := FindLoss(cfg, w, ops, t, worker, generation, i, k);
    }
  }

  /** The lease of a grant ended at step `k`: past its expiry, or given up by a failure report. */
  predicate EndedAt(cfg: Config, w: World, ops: seq<Op>, t: TaskId, g: Grant, k: nat) {
    k < |ops| &&
    var v := Exec(cfg, w, ops[..k]);
    && Holds(v, t, g.worker, g.generation) && !Holds(Exec(cfg, w, ops[..k + 1]), t, g.worker, g.generation)
    && v.tasks[t].expires.Some? && (v.tasks[t].expires.value < v.now || (ops[k].OpReport? && ops[k].task == t))
  }

  lemma PrefixDisciplined(cfg: Config, w: World, ops: seq<Op>, k: nat)
    requires k <= |ops| && DisciplinedRun(cfg, w, ops)
    ensures DisciplinedRun(cfg, w, ops[..k])
  {
    forall i | 0 <= i < k
      ensures Disciplined(Exec(cfg, w, ops[..k][..i]), ops[..k][i])
    {
      assert ops[..k][..i] == ops[..i];
    }
  }

  /** After a grant its token is the current one, and no smaller one is. */
  lemma GrantHeld(cfg: Config, w: World, ops: seq<Op>, t: TaskId, i: nat, worker: WorkerId, generation: int)
    requires Grants(cfg, w, ops, i, t)
    ensures var g := GrantAt(cfg, w, ops, i, t);
            && HeldAfter(cfg, w, ops, i + 1, t, g.worker, g.generation)
            && (generation < g.generation ==> !HeldAfter(cfg, w, ops, i + 1, t, worker, generation))
  {
    ExecSnoc(cfg, w, ops, i);
  }

  lemma LossIsEnd(cfg: Config, w: World, ops: seq<Op>, t: TaskId, g: Grant, k: nat)
    requires LeasesOk(w) && DisciplinedRun(cfg, w, ops) && k < |ops|
    requires HeldAfter(cfg, w, ops, k, t, g.worker, g.generation)
    requires !HeldAfter(cfg, w, ops, k + 1, t, g.worker, g.generation)
    ensures EndedAt(cfg, w, ops, t, g, k)
  {
    PrefixDisciplined(cfg, w, ops, k);
    RunKeepsLeasesOk(cfg, w, ops[..k]);
    ExecSnoc(cfg, w, ops, k);
    LeaseEndsLawfully(cfg, Exec(cfg, w, ops[..k]), ops[k], t, g.worker, g.generation);
  }

  /** Leases of one task never overlap: before a later grant takes effect, every earlier one expired or was given up. */
  lemma LeasesDoNotOverlap(cfg: Config, w: World, ops: seq<Op>, t: TaskId, i: nat, j: nat) returns (k: nat)
    requires LeasesOk(w) && DisciplinedRun(cfg, w, ops)
    requires i < j && Grants(cfg, w, ops, i, t) && Grants(cfg, w, ops, j, t)
    ensures i < k <= j && EndedAt(cfg, w, ops, t, GrantAt(cfg, w, ops, i, t), k)
  {
    var g := GrantAt(cfg, w, ops, i, t);
    GrantHeld(cfg, w, ops, t, i, g.worker, g.generation);
    GrantHeld(cfg, w, ops, t, j, g.worker, g.generation);
    GrantsIncrease(cfg, w, ops, t, i, j);
    k := FindLoss(cfg, w, ops, t, g.worker, g.generation, i + 1, j + 1);
    LossIsEnd(cfg, w, ops, t, g, k);
  }

  /** No failure is reported on the task, and no heartbeat asks for less time than `duration`. */
  predicate Undisturbed(op: Op, t: TaskId, duration: int) {
    !(op.OpReport? && op.task == t) && (op.OpHeartbeat? && op.task == t ==> op.duration >= duration)
  }

  lemma ClockGrows(cfg: Config, w: World, op: Op)
    ensures Apply(cfg, w, op).now >= w.now
    ensures !op.OpAdvance? ==> Apply(cfg, w, op).now == w.now
  {
  }

  predicate HeldUntil(w: World, t: TaskId, worker: WorkerId, generation: int, until: int) {
    Holds(w, t, worker, generation) && w.tasks[t].expires.Some? && w.tasks[t].expires.value >= until
  }

  lemma StepKeepsHeld(cfg: Config, w: World, op: Op, t: TaskId, worker: WorkerId, generation: int, from: int,
                      duration: int)
    requires LeasesOk(w) && HeldUntil(w, t, worker, generation, from + duration)
    requires from <= w.now <= from + duration && Undisturbed(op, t, duration)
    ensures HeldUntil(Apply(cfg, w, op), t, worker, generation, from + duration)
  {
    ApplyIsNextTask(cfg, w, op, t);
  }

  /** Until a grant's expiry nobody else gets the task: its token stays the current one, whatever others try. */
  lemma {:induction false} GrantIsExclusive(cfg: Config, w: World, ops: seq<Op>, t: TaskId, worker: WorkerId,
                                            duration: int)
    requires LeasesOk(w) && DisciplinedRun(cfg, Acquire(w, t, worker, duration).0, ops)
    requires Acquire(w, t, worker, duration).1.Some?
    requires forall i :: 0 <= i < |ops| ==> Undisturbed(ops[i], t, duration)
    requires Exec(cfg, Acquire(w, t, worker, duration).0, ops).now <= w.now + duration
    ensures var (v, grant) := Acquire(w, t, worker, duration);
            && Exec(cfg, v, ops).now >= w.now && LeasesOk(Exec(cfg, v, ops))
            && HeldUntil(Exec(cfg, v, ops), t, worker, grant.value.generation, w.now + duration)
  {
    var (v, grant) := Acquire(w, t, worker, duration);
    if ops == [] {
      assert LeasesOk(v);
    } else {
      var front, op := ops[..|ops| - 1], ops[|ops| - 1];
      DisciplinedFront(cfg, v, ops);
      ClockGrows(cfg, Exec(cfg, v, front), op);
      GrantIsExclusive(cfg, w, front, t, worker, duration);
      StepKeepsHeld(cfg, Exec(cfg, v, front), op, t, worker, grant.value.generation, w.now, duration);
      assert LeasesOk(v);
      RunKeepsLeasesOk(cfg, v, ops);
    }
  }

  /**
   * A terminal task is changed exactly by the still-held token writing another state, or by a failure report: one that
   * blocks, fails or dead-letters it and finds it in another state, or any one that grants a retry.
   */
  lemma TerminalChangeExact(cfg: Config, w: World, op: Op, t: TaskId)
    requires t in w.tasks && Terminal(w.tasks[t].state)
    ensures Apply(cfg, w, op).tasks[t] != w.tasks[t] <==>
              match op
              case OpFenced(u, worker, generation, state) =>
                u == t && Holds(w, t, worker, generation) && state != w.tasks[t].state
              case OpReport(u, action, attempt, maxAttempts, _) =>
                u == t && (match action
                           case Block => !w.tasks[t].state.Blocked?
                           case GiveUp => !w.tasks[t].state.Failed?
                           case Retry => attempt + 1 <= maxAttempts || !w.tasks[t].state.DeadLetter?)
              case _ => false
  {
    ApplyIsNextTask(cfg, w, op, t);
  }

  /** Under the discipline a terminal task never changes again. */
  lemma {:induction false} TerminalIsFinal(cfg: Config, w: World, ops: seq<Op>, t: TaskId)
    requires t in w.tasks && Terminal(w.tasks[t].state) && DisciplinedRun(cfg, w, ops)
    ensures t in Exec(cfg, w, ops).tasks && Exec(cfg, w, ops).tasks[t] == w.tasks[t]
  {
    if ops != [] {
      var front := ops[..|ops| - 1];
      DisciplinedFront(cfg, w, ops);
      TerminalIsFinal(cfg, w, front, t);
      ApplyIsNextTask(cfg, Exec(cfg, w, front), ops[|ops| - 1], t);
    }
  }

  /** Without it, the worker that finished a task can set it running again with the same token. */
  lemma FinishedTaskRevived(w: World, t: TaskId, worker: WorkerId, generation: int)
    requires Holds(w, t, worker, generation)
    ensures var done := FencedUpdate(w, t, worker, generation, Succeeded).0;
            var again := FencedUpdate(done, t, worker, generation, Running);
            Terminal(done.tasks[t].state) && again.1 && again.0.tasks[t].state == Running
  {
  }
}
