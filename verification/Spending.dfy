/** The caps on events: admissions against the tasks that ended, counted step by step. */
module Spending {
  import opened Wrappers
  import opened Lanes
  import opened World
  import opened Leases
  import opened Caps

  // ---- What a step counts for ------------------------------------------------------

  /** The task is one of the job's on this lane. */
  predicate Belongs(w: World, t: TaskId, job: JobId, lane: Lane) {
    t in w.tasks && w.tasks[t].job == job && w.tasks[t].lane == lane
  }

  /** The task ended without a result. */
  predicate Lost(s: State) {
    s.Blocked? || s.Failed? || s.DeadLetter?
  }

  /** The task a step is about. */
  function Subject(op: Op): Option<TaskId> {
    match op
    case OpAdmit(t, _) => Some(t)
    case OpAcquire(t, _, _) => Some(t)
    case OpHeartbeat(t, _, _, _) => Some(t)
    case OpFenced(t, _, _, _) => Some(t)
    case OpReport(t, _, _, _, _) => Some(t)
    case OpAddPending(t, _) => Some(t)
    case OpEnqueue(t, _) => Some(t)
    case _ => None
  }

  /** The step admits a PENDING task of the job and lane: it was PENDING and is READY. */
  predicate AdmitsPending(cfg: Config, w: World, op: Op, job: JobId, lane: Lane) {
    op.OpAdmit? && Belongs(w, op.task, job, lane) && w.tasks[op.task].state.Pending?
    && op.task in Apply(cfg, w, op).tasks && Apply(cfg, w, op).tasks[op.task].state.Ready?
  }

  /** The step ends a task of the job and lane as BLOCKED, FAILED or DEAD_LETTER. */
  predicate Loses(cfg: Config, w: World, op: Op, job: JobId, lane: Lane) {
    match Subject(op)
    case Some(t) => Belongs(w, t, job, lane) && !Lost(w.tasks[t].state)
                    && t in Apply(cfg, w, op).tasks && Lost(Apply(cfg, w, op).tasks[t].state)
    case None => false
  }

  function Admissions(cfg: Config, w: World, ops: seq<Op>, job: JobId, lane: Lane): nat {
    if ops == [] then 0
    else
      var front := ops[..|ops| - 1];
      Admissions(cfg, w, front, job, lane)
      + if AdmitsPending(cfg, Exec(cfg, w, front), ops[|ops| - 1], job, lane) then 1 else 0
  }

  function Losses(cfg: Config, w: World, ops: seq<Op>, job: JobId, lane: Lane): nat {
    if ops == [] then 0
    else
      var front := ops[..|ops| - 1];
      Losses(cfg, w, front, job, lane) + if Loses(cfg, Exec(cfg, w, front), ops[|ops| - 1], job, lane) then 1 else 0
  }

  // ---- Conservation ------------------------------------------------------------------

  /** Tasks of the job and lane that left PENDING and did not end without a result. */
  function Kept(w: World, job: JobId, lane: Lane): set<TaskId> {
    set t | t in w.tasks && Belongs(w, t, job, lane) && !w.tasks[t].state.Pending? && !Lost(w.tasks[t].state)
  }

  /** What the budget check counts is exactly those. */
  lemma SpendIsKept(w: World, job: JobId, lane: Lane)
    ensures SpendSet(w.tasks, job, lane) == Kept(w, job, lane)
  {
  }

  lemma WithoutOne<T>(a: set<T>, t: T)
    ensures |a - {t}| == |a| - if t in a then 1 else 0
  {
    assert t !in a ==> a - {t} == a;
  }

  lemma OneMember<T>(a: set<T>, b: set<T>, t: T)
    requires forall x :: x != t ==> (x in a <==> x in b)
    ensures |b| == |a| + (if t in b then 1 else 0) - (if t in a then 1 else 0)
  {
    WithoutOne(a, t);
    WithoutOne(b, t);
    assert b - {t} == a - {t};
  }

  /** A governed step changes no other task's part in the spend. */
  lemma OthersKept(cfg: Config, w: World, op: Op, job: JobId, lane: Lane, x: TaskId)
    requires Governed(w, op) && Subject(op) != Some(x)
    ensures x in Kept(Apply(cfg, w, op), job, lane) <==> x in Kept(w, job, lane)
  {
    if x in w.tasks {
      ApplyIsNextTask(cfg, w, op, x);
    } else if x in Apply(cfg, w, op).tasks {
      ApplyAddsFresh(cfg, w, op, x);
    }
  }

  lemma SubjectKept(cfg: Config, w: World, op: Op, job: JobId, lane: Lane, t: TaskId)
    requires Governed(w, op) && Subject(op) == Some(t)
    ensures var before, after := Kept(w, job, lane), Kept(Apply(cfg, w, op), job, lane);
            (if t in after then 1 else 0) + (if Loses(cfg, w, op, job, lane) then 1 else 0)
            == (if t in before then 1 else 0) + if AdmitsPending(cfg, w, op, job, lane) then 1 else 0
  {
    if t in w.tasks {
      ApplyIsNextTask(cfg, w, op, t);
    } else if t in Apply(cfg, w, op).tasks {
      ApplyAddsFresh(cfg, w, op, t);
    }
  }

  lemma StepConserves(cfg: Config, w: World, op: Op, job: JobId, lane: Lane)
    requires Governed(w, op)
    ensures |Kept(Apply(cfg, w, op), job, lane)| + (if Loses(cfg, w, op, job, lane) then 1 else 0)
            == |Kept(w, job, lane)| + if AdmitsPending(cfg, w, op, job, lane) then 1 else 0
  {
    var before, after := Kept(w, job, lane), Kept(Apply(cfg, w, op), job, lane);
    forall x | Subject(op) != Some(x)
      ensures x in after <==> x in before
    {
      OthersKept(cfg, w, op, job, lane, x);
    }
    match Subject(op)
    case Some(t) =>
      SubjectKept(cfg, w, op, job, lane, t);
      OneMember(before, after, t);
    case None =>
      assert after == before;
  }

  /** In every governed run admissions out of PENDING are either still kept or were lost. */
  lemma {:induction false} SpendConserved(cfg: Config, w: World, ops: seq<Op>, job: JobId, lane: Lane)
    requires GovernedRun(cfg, w, ops)
    ensures |Kept(Exec(cfg, w, ops), job, lane)| + Losses(cfg, w, ops, job, lane)
            == |Kept(w, job, lane)| + Admissions(cfg, w, ops, job, lane)
  {
    if ops != [] {
      var front := ops[..|ops| - 1];
      GovernedFront(cfg, w, ops);
      SpendConserved(cfg, w, front, job, lane);
      StepConserves(cfg, Exec(cfg, w, front), ops[|ops| - 1], job, lane);
    }
  }

  /** The stored budget field of a lane. */
  predicate BudgetIs(cfg: Config, job: JobId, lane: Lane, budget: int) {
    job in cfg.budgets &&
    match lane
    case Search => cfg.budgets[job].maxQueries == Some(budget)
    case Http => cfg.budgets[job].maxFetchedUrls == Some(budget)
    case Browser => cfg.budgets[job].browserPages == Some(budget)
    case Media => cfg.budgets[job].mediaItems == Some(budget)
    case _ => false
  }

  lemma StepWithinBudget(cfg: Config, w: World, op: Op, job: JobId, lane: Lane, budget: int, most: nat)
    requires Governed(w, op) && BudgetIs(cfg, job, lane, budget) && budget <= most && |Kept(w, job, lane)| <= most
    ensures |Kept(Apply(cfg, w, op), job, lane)| <= most
  {
    StepConserves(cfg, w, op, job, lane);
    if AdmitsPending(cfg, w, op, job, lane) {
      SpendIsKept(w, job, lane);
    }
  }

  lemma {:induction false} RunWithinBudget(cfg: Config, w: World, ops: seq<Op>, job: JobId, lane: Lane, budget: int,
                                           most: nat)
    requires GovernedRun(cfg, w, ops) && BudgetIs(cfg, job, lane, budget) && budget <= most
    requires |Kept(w, job, lane)| <= most
    ensures |Kept(Exec(cfg, w, ops), job, lane)| <= most
  {
    if ops != [] {
      GovernedFront(cfg, w, ops);
      RunWithinBudget(cfg, w, ops[..|ops| - 1], job, lane, budget, most);
      StepWithinBudget(cfg, Exec(cfg, w, ops[..|ops| - 1]), ops[|ops| - 1], job, lane, budget, most);
    }
  }

  /**
   * From a table whose tasks of the job and lane are all PENDING, no run admits more of them than the budget and those
   * that ended without a result: finished tasks keep their place in the budget.
   */
  lemma BudgetByEvents(cfg: Config, w: World, ops: seq<Op>, job: JobId, lane: Lane, budget: int)
    requires GovernedRun(cfg, w, ops) && BudgetIs(cfg, job, lane, budget)
    requires forall t :: Belongs(w, t, job, lane) ==> w.tasks[t].state.Pending?
    ensures Admissions(cfg, w, ops, job, lane) <= (if budget > 0 then budget else 0) + Losses(cfg, w, ops, job, lane)
  {
    assert Kept(w, job, lane) == {};
    SpendConserved(cfg, w, ops, job, lane);
    RunWithinBudget(cfg, w, ops, job, lane, budget, if budget > 0 then budget else 0);
  }

  /** A task that succeeds frees no budget: another task refused for the budget before is refused for it after. */
  lemma SuccessFreesNothing(cfg: Config, w: World, t: TaskId, worker: WorkerId, generation: int, u: TaskId,
                            paused: bool)
    requires Holds(w, t, worker, generation) && (w.tasks[t].state.Leased? || w.tasks[t].state.Running?) && u != t
    requires Gate(cfg, w, u, paused).BudgetExhausted?
    ensures Gate(cfg, FencedUpdate(w, t, worker, generation, Succeeded).0, u, paused).BudgetExhausted?
  {
    var v := FencedUpdate(w, t, worker, generation, Succeeded).0;
    var job, lane := w.tasks[u].job, w.tasks[u].lane;
    SpendIsKept(w, job, lane);
    SpendIsKept(v, job, lane);
    assert Kept(v, job, lane) == Kept(w, job, lane);
  }

  // ---- Flight -------------------------------------------------------------------------

  /** The task is handed out: ready for a worker, or with one. */
  predicate Out(w: World, t: TaskId, lane: Lane) {
    t in w.tasks && w.tasks[t].lane == lane
    && (w.tasks[t].state.Ready? || w.tasks[t].state.Leased? || w.tasks[t].state.Running?)
  }

  function Aloft(w: World, lane: Lane): set<TaskId> {
    set t | t in w.tasks && Out(w, t, lane)
  }

  /** The step hands a task of the lane out that was not. */
  predicate HandsOut(cfg: Config, w: World, op: Op, lane: Lane) {
    op.OpAdmit? && !Out(w, op.task, lane) && Out(Apply(cfg, w, op), op.task, lane)
  }

  /** The step takes a task of the lane back: it ended, or it waits for a retry. */
  predicate TakesBack(cfg: Config, w: World, op: Op, lane: Lane) {
    match Subject(op)
    case Some(t) => Out(w, t, lane) && !Out(Apply(cfg, w, op), t, lane)
    case None => false
  }

  function HandedOut(cfg: Config, w: World, ops: seq<Op>, lane: Lane): nat {
    if ops == [] then 0
    else
      var front := ops[..|ops| - 1];
      HandedOut(cfg, w, front, lane) + if HandsOut(cfg, Exec(cfg, w, front), ops[|ops| - 1], lane) then 1 else 0
  }

  function TakenBack(cfg: Config, w: World, ops: seq<Op>, lane: Lane): nat {
    if ops == [] then 0
    else
      var front := ops[..|ops| - 1];
      TakenBack(cfg, w, front, lane) + if TakesBack(cfg, Exec(cfg, w, front), ops[|ops| - 1], lane) then 1 else 0
  }

  lemma OthersAloft(cfg: Config, w: World, op: Op, lane: Lane, x: TaskId)
    requires Governed(w, op) && Subject(op) != Some(x)
    ensures x in Aloft(Apply(cfg, w, op), lane) <==> x in Aloft(w, lane)
  {
    if x in w.tasks {
      ApplyIsNextTask(cfg, w, op, x);
    } else if x in Apply(cfg, w, op).tasks {
      ApplyAddsFresh(cfg, w, op, x);
    }
  }

  lemma SubjectAloft(cfg: Config, w: World, op: Op, lane: Lane, t: TaskId)
    requires Governed(w, op) && Subject(op) == Some(t)
    ensures var before, after := Aloft(w, lane), Aloft(Apply(cfg, w, op), lane);
            (if t in after then 1 else 0) + (if TakesBack(cfg, w, op, lane) then 1 else 0)
            == (if t in before then 1 else 0) + if HandsOut(cfg, w, op, lane) then 1 else 0
  {
    if t in w.tasks {
      ApplyIsNextTask(cfg, w, op, t);
    } else if t in Apply(cfg, w, op).tasks {
      ApplyAddsFresh(cfg, w, op, t);
    }
  }

  lemma StepConservesFlight(cfg: Config, w: World, op: Op, lane: Lane)
    requires Governed(w, op)
    ensures |Aloft(Apply(cfg, w, op), lane)| + (if TakesBack(cfg, w, op, lane) then 1 else 0)
            == |Aloft(w, lane)| + if HandsOut(cfg, w, op, lane) then 1 else 0
  {
    var before, after := Aloft(w, lane), Aloft(Apply(cfg, w, op), lane);
    forall x | Subject(op) != Some(x)
      ensures x in after <==> x in before
    {
      OthersAloft(cfg, w, op, lane, x);
    }
    match Subject(op)
    case Some(t) =>
      SubjectAloft(cfg, w, op, lane, t);
      OneMember(before, after, t);
    case None =>
      assert after == before;
  }

  /** The configured limit of a lane, where it is gated. */
  predicate LimitIs(limits: Limits, lane: Lane, limit: int) {
    limit > 0 &&
    match lane
    case Http => limits.httpGlobal == limit
    case Browser => limits.browserPages == limit
    case Media => limits.mediaConcurrency == limit
    case Enrich => limits.enrichWorkers == limit
    case Index => limits.indexWorkers == limit
    case _ => false
  }

  lemma StepWithinLimit(cfg: Config, w: World, op: Op, lane: Lane, limit: int)
    requires Governed(w, op) && LimitIs(cfg.limits, lane, limit) && |Aloft(w, lane)| <= limit
    ensures |Aloft(Apply(cfg, w, op), lane)| <= limit
  {
    StepConservesFlight(cfg, w, op, lane);
    if HandsOut(cfg, w, op, lane) {
      assert FlightSet(w.tasks, lane) == Aloft(w, lane);
    }
  }

  /**
   * From a table with nothing of the lane handed out, its tasks handed out by any governed run exceed those taken back
   * by no more than the lane's limit.
   */
  lemma {:induction false} LimitByEvents(cfg: Config, w: World, ops: seq<Op>, lane: Lane, limit: int)
    requires GovernedRun(cfg, w, ops) && LimitIs(cfg.limits, lane, limit) && Aloft(w, lane) == {}
    ensures HandedOut(cfg, w, ops, lane) == |Aloft(Exec(cfg, w, ops), lane)| + TakenBack(cfg, w, ops, lane)
    ensures HandedOut(cfg, w, ops, lane) <= limit + TakenBack(cfg, w, ops, lane)
  {
    if ops != [] {
      var front := ops[..|ops| - 1];
      GovernedFront(cfg, w, ops);
      LimitByEvents(cfg, w, front, lane, limit);
      StepConservesFlight(cfg, Exec(cfg, w, front), ops[|ops| - 1], lane);
      StepWithinLimit(cfg, Exec(cfg, w, front), ops[|ops| - 1], lane, limit);
    }
  }
}
