/** Budget and concurrency caps as invariants of runs, and where the admission gate is stricter than they need. */
module Caps {
  import opened Ordering
  import opened Wrappers
  import opened Lanes
  import opened World
  import opened Leases

  ghost predicate BudgetsHold(cfg: Config, w: World) {
    forall job, lane ::
      Budgeted(lane) && HasBudget(cfg, job, lane) ==>
        LaneSpend(w, job, lane) <= BudgetField(cfg.budgets[job], lane).value
  }

  ghost predicate LimitsHold(cfg: Config, w: World) {
    forall lane ::
      InFlightLimit(cfg.limits, lane).Some? ==> LaneInFlight(w, lane) <= InFlightLimit(cfg.limits, lane).value
  }

  /** The steps the caps are proved for: disciplined, and entering the table through admission only. */
  predicate Governed(w: World, op: Op) {
    Disciplined(w, op) && !op.OpEnqueue?
  }

  predicate GovernedRun(cfg: Config, w: World, ops: seq<Op>) {
    forall i :: 0 <= i < |ops| ==> Governed(Exec(cfg, w, ops[..i]), ops[i])
  }

  /** The task a step admits, if it admits one. */
  function AdmittedBy(cfg: Config, w: World, op: Op): Option<TaskId> {
    if op.OpAdmit? && Gate(cfg, w, op.task, op.paused).Admitted? then Some(op.task) else None
  }

  /** A governed step moves no task into a state set that counts, except the task it admits. */
  lemma OnlyAdmissionEnters(cfg: Config, w: World, op: Op, t: TaskId)
    requires Governed(w, op) && t in Apply(cfg, w, op).tasks && AdmittedBy(cfg, w, op) != Some(t)
    ensures var after := Apply(cfg, w, op).tasks[t];
            && (Spends(after.state) ==> t in w.tasks && Spends(w.tasks[t].state))
            && (InFlight(after.state) ==> t in w.tasks && InFlight(w.tasks[t].state))
            && (t in w.tasks ==> after.job == w.tasks[t].job && after.lane == w.tasks[t].lane)
  {
    if t in w.tasks {
      ApplyIsNextTask(cfg, w, op, t);
    } else {
      ApplyAddsFresh(cfg, w, op, t);
    }
  }

  lemma SpendGrowsByAdmission(cfg: Config, w: World, op: Op, job: JobId, lane: Lane)
    requires Governed(w, op)
    ensures var before, after := SpendSet(w.tasks, job, lane), SpendSet(Apply(cfg, w, op).tasks, job, lane);
            match AdmittedBy(cfg, w, op)
            case None => after <= before
            case Some(t) =>
              after <= before + {t} && (w.tasks[t].job != job || w.tasks[t].lane != lane ==> after <= before)
  {
    var v := Apply(cfg, w, op);
    forall t | t in SpendSet(v.tasks, job, lane) && AdmittedBy(cfg, w, op) != Some(t)
      ensures t in SpendSet(w.tasks, job, lane)
    {
      OnlyAdmissionEnters(cfg, w, op, t);
    }
  }

  lemma FlightGrowsByAdmission(cfg: Config, w: World, op: Op, lane: Lane)
    requires Governed(w, op)
    ensures var before, after := FlightSet(w.tasks, lane), FlightSet(Apply(cfg, w, op).tasks, lane);
            match AdmittedBy(cfg, w, op)
            case None => after <= before
            case Some(t) => after <= before + {t} && (w.tasks[t].lane != lane ==> after <= before)
  {
    var v := Apply(cfg, w, op);
    forall t | t in FlightSet(v.tasks, lane) && AdmittedBy(cfg, w, op) != Some(t)
      ensures t in FlightSet(w.tasks, lane)
    {
      OnlyAdmissionEnters(cfg, w, op, t);
    }
  }

  lemma StepKeepsBudgets(cfg: Config, w: World, op: Op)
    requires BudgetsHold(cfg, w) && Governed(w, op)
    ensures BudgetsHold(cfg, Apply(cfg, w, op))
  {
    forall job, lane | Budgeted(lane) && HasBudget(cfg, job, lane)
      ensures LaneSpend(Apply(cfg, w, op), job, lane) <= BudgetField(cfg.budgets[job], lane).value
    {
      var before, after := SpendSet(w.tasks, job, lane), SpendSet(Apply(cfg, w, op).tasks, job, lane);
      assert LaneSpend(w, job, lane) <= BudgetField(cfg.budgets[job], lane).value;
      SpendGrowsByAdmission(cfg, w, op, job, lane);
      match AdmittedBy(cfg, w, op)
      case None => SubsetSize(after, before);
      case Some(t) =>
        if w.tasks[t].job == job && w.tasks[t].lane == lane {
          SubsetSize(after, before + {t});
        } else {
          SubsetSize(after, before);
        }
    }
  }

  lemma StepKeepsLimits(cfg: Config, w: World, op: Op)
    requires LimitsHold(cfg, w) && Governed(w, op)
    ensures LimitsHold(cfg, Apply(cfg, w, op))
  {
    forall lane | InFlightLimit(cfg.limits, lane).Some?
      ensures LaneInFlight(Apply(cfg, w, op), lane) <= InFlightLimit(cfg.limits, lane).value
    {
      var before, after := FlightSet(w.tasks, lane), FlightSet(Apply(cfg, w, op).tasks, lane);
      assert LaneInFlight(w, lane) <= InFlightLimit(cfg.limits, lane).value;
      FlightGrowsByAdmission(cfg, w, op, lane);
      match AdmittedBy(cfg, w, op)
      case None => SubsetSize(after, before);
      case Some(t) =>
        if w.tasks[t].lane == lane {
          SubsetSize(after, before + {t});
        } else {
          SubsetSize(after, before);
        }
    }
  }

  lemma GovernedFront(cfg: Config, w: World, ops: seq<Op>)
    requires ops != [] && GovernedRun(cfg, w, ops)
    ensures GovernedRun(cfg, w, ops[..|ops| - 1])
    ensures Governed(Exec(cfg, w, ops[..|ops| - 1]), ops[|ops| - 1])
  {
    var front := ops[..|ops| - 1];
    forall i | 0 <= i < |front|
      ensures Governed(Exec(cfg, w, front[..i]), front[i])
    {
      assert front[..i] == ops[..i];
    }
  }

  /** Job budgets and lane limits hold throughout every governed run that starts within them. */
  lemma {:induction false} CapsAreInvariant(cfg: Config, w: World, ops: seq<Op>)
    requires BudgetsHold(cfg, w) && LimitsHold(cfg, w) && GovernedRun(cfg, w, ops)
    ensures BudgetsHold(cfg, Exec(cfg, w, ops)) && LimitsHold(cfg, Exec(cfg, w, ops))
  {
    if ops != [] {
      var front := ops[..|ops| - 1];
      GovernedFront(cfg, w, ops);
      CapsAreInvariant(cfg, w, front);
      StepKeepsBudgets(cfg, Exec(cfg, w, front), ops[|ops| - 1]);
      StepKeepsLimits(cfg, Exec(cfg, w, front), ops[|ops| - 1]);
    }
  }

  // ---- Enqueue bypasses the gate --------------------------------------------------

  /** An enqueue, which no gate checks, keeps the budget of its lane exactly when there was room. */
  lemma EnqueueKeepsBudgetExact(cfg: Config, w: World, t: TaskId, row: Task)
    requires Enqueue(cfg, w, t, row).1.Enqueued? && Budgeted(row.lane) && HasBudget(cfg, row.job, row.lane)
    requires LaneSpend(w, row.job, row.lane) <= BudgetField(cfg.budgets[row.job], row.lane).value
    ensures LaneSpend(Enqueue(cfg, w, t, row).0, row.job, row.lane) <= BudgetField(cfg.budgets[row.job], row.lane).value
            <==> LaneSpend(w, row.job, row.lane) < BudgetField(cfg.budgets[row.job], row.lane).value
  {
    var v := Enqueue(cfg, w, t, row).0;
    assert SpendSet(v.tasks, row.job, row.lane) == SpendSet(w.tasks, row.job, row.lane) + {t};
  }

  /** Nor does any gate check it against the in-flight limit: it keeps that exactly when there was room. */
  lemma EnqueueKeepsLimitExact(cfg: Config, w: World, t: TaskId, row: Task)
    requires Enqueue(cfg, w, t, row).1.Enqueued? && InFlightLimit(cfg.limits, row.lane).Some?
    requires LaneInFlight(w, row.lane) <= InFlightLimit(cfg.limits, row.lane).value
    ensures LaneInFlight(Enqueue(cfg, w, t, row).0, row.lane) <= InFlightLimit(cfg.limits, row.lane).value
            <==> LaneInFlight(w, row.lane) < InFlightLimit(cfg.limits, row.lane).value
  {
    var v := Enqueue(cfg, w, t, row).0;
    assert FlightSet(v.tasks, row.lane) == FlightSet(w.tasks, row.lane) + {t};
  }

  // ---- Retries at a full budget ------------------------------------------------------

  /** The table as it would be after admitting `t`. */
  function WithPromoted(w: World, t: TaskId): World
    requires t in w.tasks
  {
    w.(tasks := w.tasks[t := Promote(w.tasks[t])])
  }

  /**
   * A budget refusal was needed to protect the cap exactly when the task is not a retry: a task in RETRY_WAIT
   * is already counted, so admitting it cannot exceed the budget, yet a full budget refuses it.
   */
  lemma BudgetRefusalExact(cfg: Config, w: World, t: TaskId, paused: bool)
    requires BudgetsHold(cfg, w) && Gate(cfg, w, t, paused).BudgetExhausted?
    ensures var task := w.tasks[t];
            LaneSpend(WithPromoted(w, t), task.job, task.lane) <= BudgetField(cfg.budgets[task.job], task.lane).value
            <==> task.state.RetryWait?
  {
    var task := w.tasks[t];
    assert LaneSpend(w, task.job, task.lane) <= BudgetField(cfg.budgets[task.job], task.lane).value;
    PromotedSpend(w, t);
  }

  lemma PromotedSpend(w: World, t: TaskId)
    requires t in w.tasks && (w.tasks[t].state.Pending? || w.tasks[t].state.RetryWait?)
    ensures LaneSpend(WithPromoted(w, t), w.tasks[t].job, w.tasks[t].lane)
            == LaneSpend(w, w.tasks[t].job, w.tasks[t].lane) + if w.tasks[t].state.RetryWait? then 0 else 1
  {
    var job, lane := w.tasks[t].job, w.tasks[t].lane;
    var before, after := SpendSet(w.tasks, job, lane), SpendSet(WithPromoted(w, t).tasks, job, lane);
    assert after == before + {t};
    if t in before {
      assert before + {t} == before;
    }
  }

  /** The step takes no task of the job and lane out of the spend. */
  predicate KeepsSpend(cfg: Config, w: World, op: Op, job: JobId, lane: Lane) {
    SpendSet(w.tasks, job, lane) <= SpendSet(Apply(cfg, w, op).tasks, job, lane)
  }

  predicate SpendKeepingRun(cfg: Config, w: World, ops: seq<Op>, job: JobId, lane: Lane) {
    forall i :: 0 <= i < |ops| ==> KeepsSpend(cfg, Exec(cfg, w, ops[..i]), ops[i], job, lane)
  }

  predicate StuckRetry(cfg: Config, w: World, t: TaskId, job: JobId, lane: Lane)
    requires Budgeted(lane) && HasBudget(cfg, job, lane)
  {
    && t in w.tasks && w.tasks[t].job == job && w.tasks[t].lane == lane && w.tasks[t].state.RetryWait?
    && LaneSpend(w, job, lane) >= BudgetField(cfg.budgets[job], lane).value
  }

  lemma StepKeepsStuck(cfg: Config, w: World, op: Op, t: TaskId, job: JobId, lane: Lane)
    requires Budgeted(lane) && HasBudget(cfg, job, lane) && StuckRetry(cfg, w, t, job, lane)
    requires Disciplined(w, op) && KeepsSpend(cfg, w, op, job, lane)
    ensures StuckRetry(cfg, Apply(cfg, w, op), t, job, lane)
  {
    ApplyIsNextTask(cfg, w, op, t);
    SubsetSize(SpendSet(w.tasks, job, lane), SpendSet(Apply(cfg, w, op).tasks, job, lane));
  }

  /** At a full budget a retry stays in RETRY_WAIT for as long as no counted task of its job and lane fails for good. */
  lemma {:induction false} RetryStarvesAtFullBudget(cfg: Config, w: World, ops: seq<Op>, t: TaskId, job: JobId,
                                                    lane: Lane)
    requires Budgeted(lane) && HasBudget(cfg, job, lane) && StuckRetry(cfg, w, t, job, lane)
    requires DisciplinedRun(cfg, w, ops) && SpendKeepingRun(cfg, w, ops, job, lane)
    ensures StuckRetry(cfg, Exec(cfg, w, ops), t, job, lane)
  {
    if ops != [] {
      var front, op := ops[..|ops| - 1], ops[|ops| - 1];
      var v := Exec(cfg, w, front);
      DisciplinedFront(cfg, w, ops);
      forall i | 0 <= i < |front|
        ensures KeepsSpend(cfg, Exec(cfg, w, front[..i]), front[i], job, lane)
      {
        assert front[..i] == ops[..i];
      }
      RetryStarvesAtFullBudget(cfg, w, front, t, job, lane);
      assert KeepsSpend(cfg, v, op, job, lane);
      StepKeepsStuck(cfg, v, op, t, job, lane);
    }
  }
}
