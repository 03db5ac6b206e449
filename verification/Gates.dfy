/** Every answer to an admission, exactly: the gates on the columns and counts, in their order. */
module Gates {
  import opened Wrappers
  import opened Lanes
  import opened World
  import opened Spending

  /** The task waits, and every dependency in the table has succeeded unless it is a retry. */
  predicate Eligible(cfg: Config, w: World, t: TaskId) {
    t in w.tasks
    && (w.tasks[t].state.RetryWait?
        || (w.tasks[t].state.Pending?
            && forall d :: t in cfg.deps && d in cfg.deps[t] && d in w.tasks ==> w.tasks[d].state.Succeeded?))
  }

  predicate HeldBack(lane: Lane, paused: bool) {
    paused && (lane.Search? || lane.Http? || lane.Browser? || lane.Media?)
  }

  /** The job's budget for the lane is used up. */
  ghost predicate UsedUp(cfg: Config, w: World, job: JobId, lane: Lane) {
    exists budget :: BudgetIs(cfg, job, lane, budget) && |Kept(w, job, lane)| >= budget
  }

  /** The job has a budget for the lane with something left, or the lane needs none. */
  ghost predicate HasRoom(cfg: Config, w: World, job: JobId, lane: Lane) {
    lane.Extract? || lane.Enrich? || lane.Document? || lane.Index? || lane.Other?
    || exists budget :: BudgetIs(cfg, job, lane, budget) && |Kept(w, job, lane)| < budget
  }

  /** As many tasks of the lane as it may have are handed out. */
  ghost predicate Full(cfg: Config, w: World, lane: Lane) {
    exists limit :: LimitIs(cfg.limits, lane, limit) && |Aloft(w, lane)| >= limit
  }

  lemma BudgetOf(cfg: Config, job: JobId, lane: Lane, budget: int)
    ensures BudgetIs(cfg, job, lane, budget)
            <==> Budgeted(lane) && HasBudget(cfg, job, lane) && BudgetField(cfg.budgets[job], lane).value == budget
  {
  }

  lemma LimitOf(cfg: Config, lane: Lane, limit: int)
    ensures LimitIs(cfg.limits, lane, limit) <==> InFlightLimit(cfg.limits, lane) == Some(limit)
  {
  }

  lemma FullExact(cfg: Config, w: World, lane: Lane)
    ensures Full(cfg, w, lane)
            <==> InFlightLimit(cfg.limits, lane).Some? && LaneInFlight(w, lane) >= InFlightLimit(cfg.limits, lane).value
  {
    assert FlightSet(w.tasks, lane) == Aloft(w, lane);
    forall limit
      ensures LimitIs(cfg.limits, lane, limit) <==> InFlightLimit(cfg.limits, lane) == Some(limit)
    {
      LimitOf(cfg, lane, limit);
    }
  }

  lemma BudgetExact(cfg: Config, w: World, job: JobId, lane: Lane)
    ensures UsedUp(cfg, w, job, lane)
            <==> Budgeted(lane) && HasBudget(cfg, job, lane)
                 && LaneSpend(w, job, lane) >= BudgetField(cfg.budgets[job], lane).value
    ensures HasRoom(cfg, w, job, lane)
            <==> !Budgeted(lane) || (HasBudget(cfg, job, lane)
                                     && LaneSpend(w, job, lane) < BudgetField(cfg.budgets[job], lane).value)
  {
    SpendIsKept(w, job, lane);
    forall budget
      ensures BudgetIs(cfg, job, lane, budget)
              <==> Budgeted(lane) && HasBudget(cfg, job, lane) && BudgetField(cfg.budgets[job], lane).value == budget
    {
      BudgetOf(cfg, job, lane, budget);
    }
    if Budgeted(lane) && HasBudget(cfg, job, lane) {
      assert BudgetIs(cfg, job, lane, BudgetField(cfg.budgets[job], lane).value);
    }
  }

  /** Each answer to an admission is given exactly when its gate is the first that does not let the task through. */
  lemma AnswersExact(cfg: Config, w: World, t: TaskId, paused: bool)
    requires Eligible(cfg, w, t)
    ensures var outcome := Gate(cfg, w, t, paused);
            var job, lane := w.tasks[t].job, w.tasks[t].lane;
            && (outcome.BackpressurePaused? <==> HeldBack(lane, paused))
            && (outcome.BudgetExhausted? <==> !HeldBack(lane, paused) && UsedUp(cfg, w, job, lane))
            && (outcome.MaxInFlightExceeded? <==>
                  !HeldBack(lane, paused) && HasRoom(cfg, w, job, lane) && Full(cfg, w, lane))
            && (outcome.Admitted? <==>
                  !HeldBack(lane, paused) && HasRoom(cfg, w, job, lane) && !Full(cfg, w, lane) && !lane.Other?)
  {
    BudgetExact(cfg, w, w.tasks[t].job, w.tasks[t].lane);
    FullExact(cfg, w, w.tasks[t].lane);
    StreamForExact(w.tasks[t].lane, w.tasks[t].priority);
  }

  /** A task that is not eligible is never admitted, and the answer says what it lacks. */
  lemma IneligibleAnswers(cfg: Config, w: World, t: TaskId, paused: bool)
    requires !Eligible(cfg, w, t)
    ensures var outcome := Gate(cfg, w, t, paused);
            && (outcome.TaskNotFound? <==> t !in w.tasks)
            && (outcome.WrongState? <==> t in w.tasks && !w.tasks[t].state.Pending?)
            && (outcome.DependenciesUnsatisfied? <==> t in w.tasks && w.tasks[t].state.Pending?)
  {
  }
}
