/** The downstream backlog on events: what was added and has not ended, whoever holds it. */
module Backlogs {
  import opened Wrappers
  import opened Lanes
  import opened World
  import opened Leases
  import opened Backpressure
  import opened Spending

  /** The task has ended, with a result or without. */
  predicate Over(s: State) {
    s.Succeeded? || s.Blocked? || s.Failed? || s.DeadLetter?
  }

  /** The task is of the lane and not over. */
  predicate Unfinished(w: World, t: TaskId, lane: Lane) {
    t in w.tasks && w.tasks[t].lane == lane && !Over(w.tasks[t].state)
  }

  /** The step adds a task of the lane. */
  predicate Adds(cfg: Config, w: World, op: Op, lane: Lane) {
    match Subject(op)
    case Some(t) => t !in w.tasks && t in Apply(cfg, w, op).tasks && Apply(cfg, w, op).tasks[t].lane == lane
    case None => false
  }

  /** The step ends a task of the lane. */
  predicate Finishes(cfg: Config, w: World, op: Op, lane: Lane) {
    match Subject(op)
    case Some(t) => Unfinished(w, t, lane) && !Unfinished(Apply(cfg, w, op), t, lane)
    case None => false
  }

  function Added(cfg: Config, w: World, ops: seq<Op>, lane: Lane): nat {
    if ops == [] then 0
    else
      var front := ops[..|ops| - 1];
      Added(cfg, w, front, lane) + if Adds(cfg, Exec(cfg, w, front), ops[|ops| - 1], lane) then 1 else 0
  }

  function Finished(cfg: Config, w: World, ops: seq<Op>, lane: Lane): nat {
    if ops == [] then 0
    else
      var front := ops[..|ops| - 1];
      Finished(cfg, w, front, lane) + if Finishes(cfg, Exec(cfg, w, front), ops[|ops| - 1], lane) then 1 else 0
  }

  lemma BacklogIsUnfinished(w: World, lane: Lane, t: TaskId)
    ensures t in BacklogSet(w.tasks, lane) <==> Unfinished(w, t, lane)
  {
  }

  lemma OthersUnfinished(cfg: Config, w: World, op: Op, lane: Lane, x: TaskId)
    requires Disciplined(w, op) && Subject(op) != Some(x)
    ensures Unfinished(Apply(cfg, w, op), x, lane) <==> Unfinished(w, x, lane)
  {
    if x in w.tasks {
      ApplyIsNextTask(cfg, w, op, x);
    } else if x in Apply(cfg, w, op).tasks {
      ApplyAddsFresh(cfg, w, op, x);
    }
  }

  lemma SubjectUnfinished(cfg: Config, w: World, op: Op, lane: Lane, t: TaskId)
    requires Disciplined(w, op) && Subject(op) == Some(t)
    ensures (if Unfinished(Apply(cfg, w, op), t, lane) then 1 else 0) + (if Finishes(cfg, w, op, lane) then 1 else 0)
            == (if Unfinished(w, t, lane) then 1 else 0) + if Adds(cfg, w, op, lane) then 1 else 0
  {
    if t in w.tasks {
      ApplyIsNextTask(cfg, w, op, t);
    } else if t in Apply(cfg, w, op).tasks {
      ApplyAddsFresh(cfg, w, op, t);
    }
  }

  lemma StepConservesBacklog(cfg: Config, w: World, op: Op, lane: Lane)
    requires Disciplined(w, op)
    ensures |BacklogSet(Apply(cfg, w, op).tasks, lane)| + (if Finishes(cfg, w, op, lane) then 1 else 0)
            == |BacklogSet(w.tasks, lane)| + if Adds(cfg, w, op, lane) then 1 else 0
  {
    var before, after := BacklogSet(w.tasks, lane), BacklogSet(Apply(cfg, w, op).tasks, lane);
    forall x
      ensures x in before <==> Unfinished(w, x, lane)
      ensures x in after <==> Unfinished(Apply(cfg, w, op), x, lane)
      ensures Subject(op) != Some(x) ==> (x in after <==> x in before)
    {
      BacklogIsUnfinished(w, lane, x);
      BacklogIsUnfinished(Apply(cfg, w, op), lane, x);
      if Subject(op) != Some(x) {
        OthersUnfinished(cfg, w, op, lane, x);
      }
    }
    match Subject(op)
    case Some(t) =>
      SubjectUnfinished(cfg, w, op, lane, t);
      OneMember(before, after, t);
    case None =>
      assert after == before;
  }

  /**
   * In every disciplined run the measured backlog of a lane grows by exactly the tasks added and shrinks by exactly
   * those that ended: leasing, failing with a retry, reaping and publishing leave it as it is.
   */
  lemma {:induction false} BacklogConserved(cfg: Config, w: World, ops: seq<Op>, lane: Lane)
    requires DisciplinedRun(cfg, w, ops)
    ensures |BacklogSet(Exec(cfg, w, ops).tasks, lane)| + Finished(cfg, w, ops, lane)
            == |BacklogSet(w.tasks, lane)| + Added(cfg, w, ops, lane)
  {
    if ops != [] {
      var front := ops[..|ops| - 1];
      DisciplinedFront(cfg, w, ops);
      BacklogConserved(cfg, w, front, lane);
      StepConservesBacklog(cfg, Exec(cfg, w, front), ops[|ops| - 1], lane);
    }
  }

  /** From an empty table the measured levels of the three downstream lanes are what was added and has not ended. */
  lemma MeasureByEvents(cfg: Config, w: World, ops: seq<Op>)
    requires DisciplinedRun(cfg, w, ops) && w.tasks == map[]
    ensures var r := Measure(Exec(cfg, w, ops));
            && r.extract == Added(cfg, w, ops, Extract) - Finished(cfg, w, ops, Extract)
            && r.enrich == Added(cfg, w, ops, Enrich) - Finished(cfg, w, ops, Enrich)
            && r.index == Added(cfg, w, ops, Index) - Finished(cfg, w, ops, Index)
  {
    BacklogConserved(cfg, w, ops, Extract);
    BacklogConserved(cfg, w, ops, Enrich);
    BacklogConserved(cfg, w, ops, Index);
    assert BacklogSet(w.tasks, Extract) == {} && BacklogSet(w.tasks, Enrich) == {} && BacklogSet(w.tasks, Index) == {};
  }
}
