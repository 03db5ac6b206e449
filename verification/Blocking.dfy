/** Tasks nothing can admit: how one of them blocks every tick that picks it. */
module Blocking {
  import opened Wrappers
  import opened World
  import opened ControlPlane
  import opened Ticks
  import Dependencies
  import Leases

  /** Waiting for an admission it can never get: its lane has no stream, or its job no budget for the lane. */
  predicate Unadmittable(cfg: Config, w: World, t: TaskId) {
    t in w.tasks && (w.tasks[t].state.Pending? || w.tasks[t].state.RetryWait?)
    && (w.tasks[t].lane.Other? || Unbudgeted(cfg, w.tasks[t]))
  }

  /** In no disciplined run does such a task ever move. */
  lemma {:induction false} UnadmittableNeverMoves(cfg: Config, w: World, ops: seq<Op>, t: TaskId)
    requires Unadmittable(cfg, w, t) && Leases.LeaseOk(w.tasks[t]) && Leases.DisciplinedRun(cfg, w, ops)
    ensures t in Exec(cfg, w, ops).tasks && Exec(cfg, w, ops).tasks[t] == w.tasks[t]
    ensures Exec(cfg, w, ops).now >= w.now
  {
    if ops != [] {
      var front, op := ops[..|ops| - 1], ops[|ops| - 1];
      Leases.DisciplinedFront(cfg, w, ops);
      UnadmittableNeverMoves(cfg, w, front, t);
      Leases.ApplyIsNextTask(cfg, Exec(cfg, w, front), op, t);
      Leases.ClockGrows(cfg, Exec(cfg, w, front), op);
    }
  }

  /** Once eligible it stays eligible, so every later query lists it again. */
  lemma UnadmittableStaysCandidate(cfg: Config, w: World, ops: seq<Op>, t: TaskId)
    requires Unadmittable(cfg, w, t) && Leases.LeaseOk(w.tasks[t]) && Leases.DisciplinedRun(cfg, w, ops)
    requires Dependencies.IsCandidate(cfg, w, t) && DepsOf(cfg, t) <= w.tasks.Keys
    ensures Dependencies.IsCandidate(cfg, Exec(cfg, w, ops), t)
  {
    UnadmittableNeverMoves(cfg, w, ops, t);
    if w.tasks[t].state.Pending? {
      forall d | d in DepsOf(cfg, t)
        ensures d in Exec(cfg, w, ops).tasks && Exec(cfg, w, ops).tasks[d].state == Succeeded
      {
        Leases.TerminalIsFinal(cfg, w, ops, d);
      }
    }
  }

  /**
   * One such task aborts every tick that picks it while its lane is open, in every later table, and no pick ordered
   * after it gets anything; picked first, it makes the whole tick a no-op.
   */
  lemma UnadmittableStarves(cfg: Config, w: World, ops: seq<Op>, ts: seq<TaskId>, paused: bool, i: nat)
    requires i < |ts| && Unadmittable(cfg, w, ts[i]) && (w.tasks[ts[i]].lane.Other? || !paused)
    requires Leases.LeaseOk(w.tasks[ts[i]]) && Leases.DisciplinedRun(cfg, w, ops)
    requires ArePicks(cfg, Exec(cfg, w, ops), ts)
    ensures var v := Exec(cfg, w, ops);
            var (u, result) := TryAll(cfg, v, ts, paused);
            && result.Raised? && (i == 0 ==> u == v)
            && forall j :: i <= j < |ts| ==> ts[j] in v.tasks && ts[j] in u.tasks && u.tasks[ts[j]] == v.tasks[ts[j]]
  {
    var v := Exec(cfg, w, ops);
    UnadmittableNeverMoves(cfg, w, ops, ts[i]);
    TickReturnsExact(cfg, v, ts, paused);
    var k := TickAborts(cfg, v, ts, paused);
    if i == 0 {
      StopsAtFirst(cfg, v, ts, paused);
    }
  }

  /** Where the caller commits, a tick that picks such a task changes nothing, wherever it stands in the batch. */
  lemma UnadmittableBlocksAll(cfg: Config, w: World, ops: seq<Op>, ts: seq<TaskId>, paused: bool, i: nat)
    requires i < |ts| && Unadmittable(cfg, w, ts[i]) && (w.tasks[ts[i]].lane.Other? || !paused)
    requires Leases.LeaseOk(w.tasks[ts[i]]) && Leases.DisciplinedRun(cfg, w, ops)
    requires ArePicks(cfg, Exec(cfg, w, ops), ts)
    ensures Committed(cfg, Exec(cfg, w, ops), ts, paused, AfterTick) == Exec(cfg, w, ops)
  {
    UnadmittableStarves(cfg, w, ops, ts, paused, i);
  }

  /** A stored budget that names only the search lane: the first eligible http task of its job aborts the tick. */
  lemma PartialBudgetAborts(cfg: Config, w: World, t: TaskId)
    requires Dependencies.IsCandidate(cfg, w, t) && w.tasks[t].lane.Http?
    requires w.tasks[t].job in cfg.budgets && cfg.budgets[w.tasks[t].job] == Budget(Some(5), None, None, None)
    ensures TryAll(cfg, w, [t], false) == (w, Raised(t))
  {
    TickReturnsExact(cfg, w, [t], false);
    var k := TickAborts(cfg, w, [t], false);
    StopsAtFirst(cfg, w, [t], false);
  }

  lemma StopsAtFirst(cfg: Config, v: World, ts: seq<TaskId>, paused: bool)
    requires ts != [] && ArePicks(cfg, v, ts) && ts[0] in v.tasks && Unanswerable(cfg, v, ts[0], paused)
    ensures TryAll(cfg, v, ts, paused).0 == v
  {
    RefusalExact(cfg, v, ts, 0, paused);
    RaisesHere(cfg, v, ts, 0, paused);
    assert ts[..1][..0] == [];
    RaisedStays(cfg, v, ts, paused, 1);
  }
}
