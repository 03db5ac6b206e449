/** Leases over whole runs: what the generation counts, when a lapsed lease is free, and what the reaper clears. */
module LeaseRuns {
  import opened Wrappers
  import opened World
  import opened Leases
  import opened ControlPlane

  /** The step gives the task a new generation: a grant of its lease, or a retry. */
  predicate Renews(cfg: Config, w: World, op: Op, t: TaskId) {
    match op
    case OpAcquire(u, worker, duration) => u == t && Acquire(w, t, worker, duration).1.Some?
    case OpReport(u, action, attempt, maxAttempts, _) => u == t && action.Retry? && attempt + 1 <= maxAttempts
    case _ => false
  }

  function Renewals(cfg: Config, w: World, ops: seq<Op>, t: TaskId): nat {
    if ops == [] then 0
    else
      var front := ops[..|ops| - 1];
      Renewals(cfg, w, front, t) + if Renews(cfg, Exec(cfg, w, front), ops[|ops| - 1], t) then 1 else 0
  }

  /** The generation counts exactly the grants and the retries of a task: nothing else moves it. */
  lemma {:induction false} GenerationCounts(cfg: Config, w: World, ops: seq<Op>, t: TaskId)
    requires t in w.tasks
    ensures t in Exec(cfg, w, ops).tasks
    ensures Exec(cfg, w, ops).tasks[t].generation == w.tasks[t].generation + Renewals(cfg, w, ops, t)
  {
    if ops != [] {
      GenerationCounts(cfg, w, ops[..|ops| - 1], t);
      ApplyIsNextTask(cfg, Exec(cfg, w, ops[..|ops| - 1]), ops[|ops| - 1], t);
    }
  }

  // ---- The end of a task -----------------------------------------------------------------

  /** A task that succeeded, failed, was blocked or was dead-lettered is never changed by a disciplined run. */
  lemma EndedStays(cfg: Config, w: World, ops: seq<Op>, t: TaskId)
    requires t in w.tasks && DisciplinedRun(cfg, w, ops)
    requires var s := w.tasks[t].state; s.Succeeded? || s.Failed? || s.Blocked? || s.DeadLetter?
    ensures t in Exec(cfg, w, ops).tasks && Exec(cfg, w, ops).tasks[t] == w.tasks[t]
  {
    TerminalIsFinal(cfg, w, ops, t);
  }

  /** The discipline lets the holder of a leased or running task write RUNNING or any of the four ends, nothing else. */
  lemma HolderWrites(w: World, t: TaskId, worker: WorkerId, generation: int, s: State)
    requires Holds(w, t, worker, generation) && (w.tasks[t].state.Leased? || w.tasks[t].state.Running?)
    ensures Disciplined(w, OpFenced(t, worker, generation, s))
            <==> s.Running? || s.Succeeded? || s.Failed? || s.Blocked? || s.DeadLetter?
    ensures FencedUpdate(w, t, worker, generation, s) == (w.(tasks := w.tasks[t := w.tasks[t].(state := s)]), true)
  {
  }

  // ---- Lapsed leases --------------------------------------------------------------------

  /** The worker that holds the task is silent: nobody heartbeats, writes or reports on it. */
  predicate Silent(op: Op, t: TaskId) {
    !(op.OpHeartbeat? && op.task == t) && !(op.OpFenced? && op.task == t) && !(op.OpReport? && op.task == t)
  }

  /** As long as a silent worker holds its token, the task is as the grant left it. */
  lemma {:induction false} SilentHolder(cfg: Config, v: World, ops: seq<Op>, t: TaskId, g: Grant)
    requires Holds(v, t, g.worker, g.generation) && v.tasks[t].state.Leased? && v.tasks[t].expires == Some(g.expires)
    requires forall i :: 0 <= i < |ops| ==> Silent(ops[i], t)
    ensures Issued(Exec(cfg, v, ops), t, g.generation)
    ensures Holds(Exec(cfg, v, ops), t, g.worker, g.generation) ==> Exec(cfg, v, ops).tasks[t] == v.tasks[t]
  {
    if ops != [] {
      var u, op := Exec(cfg, v, ops[..|ops| - 1]), ops[|ops| - 1];
      SilentHolder(cfg, v, ops[..|ops| - 1], t, g);
      ApplyIsNextTask(cfg, u, op, t);
      if !Holds(u, t, g.worker, g.generation) {
        StaleStaysStale(cfg, u, op, t, g.worker, g.generation);
      }
    }
  }

  /**
   * Once its time is over, a silent worker's lease holds the task from nobody: it was taken already, or anyone can take
   * it and the reaper sees it. Before, nobody can.
   */
  lemma LapsedLeaseIsFree(cfg: Config, w: World, ops: seq<Op>, t: TaskId, worker: WorkerId, duration: int,
                          other: WorkerId, time: int)
    requires Acquire(w, t, worker, duration).1.Some?
    requires forall i :: 0 <= i < |ops| ==> Silent(ops[i], t)
    ensures var (v, grant) := Acquire(w, t, worker, duration);
            var u := Exec(cfg, v, ops);
            Holds(u, t, worker, grant.value.generation) ==>
              && (Acquire(u, t, other, time).1.Some? <==> u.now > w.now + duration)
              && (t in ExpiredTasks(u) <==> u.now > w.now + duration)
  {
    var (v, grant) := Acquire(w, t, worker, duration);
    SilentHolder(cfg, v, ops, t, grant.value);
  }

  // ---- What is granted and what is extended ---------------------------------------------------

  /** A grant names its worker, a generation one higher, and the end of the lease. */
  lemma GrantExact(w: World, t: TaskId, worker: WorkerId, duration: int)
    requires Acquire(w, t, worker, duration).1.Some?
    ensures var (v, grant) := Acquire(w, t, worker, duration);
            && t in w.tasks && grant.value == Grant(worker, w.tasks[t].generation + 1, w.now + duration)
            && Holds(v, t, worker, grant.value.generation) && v.tasks[t].state.Leased?
            && v.tasks[t].expires == Some(grant.value.expires) && v.now == w.now
            && v.outbox == w.outbox && v.streams == w.streams
            && forall u :: u != t ==> (u in v.tasks <==> u in w.tasks) && (u in w.tasks ==> v.tasks[u] == w.tasks[u])
  {
  }

  /** A heartbeat moves the end of the lease to `duration` from now, and nothing else. */
  lemma HeartbeatExtends(w: World, t: TaskId, worker: WorkerId, generation: int, duration: int)
    requires Heartbeat(w, t, worker, generation, duration).1.Some?
    ensures var (v, until) := Heartbeat(w, t, worker, generation, duration);
            && until == Some(w.now + duration) && t in w.tasks
            && v == w.(tasks := w.tasks[t := w.tasks[t].(expires := until)])
  {
  }

  // ---- The reaper --------------------------------------------------------------------------------

  /** The task is with a worker past the end of its lease. */
  predicate Overdue(w: World, t: TaskId) {
    t in w.tasks && (w.tasks[t].state.Leased? || w.tasks[t].state.Running?) && w.tasks[t].expires.Some?
    && w.tasks[t].expires.value < w.now
  }

  /**
   * A reaper pass hands back exactly the selected tasks, READY and without owner or end, keeping generation and
   * attempt; a pass that does not use up its limit leaves nothing overdue, and one that does leaves only later ends.
   */
  lemma ReapExact(w: World, ids: seq<TaskId>, limit: nat)
    requires IsReapSelection(w, ids, limit)
    ensures var v := Reap(w, set t | t in ids);
            && v.tasks.Keys == w.tasks.Keys && v.outbox == w.outbox && v.streams == w.streams && v.now == w.now
            && (forall t :: t in ids ==>
                  Overdue(w, t) && v.tasks[t] == w.tasks[t].(state := Ready, owner := None, expires := None))
            && (forall t :: t in w.tasks && t !in ids ==> v.tasks[t] == w.tasks[t])
            && |ids| <= limit && (|ids| < limit ==> forall t :: !Overdue(v, t))
            && (forall t, u :: t in ids && Overdue(v, u) ==> w.tasks[t].expires.value <= w.tasks[u].expires.value)
  {
    forall t | Overdue(w, t)
      ensures t in ExpiredTasks(w)
    {
    }
  }
}
