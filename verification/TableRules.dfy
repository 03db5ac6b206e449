/** What the task table and the outbox rows keep over whole runs, column by column, and what a pause holds back. */
module TableRules {
  import opened Wrappers
  import opened Lanes
  import opened World
  import opened Leases
  import Outbox

  // ---- Keys and ranges ---------------------------------------------------------------

  /** Priorities in range, known jobs, and no two tasks with one idempotency key. */
  predicate TableOk(cfg: Config, w: World) {
    && (forall t :: t in w.tasks ==> 0 <= w.tasks[t].priority <= 3 && w.tasks[t].job in cfg.budgets)
    && (forall t, u :: t in w.tasks && u in w.tasks && w.tasks[t].key == w.tasks[u].key ==> t == u)
  }

  lemma StepKeepsTable(cfg: Config, w: World, op: Op)
    requires TableOk(cfg, w)
    ensures TableOk(cfg, Apply(cfg, w, op))
  {
    var v := Apply(cfg, w, op);
    forall t | t in v.tasks
      ensures 0 <= v.tasks[t].priority <= 3 && v.tasks[t].job in cfg.budgets
      ensures t in w.tasks ==> v.tasks[t].key == w.tasks[t].key
    {
      ColumnsKept(cfg, w, op, t);
    }
    forall t, u | t in v.tasks && u in v.tasks && v.tasks[t].key == v.tasks[u].key
      ensures t == u
    {
      KeysApart(cfg, w, op, t, u);
    }
  }

  /** Job, lane, priority, key, payload reference and times of creation never change. */
  lemma ColumnsKept(cfg: Config, w: World, op: Op, t: TaskId)
    requires t in Apply(cfg, w, op).tasks
    ensures var v := Apply(cfg, w, op);
            if t in w.tasks then
              && v.tasks[t].job == w.tasks[t].job && v.tasks[t].lane == w.tasks[t].lane
              && v.tasks[t].priority == w.tasks[t].priority && v.tasks[t].key == w.tasks[t].key
              && v.tasks[t].payloadRef == w.tasks[t].payloadRef && v.tasks[t].createdAt == w.tasks[t].createdAt
              && v.tasks[t].notBefore == w.tasks[t].notBefore
            else
              && 0 <= v.tasks[t].priority <= 3 && v.tasks[t].job in cfg.budgets
              && forall u :: u in w.tasks ==> w.tasks[u].key != v.tasks[t].key
  {
    if t in w.tasks {
      ApplyIsNextTask(cfg, w, op, t);
    } else {
      ApplyAddsFresh(cfg, w, op, t);
    }
  }

  lemma KeysApart(cfg: Config, w: World, op: Op, t: TaskId, u: TaskId)
    requires TableOk(cfg, w)
    requires var v := Apply(cfg, w, op); t in v.tasks && u in v.tasks && v.tasks[t].key == v.tasks[u].key
    ensures t == u
  {
    ColumnsKept(cfg, w, op, t);
    ColumnsKept(cfg, w, op, u);
    if t !in w.tasks {
      ApplyAddsFresh(cfg, w, op, t);
    }
    if u !in w.tasks {
      ApplyAddsFresh(cfg, w, op, u);
    }
  }

  /** In every run keys stay unique, priorities in range and jobs known. */
  lemma {:induction false} RunKeepsTable(cfg: Config, w: World, ops: seq<Op>)
    requires TableOk(cfg, w)
    ensures TableOk(cfg, Exec(cfg, w, ops))
  {
    if ops != [] {
      RunKeepsTable(cfg, w, ops[..|ops| - 1]);
      StepKeepsTable(cfg, Exec(cfg, w, ops[..|ops| - 1]), ops[|ops| - 1]);
    }
  }

  /** A task whose key is taken is not added, by either way in. */
  lemma TakenKeyAddsNothing(cfg: Config, w: World, t: TaskId, u: TaskId, row: Task)
    requires u in w.tasks && w.tasks[u].key == row.key
    ensures AddPending(cfg, w, t, row) == w && Enqueue(cfg, w, t, row).0 == w
  {
    assert KeyTaken(w, row.key);
  }

  // ---- Retry times ----------------------------------------------------------------------

  /** A retry time is set exactly while the task waits for its retry. */
  predicate RetryTimeOk(task: Task) {
    task.retryAt.Some? <==> task.state.RetryWait?
  }

  /** In disciplined runs a task carries a retry time exactly while it waits for one. */
  lemma {:induction false} RetryTimeExactlyWaiting(cfg: Config, w: World, ops: seq<Op>, t: TaskId)
    requires DisciplinedRun(cfg, w, ops) && t in Exec(cfg, w, ops).tasks
    requires t in w.tasks ==> RetryTimeOk(w.tasks[t])
    ensures RetryTimeOk(Exec(cfg, w, ops).tasks[t])
  {
    if ops != [] {
      var v, op := Exec(cfg, w, ops[..|ops| - 1]), ops[|ops| - 1];
      DisciplinedFront(cfg, w, ops);
      if t in v.tasks {
        RetryTimeExactlyWaiting(cfg, w, ops[..|ops| - 1], t);
        ApplyIsNextTask(cfg, v, op, t);
      } else {
        ApplyAddsFresh(cfg, v, op, t);
      }
    }
  }

  // ---- Payloads --------------------------------------------------------------------------------

  /** The payload has the columns of the task. */
  predicate Describes(p: Payload, t: TaskId, task: Task) {
    && p.task == t && p.job == task.job && p.lane == task.lane && p.priority == task.priority
    && p.attempt == task.attempt && p.key == task.key && p.payloadRef == task.payloadRef
    && p.createdAt == task.createdAt
  }

  /**
   * In every disciplined run a task a worker may hold has an outbox row that describes it as it is, on its lane's
   * stream.
   */
  lemma RowsDescribe(cfg: Config, w: World, ops: seq<Op>, t: TaskId) returns (i: nat)
    requires Outbox.TasksHaveRows(w) && DisciplinedRun(cfg, w, ops)
    requires var v := Exec(cfg, w, ops);
             t in v.tasks && (v.tasks[t].state.Ready? || v.tasks[t].state.Leased? || v.tasks[t].state.Running?)
    ensures var v := Exec(cfg, w, ops);
            && i < |v.outbox| && v.outbox[i].task == t && Describes(v.outbox[i].payload, t, v.tasks[t])
            && v.outbox[i].stream.lane == v.tasks[t].lane
  {
    Outbox.ReadyTasksHaveRows(cfg, w, ops);
    var v := Exec(cfg, w, ops);
    i :| 0 <= i < |v.outbox| && Outbox.IsRowFor(t, v.tasks[t], v.outbox[i]);
  }

  /** The new row of a step: unpublished, on the lane's stream, and describing the READY task it was written with. */
  predicate NewRow(w: World, v: World, t: TaskId, event: nat, stream: Stream) {
    && |v.outbox| == |w.outbox| + 1 && w.outbox <= v.outbox && event == |w.outbox| && v.streams == w.streams
    && t in v.tasks && v.tasks[t].state.Ready? && stream.lane == v.tasks[t].lane
    && v.outbox[event].task == t && v.outbox[event].stream == stream && !v.outbox[event].published
    && Describes(v.outbox[event].payload, t, v.tasks[t])
  }

  ghost predicate OthersStay(w: World, v: World, t: TaskId) {
    forall u :: u != t ==> (u in v.tasks <==> u in w.tasks) && (u in w.tasks ==> v.tasks[u] == w.tasks[u])
  }

  /** An enqueue writes the task and its row together, and answers with that row; otherwise it writes nothing. */
  lemma EnqueueWritesBoth(cfg: Config, w: World, t: TaskId, task: Task)
    ensures var (v, outcome) := Enqueue(cfg, w, t, task);
            match outcome
            case Enqueued(event, stream) =>
              && t !in w.tasks && NewRow(w, v, t, event, stream) && OthersStay(w, v, t)
              && v.tasks[t] == task.(state := Ready)
            case UnknownLane => v == w && task.lane.Other?
            case ConstraintViolation => v == w && !task.lane.Other?
  {
    StreamForExact(task.lane, task.priority);
  }

  /** An admission writes the task and its row together: a retry as its next attempt, both without a retry time. */
  lemma AdmitWritesBoth(cfg: Config, w: World, t: TaskId, paused: bool)
    ensures var (v, outcome) := Admit(cfg, w, t, paused);
            match outcome
            case Admitted(event, stream) =>
              && t in w.tasks && NewRow(w, v, t, event, stream) && OthersStay(w, v, t)
              && v.tasks[t].attempt == w.tasks[t].attempt + (if w.tasks[t].state.RetryWait? then 1 else 0)
              && v.tasks[t] == w.tasks[t].(state := Ready, retryAt := None, attempt := v.tasks[t].attempt)
            case _ => v == w
  {
    if t in w.tasks {
      StreamForExact(w.tasks[t].lane, w.tasks[t].priority);
    }
  }

  /** How a failure report answers and what it leaves: other tasks stay, and a missing one is not created. */
  lemma ReportAnswers(w: World, t: TaskId, action: FailureAction, attempt: int, maxAttempts: int, retryAt: int)
    ensures var (v, outcome) := ReportFailure(w, t, action, attempt, maxAttempts, retryAt);
            && OthersStay(w, v, t) && (t in v.tasks <==> t in w.tasks) && v.outbox == w.outbox && v.streams == w.streams
            && match outcome
               case WasBlocked => action.Block? && (t in w.tasks ==> v.tasks[t].state.Blocked?)
               case WasFailed => action.GiveUp? && (t in w.tasks ==> v.tasks[t].state.Failed?)
               case WasDeadLettered =>
                 action.Retry? && attempt >= maxAttempts && t in w.tasks && v.tasks[t].state.DeadLetter?
               case LookupError => action.Retry? && attempt >= maxAttempts && t !in w.tasks
               case WillRetry(next) =>
                 action.Retry? && attempt < maxAttempts && next == attempt + 1
                 && (t in w.tasks ==> v.tasks[t].state.RetryWait? && v.tasks[t].attempt == next
                                      && v.tasks[t].retryAt == Some(retryAt) && v.tasks[t].owner.None?)
  {
  }

  // ---- The pause ----------------------------------------------------------------------------------

  predicate Fetches(lane: Lane) {
    lane.Search? || lane.Http? || lane.Browser? || lane.Media?
  }

  /** The pause holds back the four fetch lanes and nothing else: any other task is judged as if there were none. */
  lemma PauseExact(cfg: Config, w: World, t: TaskId)
    requires t in w.tasks
    ensures Fetches(w.tasks[t].lane) ==> Admit(cfg, w, t, true).0 == w && !Admit(cfg, w, t, true).1.Admitted?
    ensures !Fetches(w.tasks[t].lane) ==> Admit(cfg, w, t, true) == Admit(cfg, w, t, false)
  {
  }
}
