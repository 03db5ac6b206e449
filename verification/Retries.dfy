/** How many failures a task survives: the attempt counter is raised once on failure and again on re-admission. */
module Retries {
  import opened Lanes
  import opened World
  import opened Leases
  import Backoff

  /** The failure reports on a task in a run. */
  function Reports(ops: seq<Op>, t: TaskId): nat {
    if ops == [] then 0
    else
      var op := ops[|ops| - 1];
      Reports(ops[..|ops| - 1], t) + if op.OpReport? && op.task == t then 1 else 0
  }

  /**
   * Every failure of the task is retryable and reported with its stored attempt, and its workers write nothing but
   * RUNNING.
   */
  predicate Faithful(w: World, op: Op, t: TaskId, max: nat) {
    && (op.OpReport? && op.task == t ==>
          op.action.Retry? && op.maxAttempts == max && t in w.tasks && op.attempt == w.tasks[t].attempt)
    && (op.OpFenced? && op.task == t && Holds(w, t, op.worker, op.generation) ==> op.state.Running?)
  }

  predicate FaithfulRun(cfg: Config, w: World, ops: seq<Op>, t: TaskId, max: nat) {
    forall i :: 0 <= i < |ops| ==> Faithful(Exec(cfg, w, ops[..i]), ops[i], t, max)
  }

  lemma FaithfulFront(cfg: Config, w: World, ops: seq<Op>, t: TaskId, max: nat)
    requires ops != [] && FaithfulRun(cfg, w, ops, t, max)
    ensures FaithfulRun(cfg, w, ops[..|ops| - 1], t, max)
    ensures Faithful(Exec(cfg, w, ops[..|ops| - 1]), ops[|ops| - 1], t, max)
  {
    var front := ops[..|ops| - 1];
    forall i | 0 <= i < |front|
      ensures Faithful(Exec(cfg, w, front[..i]), front[i], t, max)
    {
      assert front[..i] == ops[..i];
    }
  }

  /** The attempt and state of a task after `k` reported failures. */
  predicate AttemptAfter(task: Task, k: nat, max: nat) {
    match task.state
    case DeadLetter => k == max / 2 + 1
    case RetryWait => k >= 1 && task.attempt == 2 * k && 2 * k <= max
    case Pending | Ready | Leased | Running => task.attempt == 2 * k + 1 && 2 * k <= max
    case _ => false
  }

  lemma StepKeepsAttempt(cfg: Config, w: World, op: Op, t: TaskId, k: nat, max: nat)
    requires t in w.tasks && AttemptAfter(w.tasks[t], k, max)
    requires Disciplined(w, op) && Faithful(w, op, t, max)
    ensures AttemptAfter(NextTask(cfg, w, op, t), k + if op.OpReport? && op.task == t then 1 else 0, max)
  {
  }

  lemma {:induction false} AttemptsFollowReports(cfg: Config, w: World, ops: seq<Op>, t: TaskId, max: nat)
    requires t in w.tasks && AttemptAfter(w.tasks[t], 0, max)
    requires DisciplinedRun(cfg, w, ops) && FaithfulRun(cfg, w, ops, t, max)
    ensures t in Exec(cfg, w, ops).tasks && AttemptAfter(Exec(cfg, w, ops).tasks[t], Reports(ops, t), max)
  {
    if ops != [] {
      var front, op := ops[..|ops| - 1], ops[|ops| - 1];
      DisciplinedFront(cfg, w, ops);
      FaithfulFront(cfg, w, ops, t, max);
      AttemptsFollowReports(cfg, w, front, t, max);
      ApplyIsNextTask(cfg, Exec(cfg, w, front), op, t);
      StepKeepsAttempt(cfg, Exec(cfg, w, front), op, t, Reports(front, t), max);
    }
  }

  /**
   * A task that starts at attempt 1 and always fails retryably is dead-lettered by exactly its (max/2 + 1)-th
   * failure.
   */
  lemma DeadLetterExact(cfg: Config, w: World, ops: seq<Op>, t: TaskId, max: nat)
    requires t in w.tasks && w.tasks[t].attempt == 1
    requires w.tasks[t].state.Pending? || w.tasks[t].state.Ready? || Active(w.tasks[t].state)
    requires DisciplinedRun(cfg, w, ops) && FaithfulRun(cfg, w, ops, t, max)
    ensures t in Exec(cfg, w, ops).tasks && Reports(ops, t) <= max / 2 + 1
    ensures Exec(cfg, w, ops).tasks[t].state.DeadLetter? <==> Reports(ops, t) == max / 2 + 1
  {
    AttemptsFollowReports(cfg, w, ops, t, max);
  }

  /** A dead-lettered task used the attempts its limit names exactly when the limit is one or two. */
  lemma AttemptLimitExact(cfg: Config, w: World, ops: seq<Op>, t: TaskId, max: nat)
    requires t in w.tasks && w.tasks[t].attempt == 1
    requires w.tasks[t].state.Pending? || w.tasks[t].state.Ready? || Active(w.tasks[t].state)
    requires DisciplinedRun(cfg, w, ops) && FaithfulRun(cfg, w, ops, t, max)
    requires t in Exec(cfg, w, ops).tasks && Exec(cfg, w, ops).tasks[t].state.DeadLetter?
    ensures Reports(ops, t) == max <==> max == 1 || max == 2
  {
    AttemptsFollowReports(cfg, w, ops, t, max);
  }

  lemma PrefixFaithful(cfg: Config, w: World, ops: seq<Op>, t: TaskId, max: nat, k: nat)
    requires k <= |ops| && FaithfulRun(cfg, w, ops, t, max)
    ensures FaithfulRun(cfg, w, ops[..k], t, max)
  {
    forall i | 0 <= i < k
      ensures Faithful(Exec(cfg, w, ops[..k][..i]), ops[..k][i], t, max)
    {
      assert ops[..k][..i] == ops[..i];
    }
  }

  /** A wait that some draw of the jitter gives for this attempt. */
  predicate IsBackoff(lane: Lane, attempt: int, wait: int) {
    0.75 * Backoff.RawDelay(lane, attempt) <= wait as real <= 1.25 * Backoff.RawDelay(lane, attempt)
  }

  /** Step `i` reports a failure of the task that is retried after the backoff of its next attempt. */
  predicate BacksOff(cfg: Config, w: World, ops: seq<Op>, i: nat, t: TaskId, max: nat, lane: Lane) {
    i < |ops| && ops[i].OpReport? && ops[i].task == t && ops[i].attempt + 1 <= max
    && IsBackoff(lane, ops[i].attempt + 1, ops[i].retryAt - Exec(cfg, w, ops[..i]).now)
  }

  /** The task waits for a retry, for a delay of this attempt. */
  predicate Waits(v: World, t: TaskId, lane: Lane, attempt: int) {
    t in v.tasks && v.tasks[t].state.RetryWait? && v.tasks[t].retryAt.Some?
    && IsBackoff(lane, attempt, v.tasks[t].retryAt.value - v.now)
  }

  lemma ReportWaits(cfg: Config, u: World, op: Op, t: TaskId, k: nat, max: nat, lane: Lane, v: World, attempt: int)
    requires t in u.tasks && AttemptAfter(u.tasks[t], k, max) && Disciplined(u, op) && Faithful(u, op, t, max)
    requires op.OpReport? && op.task == t && op.attempt + 1 <= max
        && IsBackoff(lane, op.attempt + 1, op.retryAt - u.now)
    requires v == Apply(cfg, u, op) && attempt == 2 * (k + 1)
    ensures Waits(v, t, lane, attempt)
  {
    ApplyIsNextTask(cfg, u, op, t);
    assert op.attempt + 1 == attempt;
  }

  lemma ReportCounted(ops: seq<Op>, i: nat, t: TaskId)
    requires i < |ops| && ops[i].OpReport? && ops[i].task == t
    ensures Reports(ops[..i + 1], t) == Reports(ops[..i], t) + 1
  {
    assert ops[..i + 1][..i] == ops[..i];
  }

  lemma AttemptBefore(cfg: Config, w: World, ops: seq<Op>, t: TaskId, max: nat, i: nat)
    requires t in w.tasks && AttemptAfter(w.tasks[t], 0, max) && i < |ops|
    requires DisciplinedRun(cfg, w, ops) && FaithfulRun(cfg, w, ops, t, max)
    ensures var u := Exec(cfg, w, ops[..i]);
            && t in u.tasks && AttemptAfter(u.tasks[t], Reports(ops[..i], t), max)
            && Disciplined(u, ops[i]) && Faithful(u, ops[i], t, max)
  {
    PrefixDisciplined(cfg, w, ops, i);
    PrefixFaithful(cfg, w, ops, t, max, i);
    AttemptsFollowReports(cfg, w, ops[..i], t, max);
  }

  lemma BackoffApplied(cfg: Config, w: World, ops: seq<Op>, t: TaskId, max: nat, i: nat, lane: Lane)
    requires BacksOff(cfg, w, ops, i, t, max, lane)
    requires var u := Exec(cfg, w, ops[..i]);
             && t in u.tasks && AttemptAfter(u.tasks[t], Reports(ops[..i], t), max)
             && Disciplined(u, ops[i]) && Faithful(u, ops[i], t, max)
    ensures Reports(ops[..i + 1], t) >= 1
    ensures Waits(Exec(cfg, w, ops[..i + 1]), t, lane, 2 * Reports(ops[..i + 1], t))
  {
    ExecSnoc(cfg, w, ops, i);
    ReportCounted(ops, i, t);
    ReportWaits(cfg, Exec(cfg, w, ops[..i]), ops[i], t, Reports(ops[..i], t), max, lane, Exec(cfg, w, ops[..i + 1]),
                2 * Reports(ops[..i + 1], t));
  }

  /**
   * In any run the k-th failure of a task, if it backs off, leaves the task waiting as attempt `2 * k`: for the delay
   * of the k-th step of its lane's schedule exactly when that step is at the ceiling already. Below the ceiling the
   * schedule loses every other step.
   */
  lemma RetryDelayExact(cfg: Config, w: World, ops: seq<Op>, t: TaskId, max: nat, i: nat, lane: Lane)
    requires t in w.tasks && w.tasks[t].attempt == 1
    requires w.tasks[t].state.Pending? || w.tasks[t].state.Ready? || Active(w.tasks[t].state)
    requires DisciplinedRun(cfg, w, ops) && FaithfulRun(cfg, w, ops, t, max)
    requires BacksOff(cfg, w, ops, i, t, max, lane)
    ensures var k := Reports(ops[..i + 1], t);
            && k >= 1 && Waits(Exec(cfg, w, ops[..i + 1]), t, lane, 2 * k)
            && (Backoff.RawDelay(lane, 2 * k) == Backoff.RawDelay(lane, k)
                <==> Backoff.Grown(lane, k) >= Backoff.LaneMax(lane))
  {
    AttemptBefore(cfg, w, ops, t, max, i);
    BackoffApplied(cfg, w, ops, t, max, i, lane);
    Backoff.SkippedStepExact(lane, Reports(ops[..i + 1], t));
  }
}
