/** When a waiting task may be tried: the candidate query on the columns and the clock, and over whole runs. */
module Eligibility {
  import opened Ordering
  import opened Wrappers
  import opened Lanes
  import opened World
  import opened Leases
  import opened ControlPlane
  import Fairness

  // ---- The query ---------------------------------------------------------------------

  /** The time before which a waiting task may not be tried. */
  predicate TooEarly(task: Task, now: int) {
    (task.state.RetryWait? && (task.retryAt.None? || task.retryAt.value > now))
    || (task.state.Pending? && task.notBefore.Some? && task.notBefore.value > now)
  }

  /** The task is listed by the candidate query. */
  predicate Listed(cs: seq<Fairness.Candidate>, t: TaskId) {
    exists k :: 0 <= k < |cs| && cs[k].task == t
  }

  /** Nothing is listed ahead of its time, nor unless it is PENDING or waits for a retry. */
  lemma NothingEarly(cfg: Config, w: World, lane: Option<Lane>, cs: seq<Fairness.Candidate>, t: TaskId)
    requires IsCandidateList(cfg, w, lane, cs) && Listed(cs, t)
    ensures t in w.tasks && (w.tasks[t].state.Pending? || w.tasks[t].state.RetryWait?) && !TooEarly(w.tasks[t], w.now)
  {
    var k :| 0 <= k < |cs| && cs[k].task == t;
    assert cs[k] in cs;
  }

  /** Every retry that is due is listed, whatever else the table holds. */
  lemma DueRetryListed(cfg: Config, w: World, lane: Option<Lane>, cs: seq<Fairness.Candidate>, t: TaskId)
    requires IsCandidateList(cfg, w, lane, cs) && t in w.tasks && (lane.None? || lane == Some(w.tasks[t].lane))
    requires w.tasks[t].state.RetryWait? && w.tasks[t].retryAt.Some? && w.tasks[t].retryAt.value <= w.now
    ensures Listed(cs, t)
  {
    IsListed(cfg, w, lane, cs, t);
  }

  lemma IsListed(cfg: Config, w: World, lane: Option<Lane>, cs: seq<Fairness.Candidate>, t: TaskId)
    requires IsCandidateList(cfg, w, lane, cs) && Wanted(cfg, w, lane, t)
    ensures Listed(cs, t)
  {
    var c := CandidateOf(t, w.tasks[t]);
    assert c in cs;
    var k :| 0 <= k < |cs| && cs[k] == c;
  }

  /** A PENDING task whose time has come is listed exactly when every dependency in the table has succeeded. */
  lemma DuePendingListed(cfg: Config, w: World, lane: Option<Lane>, cs: seq<Fairness.Candidate>, t: TaskId)
    requires IsCandidateList(cfg, w, lane, cs) && t in w.tasks && (lane.None? || lane == Some(w.tasks[t].lane))
    requires w.tasks[t].state.Pending? && !TooEarly(w.tasks[t], w.now)
    ensures Listed(cs, t) <==>
              forall d :: t in cfg.deps && d in cfg.deps[t] && d in w.tasks ==> w.tasks[d].state.Succeeded?
  {
    if Listed(cs, t) {
      var k :| 0 <= k < |cs| && cs[k].task == t;
      assert cs[k] in cs;
    } else if Wanted(cfg, w, lane, t) {
      IsListed(cfg, w, lane, cs, t);
    }
  }

  /** The order of the result: priority first, then age, then id. */
  lemma ListedInOrder(cfg: Config, w: World, lane: Option<Lane>, cs: seq<Fairness.Candidate>, i: nat, k: nat)
    requires IsCandidateList(cfg, w, lane, cs) && i < k < |cs|
    ensures cs[i].task in w.tasks && cs[k].task in w.tasks
    ensures var t, u := w.tasks[cs[i].task], w.tasks[cs[k].task];
            t.priority < u.priority
            || (t.priority == u.priority
                && (t.createdAt < u.createdAt || (t.createdAt == u.createdAt && StrLe(cs[i].task, cs[k].task))))
  {
    assert cs[i] in cs && cs[k] in cs;
    assert KeyLe(QueryKey(cs[i]), QueryKey(cs[k]));
  }

  /** Each candidate carries the columns of its task. */
  lemma CarriesColumns(cfg: Config, w: World, lane: Option<Lane>, cs: seq<Fairness.Candidate>, k: nat)
    requires IsCandidateList(cfg, w, lane, cs) && k < |cs|
    ensures cs[k].task in w.tasks
    ensures var task := w.tasks[cs[k].task];
            && cs[k].job == task.job && cs[k].lane == task.lane && cs[k].priority == task.priority
            && cs[k].created == task.createdAt && (lane.Some? ==> task.lane == lane.value)
  {
    assert cs[k] in cs;
  }

  // ---- Runs ------------------------------------------------------------------------------

  /** Some candidate query over this table lists the task. */
  ghost predicate Offered(cfg: Config, w: World, t: TaskId) {
    exists lane, cs :: IsCandidateList(cfg, w, lane, cs) && Listed(cs, t)
  }

  /** Runs whose admissions are of tasks the query lists at that moment, as those of a tick are. */
  ghost predicate TickedRun(cfg: Config, w: World, ops: seq<Op>) {
    DisciplinedRun(cfg, w, ops)
    && forall i :: 0 <= i < |ops| && ops[i].OpAdmit? ==> Offered(cfg, Exec(cfg, w, ops[..i]), ops[i].task)
  }

  lemma TickedFront(cfg: Config, w: World, ops: seq<Op>)
    requires ops != [] && TickedRun(cfg, w, ops)
    ensures TickedRun(cfg, w, ops[..|ops| - 1])
  {
    var front := ops[..|ops| - 1];
    DisciplinedFront(cfg, w, ops);
    forall i | 0 <= i < |front| && front[i].OpAdmit?
      ensures Offered(cfg, Exec(cfg, w, front[..i]), front[i].task)
    {
      assert front[..i] == ops[..i];
    }
  }

  /** The task waits and may not be tried before `time`. */
  predicate WaitsUntil(task: Task, time: int) {
    (task.state.RetryWait? && task.retryAt == Some(time)) || (task.state.Pending? && task.notBefore == Some(time))
  }

  /** Step `i` makes the waiting task READY, no earlier than its time. */
  predicate ReleasedAt(cfg: Config, w: World, ops: seq<Op>, i: nat, t: TaskId, task: Task, time: int) {
    i < |ops| &&
    var v := Exec(cfg, w, ops[..i]);
    && ops[i].OpAdmit? && ops[i].task == t && v.now >= time && t in v.tasks && v.tasks[t] == task
    && t in Exec(cfg, w, ops[..i + 1]).tasks && Exec(cfg, w, ops[..i + 1]).tasks[t].state.Ready?
  }

  lemma StepReleases(cfg: Config, w: World, op: Op, t: TaskId, time: int)
    requires t in w.tasks && WaitsUntil(w.tasks[t], time) && Disciplined(w, op)
    requires op.OpAdmit? ==> Offered(cfg, w, op.task)
    ensures t in Apply(cfg, w, op).tasks
    ensures Apply(cfg, w, op).tasks[t] != w.tasks[t] ==>
              op.OpAdmit? && op.task == t && w.now >= time && Apply(cfg, w, op).tasks[t].state.Ready?
  {
    ApplyIsNextTask(cfg, w, op, t);
    if op.OpAdmit? && op.task == t {
      var lane, cs :| IsCandidateList(cfg, w, lane, cs) && Listed(cs, t);
      NothingEarly(cfg, w, lane, cs, t);
    }
  }

  lemma LastReleases(cfg: Config, w: World, ops: seq<Op>, t: TaskId, task: Task, time: int)
    requires ops != [] && TickedRun(cfg, w, ops) && WaitsUntil(task, time)
    requires var v := Exec(cfg, w, ops[..|ops| - 1]); t in v.tasks && v.tasks[t] == task
    requires t in Exec(cfg, w, ops).tasks ==> Exec(cfg, w, ops).tasks[t] != task
    ensures ReleasedAt(cfg, w, ops, |ops| - 1, t, task, time)
  {
    assert Disciplined(Exec(cfg, w, ops[..|ops| - 1]), ops[|ops| - 1]);
    StepReleases(cfg, Exec(cfg, w, ops[..|ops| - 1]), ops[|ops| - 1], t, time);
    assert ops[..|ops|] == ops;
  }

  lemma ReleasedBefore(cfg: Config, w: World, ops: seq<Op>, i: nat, t: TaskId, task: Task, time: int)
    requires ops != [] && ReleasedAt(cfg, w, ops[..|ops| - 1], i, t, task, time)
    ensures ReleasedAt(cfg, w, ops, i, t, task, time)
  {
    var front := ops[..|ops| - 1];
    assert front[..i] == ops[..i] && front[..i + 1] == ops[..i + 1];
  }

  /** In such runs a waiting task stays as it is until a step at or after its time makes it READY. */
  lemma {:induction false} WaitsItsTime(cfg: Config, w: World, ops: seq<Op>, t: TaskId, time: int) returns (i: nat)
    requires TickedRun(cfg, w, ops) && t in w.tasks && WaitsUntil(w.tasks[t], time)
    requires t in Exec(cfg, w, ops).tasks ==> Exec(cfg, w, ops).tasks[t] != w.tasks[t]
    ensures ReleasedAt(cfg, w, ops, i, t, w.tasks[t], time)
  {
    var v := Exec(cfg, w, ops[..|ops| - 1]);
    if t in v.tasks && v.tasks[t] == w.tasks[t] {
      LastReleases(cfg, w, ops, t, w.tasks[t], time);
      i := |ops| - 1;
    } else {
      TickedFront(cfg, w, ops);
      i := WaitsItsTime(cfg, w, ops[..|ops| - 1], t, time);
      ReleasedBefore(cfg, w, ops, i, t, w.tasks[t], time);
    }
  }

  /** A failure report that grants the task a retry at `time`. */
  predicate SentToRetry(w: World, op: Op, t: TaskId, time: int) {
    op.OpReport? && op.task == t && t in w.tasks && op.action.Retry? && op.attempt + 1 <= op.maxAttempts
    && op.retryAt == time
  }

  /** A task sent to wait for a retry is READY again only by a step at or after the retry time it was given. */
  lemma RetryWaitsItsTime(cfg: Config, w: World, op: Op, ops: seq<Op>, t: TaskId, time: int) returns (i: nat)
    requires SentToRetry(w, op, t, time) && TickedRun(cfg, Apply(cfg, w, op), ops)
    requires var v := Exec(cfg, Apply(cfg, w, op), ops); t in v.tasks && !v.tasks[t].state.RetryWait?
    ensures t in Apply(cfg, w, op).tasks
    ensures ReleasedAt(cfg, Apply(cfg, w, op), ops, i, t, Apply(cfg, w, op).tasks[t], time)
  {
    ApplyIsNextTask(cfg, w, op, t);
    i := WaitsItsTime(cfg, Apply(cfg, w, op), ops, t, time);
  }
}
