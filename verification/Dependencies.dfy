/** Task dependencies: the order they impose on every run, and exactly when they can deadlock. */
module Dependencies {
  import opened Wrappers
  import opened World
  import opened Leases

  /** The WHERE clause of `fetch_admission_candidates`. */
  predicate IsCandidate(cfg: Config, w: World, t: TaskId) {
    t in w.tasks &&
    var task := w.tasks[t];
    || (task.state.Pending? && (task.notBefore.None? || task.notBefore.value <= w.now) && DepsSatisfied(cfg, w, t))
    || (task.state.RetryWait? && task.retryAt.Some? && task.retryAt.value <= w.now)
  }

  // ---- Order ---------------------------------------------------------------------

  /** Only an admission under satisfied dependencies takes a task out of PENDING. */
  lemma LeavesPendingByAdmission(cfg: Config, w: World, op: Op, t: TaskId)
    requires t in w.tasks && w.tasks[t].state.Pending? && Disciplined(w, op)
    requires !Apply(cfg, w, op).tasks[t].state.Pending?
    ensures op.OpAdmit? && op.task == t && DepsSatisfied(cfg, w, t) && Apply(cfg, w, op).tasks[t].state.Ready?
  {
    ApplyIsNextTask(cfg, w, op, t);
  }

  /**
   * In a disciplined run a task that left PENDING was admitted at a step where each of its dependencies had
   * succeeded.
   */
  lemma {:induction false} AdmittedAfterDependencies(cfg: Config, w: World, ops: seq<Op>, t: TaskId) returns (i: nat)
    requires DisciplinedRun(cfg, w, ops)
    requires t in w.tasks && w.tasks[t].state.Pending?
    requires t in Exec(cfg, w, ops).tasks && !Exec(cfg, w, ops).tasks[t].state.Pending?
    ensures i < |ops| && ops[i].OpAdmit? && ops[i].task == t
    ensures var v := Exec(cfg, w, ops[..i]);
            && t in v.tasks && v.tasks[t].state.Pending? && DepsSatisfied(cfg, v, t)
            && t in Apply(cfg, v, ops[i]).tasks && Apply(cfg, v, ops[i]).tasks[t].state.Ready?
  {
    var front := ops[..|ops| - 1];
    var v := Exec(cfg, w, front);
    DisciplinedFront(cfg, w, ops);
    TasksStay(cfg, w, front, t);
    if v.tasks[t].state.Pending? {
      LeavesPendingByAdmission(cfg, v, ops[|ops| - 1], t);
      i := |ops| - 1;
    } else {
      i := AdmittedAfterDependencies(cfg, w, front, t);
      assert front[..i] == ops[..i];
    }
  }

  lemma {:induction false} TasksStay(cfg: Config, w: World, ops: seq<Op>, t: TaskId)
    requires t in w.tasks
    ensures t in Exec(cfg, w, ops).tasks
  {
    if ops != [] {
      TasksStay(cfg, w, ops[..|ops| - 1], t);
      ApplyIsNextTask(cfg, Exec(cfg, w, ops[..|ops| - 1]), ops[|ops| - 1], t);
    }
  }

  predicate SucceedsAt(cfg: Config, w: World, ops: seq<Op>, d: TaskId, k: nat) {
    && k < |ops|
    && d in Exec(cfg, w, ops[..k]).tasks && Exec(cfg, w, ops[..k]).tasks[d].state != Succeeded
    && d in Exec(cfg, w, ops[..k + 1]).tasks && Exec(cfg, w, ops[..k + 1]).tasks[d].state == Succeeded
  }

  lemma {:induction false} FindSuccess(cfg: Config, w: World, ops: seq<Op>, d: TaskId, i: nat) returns (k: nat)
    requires i <= |ops| && d in w.tasks && w.tasks[d].state != Succeeded
    requires d in Exec(cfg, w, ops[..i]).tasks && Exec(cfg, w, ops[..i]).tasks[d].state == Succeeded
    ensures k < i && SucceedsAt(cfg, w, ops, d, k)
  {
    k := i - 1;
    TasksStay(cfg, w, ops[..k], d);
    if Exec(cfg, w, ops[..k]).tasks[d].state == Succeeded {
      k := FindSuccess(cfg, w, ops, d, k);
    }
  }

  /** Each dependency's success is an earlier event of the run than its dependent's move from PENDING to READY. */
  lemma DependencySucceedsFirst(cfg: Config, w: World, ops: seq<Op>, t: TaskId, d: TaskId) returns (k: nat, i: nat)
    requires DisciplinedRun(cfg, w, ops) && d in DepsOf(cfg, t)
    requires t in w.tasks && w.tasks[t].state.Pending? && d in w.tasks && w.tasks[d].state != Succeeded
    requires t in Exec(cfg, w, ops).tasks && !Exec(cfg, w, ops).tasks[t].state.Pending?
    ensures k < i < |ops| && SucceedsAt(cfg, w, ops, d, k) && ops[i].OpAdmit? && ops[i].task == t
  {
    i := AdmittedAfterDependencies(cfg, w, ops, t);
    TasksStay(cfg, w, ops[..i], d);
    k := FindSuccess(cfg, w, ops, d, i);
  }

  // ---- Deadlock --------------------------------------------------------------------

  /** A chain of tasks of the table, each depending on the next. */
  predicate Chain(cfg: Config, table: set<TaskId>, p: seq<TaskId>) {
    (forall i :: 0 <= i < |p| ==> p[i] in table) && forall i :: 0 <= i < |p| - 1 ==> p[i + 1] in DepsOf(cfg, p[i])
  }

  predicate Cycle(cfg: Config, table: set<TaskId>, p: seq<TaskId>) {
    |p| >= 2 && Chain(cfg, table, p) && p[0] == p[|p| - 1]
  }

  ghost predicate Acyclic(cfg: Config, table: set<TaskId>) {
    forall p :: !Cycle(cfg, table, p)
  }

  /** Every task is PENDING without a hold, or has succeeded; at least one is PENDING. */
  predicate WaitingOnDeps(w: World) {
    && (forall t :: t in w.tasks ==>
          w.tasks[t].state.Succeeded? || (w.tasks[t].state.Pending? && w.tasks[t].notBefore.None?))
    && exists t :: t in w.tasks && w.tasks[t].state.Pending?
  }

  /** With no candidate, a chain of PENDING tasks can be prolonged to any length. */
  lemma {:induction false} LongChain(cfg: Config, w: World, n: nat) returns (p: seq<TaskId>)
    requires WaitingOnDeps(w) && forall t :: !IsCandidate(cfg, w, t)
    ensures |p| == n + 1 && Chain(cfg, w.tasks.Keys, p)
    ensures w.tasks[p[n]].state.Pending?
  {
    if n == 0 {
      var t :| t in w.tasks && w.tasks[t].state.Pending?;
      p := [t];
    } else {
      var front := LongChain(cfg, w, n - 1);
      var last := front[n - 1];
      assert !IsCandidate(cfg, w, last);
      var d :| d in DepsOf(cfg, last) && d in w.tasks && w.tasks[d].state != Succeeded;
      p := front + [d];
    }
  }

  lemma {:induction false} Pigeonhole(p: seq<TaskId>, table: set<TaskId>) returns (i: nat, j: nat)
    requires |p| > |table| && forall k :: 0 <= k < |p| ==> p[k] in table
    ensures i < j < |p| && p[i] == p[j]
    decreases |p|
  {
    var last := |p| - 1;
    if k :| 0 <= k < last && p[k] == p[last] {
      i, j := k, last;
    } else {
      i, j := Pigeonhole(p[..last], table - {p[last]});
    }
  }

  /** Acyclic dependencies never deadlock: while something is PENDING, there is a candidate. */
  lemma AcyclicMakesProgress(cfg: Config, w: World)
    requires Acyclic(cfg, w.tasks.Keys) && WaitingOnDeps(w)
    ensures exists t :: IsCandidate(cfg, w, t)
  {
    if forall t :: !IsCandidate(cfg, w, t) {
      var p := LongChain(cfg, w, |w.tasks.Keys|);
      var i, j := Pigeonhole(p, w.tasks.Keys);
      assert Cycle(cfg, w.tasks.Keys, p[i..j + 1]);
      assert false;
    }
  }

  /** The table with the tasks of the cycle PENDING and all others succeeded. */
  function Stall(w: World, p: seq<TaskId>): World {
    w.(tasks := map t | t in w.tasks :: w.tasks[t].(state := if t in p then Pending else Succeeded, notBefore := None))
  }

  lemma CycleStalls(cfg: Config, w: World, p: seq<TaskId>)
    requires Cycle(cfg, w.tasks.Keys, p)
    ensures var v := Stall(w, p);
            v.tasks.Keys == w.tasks.Keys && WaitingOnDeps(v) && forall t :: !IsCandidate(cfg, v, t)
  {
    var v := Stall(w, p);
    assert p[0] in v.tasks && v.tasks[p[0]].state.Pending?;
    forall t
      ensures !IsCandidate(cfg, v, t)
    {
      if t in v.tasks && v.tasks[t].state.Pending? {
        var next := SuccessorOnCycle(cfg, w.tasks.Keys, p, t);
        assert next in DepsOf(cfg, t) && v.tasks[next].state != Succeeded;
      }
    }
  }

  lemma SuccessorOnCycle(cfg: Config, table: set<TaskId>, p: seq<TaskId>, t: TaskId) returns (next: TaskId)
    requires Cycle(cfg, table, p) && t in p
    ensures next in p && next in table && next in DepsOf(cfg, t)
  {
    var i :| 0 <= i < |p| && p[i] == t;
    if i == |p| - 1 {
      next := p[1];
      assert p[0 + 1] in DepsOf(cfg, p[0]);
    } else {
      next := p[i + 1];
    }
  }

  /** `v` has the tasks of `w`. */
  predicate SameTable(w: World, v: World) {
    v.tasks.Keys == w.tasks.Keys
  }

  /** A table can be stalled with PENDING tasks and no candidate exactly when its dependencies have a cycle. */
  lemma DeadlockExact(cfg: Config, w: World)
    ensures Acyclic(cfg, w.tasks.Keys)
            <==> forall v :: SameTable(w, v) && WaitingOnDeps(v) ==> exists t :: IsCandidate(cfg, v, t)
  {
    if Acyclic(cfg, w.tasks.Keys) {
      forall v | SameTable(w, v) && WaitingOnDeps(v)
        ensures exists t :: IsCandidate(cfg, v, t)
      {
        AcyclicMakesProgress(cfg, v);
      }
    } else {
      var p :| Cycle(cfg, w.tasks.Keys, p);
      CycleStalls(cfg, w, p);
      assert SameTable(w, Stall(w, p));
    }
  }

  /** No disciplined run ever admits a task of a PENDING dependency cycle. */
  lemma {:induction false} CycleNeverStarts(cfg: Config, w: World, ops: seq<Op>, p: seq<TaskId>)
    requires DisciplinedRun(cfg, w, ops) && Cycle(cfg, w.tasks.Keys, p)
    requires forall t :: t in p ==> w.tasks[t].state.Pending?
    ensures forall t :: t in p ==> t in Exec(cfg, w, ops).tasks && Exec(cfg, w, ops).tasks[t].state.Pending?
  {
    if ops != [] {
      var front, op := ops[..|ops| - 1], ops[|ops| - 1];
      var v := Exec(cfg, w, front);
      DisciplinedFront(cfg, w, ops);
      CycleNeverStarts(cfg, w, front, p);
      forall t | t in p
        ensures t in Apply(cfg, v, op).tasks && Apply(cfg, v, op).tasks[t].state.Pending?
      {
        ApplyIsNextTask(cfg, v, op, t);
        if !Apply(cfg, v, op).tasks[t].state.Pending? {
          LeavesPendingByAdmission(cfg, v, op, t);
          var next := SuccessorOnCycle(cfg, w.tasks.Keys, p, t);
          assert false;
        }
      }
    }
  }
}
