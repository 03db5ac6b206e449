/**
 * What one admission tick guarantees, across candidate query, fair batch, backpressure and gates, and when it aborts.
 */
module Ticks {
  import opened Ordering
  import opened Wrappers
  import opened Lanes
  import opened World
  import opened ControlPlane
  import Fairness
  import FairnessTheorems
  import Backpressure
  import Dependencies
  import Caps
  import Outbox

  /** The candidate query has one answer: sorted by key, it is determined by the table. */
  lemma CandidateListUnique(cfg: Config, w: World, lane: Option<Lane>, cs: seq<Fairness.Candidate>,
                            ds: seq<Fairness.Candidate>)
    requires IsCandidateList(cfg, w, lane, cs) && IsCandidateList(cfg, w, lane, ds)
    ensures cs == ds
  {
    forall c
      ensures multiset(cs)[c] == multiset(ds)[c]
    {
      DistinctCount(cs, c);
      DistinctCount(ds, c);
    }
    assert multiset(cs) == multiset(ds);
    SortedUnique(QueryKey, cs, ds);
  }

  /** The admissions of a tick as a run of single steps. */
  function AdmitOps(ts: seq<TaskId>, paused: bool): seq<Op> {
    seq(|ts|, i requires 0 <= i < |ts| => OpAdmit(ts[i], paused))
  }

  lemma {:induction false} AdmitAllIsRun(cfg: Config, w: World, ts: seq<TaskId>, paused: bool)
    ensures Backpressure.AdmitAll(cfg, w, ts, paused) == Exec(cfg, w, AdmitOps(ts, paused))
  {
    if ts != [] {
      AdmitAllIsRun(cfg, w, ts[..|ts| - 1], paused);
      assert AdmitOps(ts, paused)[..|ts| - 1] == AdmitOps(ts[..|ts| - 1], paused);
    }
  }

  /** A tick that returns has tried every pick. */
  lemma {:induction false} ReturnedTriedAll(cfg: Config, w: World, ts: seq<TaskId>, paused: bool)
    requires TryAll(cfg, w, ts, paused).1.Returned?
    ensures TryAll(cfg, w, ts, paused).0 == Backpressure.AdmitAll(cfg, w, ts, paused)
  {
    if ts != [] {
      ReturnedTriedAll(cfg, w, ts[..|ts| - 1], paused);
    }
  }

  /** How many picks a tick got through: all of them, or those before the one that raised. */
  lemma {:induction false} TickStops(cfg: Config, w: World, ts: seq<TaskId>, paused: bool) returns (k: nat)
    ensures k <= |ts| && TryAll(cfg, w, ts[..k], paused).1.Returned?
    ensures TryAll(cfg, w, ts, paused).0 == Backpressure.AdmitAll(cfg, w, ts[..k], paused)
    ensures var result := TryAll(cfg, w, ts, paused).1;
            if result.Returned? then k == |ts|
            else k < |ts| && ts[k] == result.pick
                 && Raises(Gate(cfg, Backpressure.AdmitAll(cfg, w, ts[..k], paused), ts[k], paused))
  {
    var front := ts[..if ts == [] then 0 else |ts| - 1];
    if TryAll(cfg, w, ts, paused).1.Returned? {
      k := |ts|;
      assert ts[..k] == ts;
      ReturnedTriedAll(cfg, w, ts, paused);
    } else if TryAll(cfg, w, front, paused).1.Raised? {
      k := TickStops(cfg, w, front, paused);
      assert front[..k] == ts[..k];
    } else {
      k := |ts| - 1;
      ReturnedTriedAll(cfg, w, front, paused);
    }
  }

  /** A tick, finished or aborted, never takes a job over budget or a lane over its limit. */
  lemma TickKeepsCaps(cfg: Config, w: World, ts: seq<TaskId>, paused: bool)
    requires Caps.BudgetsHold(cfg, w) && Caps.LimitsHold(cfg, w)
    ensures var v := TryAll(cfg, w, ts, paused).0;
            Caps.BudgetsHold(cfg, v) && Caps.LimitsHold(cfg, v)
  {
    var k := TickStops(cfg, w, ts, paused);
    AdmitAllIsRun(cfg, w, ts[..k], paused);
    Caps.CapsAreInvariant(cfg, w, AdmitOps(ts[..k], paused));
  }

  /** Distinct eligible tasks: what a tick tries to admit. */
  predicate ArePicks(cfg: Config, w: World, ts: seq<TaskId>) {
    && (forall i :: 0 <= i < |ts| ==> Dependencies.IsCandidate(cfg, w, ts[i]))
    && (forall i, j :: 0 <= i < j < |ts| ==> ts[i] != ts[j])
  }

  /** The selected tasks of a tick are distinct candidates. */
  lemma SelectedAreCandidates(cfg: Config, w: World, lane: Option<Lane>, weights: Fairness.PollWeights,
                              candidates: seq<Fairness.Candidate>, limit: nat)
    requires weights.Positive() && IsCandidateList(cfg, w, lane, candidates)
    ensures ArePicks(cfg, w, TaskIds(Fairness.FairBatch(weights, candidates, limit)))
  {
    var batch := Fairness.FairBatch(weights, candidates, limit);
    FairnessTheorems.BatchIsComplete(weights, candidates, limit);
    forall i | 0 <= i < |batch|
      ensures batch[i] in candidates
    {
      assert batch[i] in multiset(batch);
      assert batch[i] in multiset(candidates);
    }
    forall i, j | 0 <= i < j < |batch|
      ensures batch[i].task != batch[j].task
    {
      if batch[i].task == batch[j].task {
        assert batch[i] == batch[j];
        TwiceInBatch(batch, i, j);
        DistinctCount(candidates, batch[i]);
      }
    }
  }

  lemma TwiceInBatch(cs: seq<Fairness.Candidate>, i: nat, j: nat)
    requires i < j < |cs| && cs[i] == cs[j]
    ensures multiset(cs)[cs[i]] >= 2
  {
    assert cs == cs[..j] + cs[j..];
    assert cs[i] in cs[..j] && cs[i] in cs[j..];
    assert multiset(cs) == multiset(cs[..j]) + multiset(cs[j..]);
  }

  lemma {:induction false} TickLeavesOthers(cfg: Config, w: World, ts: seq<TaskId>, paused: bool, t: TaskId)
    requires t in w.tasks
    ensures var v := Backpressure.AdmitAll(cfg, w, ts, paused);
            t in v.tasks && (t !in ts || w.tasks[t].state.Succeeded? ==> v.tasks[t] == w.tasks[t])
  {
    if ts != [] {
      TickLeavesOthers(cfg, w, ts[..|ts| - 1], paused, t);
    }
  }

  lemma {:induction false} TickAddsNoTask(cfg: Config, w: World, ts: seq<TaskId>, paused: bool)
    ensures Backpressure.AdmitAll(cfg, w, ts, paused).tasks.Keys == w.tasks.Keys
  {
    if ts != [] {
      TickAddsNoTask(cfg, w, ts[..|ts| - 1], paused);
    }
  }

  /** What the tick's earlier admissions change cannot invalidate a later pick. */
  lemma PickKeeps(cfg: Config, w: World, ts: seq<TaskId>, k: nat, paused: bool)
    requires k < |ts| && ArePicks(cfg, w, ts)
    ensures var v := Backpressure.AdmitAll(cfg, w, ts[..k], paused);
            && ts[k] in w.tasks && ts[k] in v.tasks && v.tasks[ts[k]] == w.tasks[ts[k]]
            && (w.tasks[ts[k]].state.Pending? ==> DepsSatisfied(cfg, v, ts[k]))
  {
    var v := Backpressure.AdmitAll(cfg, w, ts[..k], paused);
    assert Dependencies.IsCandidate(cfg, w, ts[k]);
    TickLeavesOthers(cfg, w, ts[..k], paused, ts[k]);
    TickAddsNoTask(cfg, w, ts[..k], paused);
    if w.tasks[ts[k]].state.Pending? {
      forall d | d in DepsOf(cfg, ts[k]) && d in v.tasks
        ensures v.tasks[d].state == Succeeded
      {
        TickLeavesOthers(cfg, w, ts[..k], paused, d);
      }
    }
  }

  /** The task's lane is budgeted, but by a job that is unknown or whose budget lacks the lane's field. */
  predicate Unbudgeted(cfg: Config, task: Task) {
    Budgeted(task.lane) && !HasBudget(cfg, task.job, task.lane)
  }

  /** The task's lane has no stream, or it is open and there is no budget to check the task against. */
  predicate Unanswerable(cfg: Config, w: World, t: TaskId, paused: bool)
    requires t in w.tasks
  {
    w.tasks[t].lane.Other? || (!paused && Unbudgeted(cfg, w.tasks[t]))
  }

  predicate Stale(outcome: AdmitOutcome) {
    outcome.TaskNotFound? || outcome.WrongState? || outcome.DependenciesUnsatisfied?
  }

  /**
   * A pick is never refused as missing, in the wrong state or waiting for dependencies, and it raises exactly when it
   * was unanswerable at the start of the tick: all else that refuses it is the pause, the budget or the lane's limit.
   */
  lemma RefusalExact(cfg: Config, w: World, ts: seq<TaskId>, k: nat, paused: bool)
    requires k < |ts| && ArePicks(cfg, w, ts)
    ensures var outcome := Gate(cfg, Backpressure.AdmitAll(cfg, w, ts[..k], paused), ts[k], paused);
            && !Stale(outcome) && ts[k] in w.tasks
            && (Raises(outcome) <==> Unanswerable(cfg, w, ts[k], paused))
  {
    PickKeeps(cfg, w, ts, k, paused);
  }

  /** A tick returns exactly when none of its picks is unanswerable in the table it starts from. */
  lemma TickReturnsExact(cfg: Config, w: World, ts: seq<TaskId>, paused: bool)
    requires ArePicks(cfg, w, ts)
    ensures TryAll(cfg, w, ts, paused).1.Returned?
            <==> AllAnswerable(cfg, w, ts, paused)
  {
    var k := TickStops(cfg, w, ts, paused);
    if k < |ts| {
      RefusalExact(cfg, w, ts, k, paused);
    } else {
      forall i | 0 <= i < |ts|
        ensures ts[i] in w.tasks && !Unanswerable(cfg, w, ts[i], paused)
      {
        RefusalExact(cfg, w, ts, i, paused);
        if Unanswerable(cfg, w, ts[i], paused) {
          RaisesHere(cfg, w, ts, i, paused);
        }
      }
    }
  }

  lemma RaisesHere(cfg: Config, w: World, ts: seq<TaskId>, i: nat, paused: bool)
    requires i < |ts| && Raises(Gate(cfg, Backpressure.AdmitAll(cfg, w, ts[..i], paused), ts[i], paused))
    ensures TryAll(cfg, w, ts[..i + 1], paused).1.Raised?
    ensures TryAll(cfg, w, ts, paused).1.Raised?
  {
    assert ts[..i + 1][..i] == ts[..i];
    if TryAll(cfg, w, ts[..i], paused).1.Returned? {
      ReturnedTriedAll(cfg, w, ts[..i], paused);
    }
    RaisedStays(cfg, w, ts, paused, i + 1);
  }

  // ---- What a tick did -----------------------------------------------------------

  /** An unpublished row of the task as it now stands: with its new attempt and its stream. */
  predicate FreshRow(v: World, t: TaskId, row: Row) {
    t in v.tasks && Outbox.IsRowFor(t, v.tasks[t], row) && !row.published
  }

  /** The new outbox rows are those of the admitted tasks, in order. */
  ghost predicate RowsDid(w: World, v: World, admitted: seq<TaskId>) {
    && w.outbox <= v.outbox && |v.outbox| == |w.outbox| + |admitted|
    && forall k :: 0 <= k < |admitted| ==> FreshRow(v, admitted[k], v.outbox[|w.outbox| + k])
  }

  /** The admitted were promoted, none of them a fetch task while paused, and no other task moved. */
  ghost predicate TasksDid(w: World, v: World, admitted: seq<TaskId>, paused: bool) {
    && v.tasks.Keys == w.tasks.Keys && v.streams == w.streams
    && (forall t :: t in admitted ==> t in w.tasks && v.tasks[t] == Promote(w.tasks[t])
                                      && !(paused && IsFetchLane(w.tasks[t].lane)))
    && (forall t :: t in w.tasks && t !in admitted ==> v.tasks[t] == w.tasks[t])
  }

  ghost predicate TickDid(w: World, v: World, ts: seq<TaskId>, result: TickResult, paused: bool) {
    && result.Returned? && multiset(result.admitted) + multiset(result.denied) == multiset(ts)
    && TasksDid(w, v, result.admitted, paused) && RowsDid(w, v, result.admitted)
  }

  /** What one successful admission changes. */
  predicate Promoted(v: World, u: World, t: TaskId, row: Row, paused: bool) {
    && t in v.tasks && (v.tasks[t].state.Pending? || v.tasks[t].state.RetryWait?)
    && u.tasks == v.tasks[t := Promote(v.tasks[t])] && !(paused && IsFetchLane(v.tasks[t].lane))
    && u.outbox == v.outbox + [row] && Outbox.IsRowFor(t, Promote(v.tasks[t]), row) && !row.published
    && u.streams == v.streams
  }

  lemma AdmitPromotes(cfg: Config, v: World, t: TaskId, paused: bool)
    ensures var (u, outcome) := Admit(cfg, v, t, paused);
            if outcome.Admitted? then u.outbox != [] && Promoted(v, u, t, u.outbox[|u.outbox| - 1], paused) else u == v
  {
  }

  lemma TasksPromoted(w: World, v: World, u: World, admitted: seq<TaskId>, paused: bool, t: TaskId, row: Row)
    requires TasksDid(w, v, admitted, paused) && Promoted(v, u, t, row, paused)
    ensures t !in admitted && TasksDid(w, u, admitted + [t], paused)
  {
    forall x | x in admitted + [t]
      ensures x in w.tasks && u.tasks[x] == Promote(w.tasks[x]) && !(paused && IsFetchLane(w.tasks[x].lane))
    {
      assert x in admitted || x == t;
    }
    forall x | x in w.tasks && x !in admitted + [t]
      ensures u.tasks[x] == w.tasks[x]
    {
      assert x != t && x !in admitted;
    }
  }

  lemma RowsPromoted(w: World, v: World, u: World, admitted: seq<TaskId>, paused: bool, t: TaskId, row: Row)
    requires RowsDid(w, v, admitted) && Promoted(v, u, t, row, paused) && t !in admitted
    ensures RowsDid(w, u, admitted + [t])
  {
    var more := admitted + [t];
    assert w.outbox <= v.outbox <= u.outbox;
    forall k | 0 <= k < |more|
      ensures FreshRow(u, more[k], u.outbox[|w.outbox| + k])
    {
      if k < |admitted| {
        assert FreshRow(v, admitted[k], v.outbox[|w.outbox| + k]);
        assert admitted[k] in admitted;
      }
    }
  }

  lemma CountTry(w: World, v: World, u: World, ts: seq<TaskId>, before: TickResult, after: TickResult, paused: bool,
                 t: TaskId, admitted: bool)
    requires TickDid(w, v, ts, before, paused)
    requires if admitted then u.outbox != [] && Promoted(v, u, t, u.outbox[|u.outbox| - 1], paused) else u == v
    requires after == if admitted then Returned(before.admitted + [t], before.denied)
                      else Returned(before.admitted, before.denied + [t])
    ensures TickDid(w, u, ts + [t], after, paused)
  {
    if admitted {
      TasksPromoted(w, v, u, before.admitted, paused, t, u.outbox[|u.outbox| - 1]);
      RowsPromoted(w, v, u, before.admitted, paused, t, u.outbox[|u.outbox| - 1]);
    }
  }

  /** A tick that returns has admitted or denied every pick, and its effect is exactly its admissions. */
  lemma {:induction false} TickEffect(cfg: Config, w: World, ts: seq<TaskId>, paused: bool)
    requires TryAll(cfg, w, ts, paused).1.Returned?
    ensures TickDid(w, TryAll(cfg, w, ts, paused).0, ts, TryAll(cfg, w, ts, paused).1, paused)
  {
    if ts != [] {
      var front, t := ts[..|ts| - 1], ts[|ts| - 1];
      TickEffect(cfg, w, front, paused);
      var (v, before) := TryAll(cfg, w, front, paused);
      var (u, after) := TryAll(cfg, w, ts, paused);
      AdmitPromotes(cfg, v, t, paused);
      CountTry(w, v, u, front, before, after, paused, t, Admit(cfg, v, t, paused).1.Admitted?);
      FrontAndLast(ts);
    }
  }

  /**
   * A tick aborts at its first unanswerable pick: the picks before it are admitted or denied as usual, and it and all
   * picks after it stay untouched.
   */
  lemma TickAborts(cfg: Config, w: World, ts: seq<TaskId>, paused: bool) returns (k: nat)
    requires ArePicks(cfg, w, ts) && TryAll(cfg, w, ts, paused).1.Raised?
    ensures k < |ts| && TryAll(cfg, w, ts, paused).1 == Raised(ts[k])
    ensures ts[k] in w.tasks && Unanswerable(cfg, w, ts[k], paused)
    ensures forall i :: 0 <= i < k ==> ts[i] in w.tasks && !Unanswerable(cfg, w, ts[i], paused)
    ensures TickDid(w, TryAll(cfg, w, ts, paused).0, ts[..k], TryAll(cfg, w, ts[..k], paused).1, paused)
    ensures forall i :: k <= i < |ts| ==>
                          ts[i] in w.tasks && ts[i] in TryAll(cfg, w, ts, paused).0.tasks
                          && TryAll(cfg, w, ts, paused).0.tasks[ts[i]] == w.tasks[ts[i]]
  {
    k := TickStops(cfg, w, ts, paused);
    RefusalExact(cfg, w, ts, k, paused);
    TickReturnsExact(cfg, w, ts[..k], paused);
    forall i | 0 <= i < k
      ensures ts[i] in w.tasks && !Unanswerable(cfg, w, ts[i], paused)
    {
      assert ts[i] == ts[..k][i];
    }
    ReturnedTriedAll(cfg, w, ts[..k], paused);
    TickEffect(cfg, w, ts[..k], paused);
    forall i | k <= i < |ts|
      ensures ts[i] in w.tasks && ts[i] in TryAll(cfg, w, ts, paused).0.tasks
      ensures TryAll(cfg, w, ts, paused).0.tasks[ts[i]] == w.tasks[ts[i]]
    {
      assert Dependencies.IsCandidate(cfg, w, ts[i]);
      TickLeavesOthers(cfg, w, ts[..k], paused, ts[i]);
    }
  }

  /** Who commits: each admission on its own, or the caller once the tick has returned. */
  datatype Commit = PerAdmission | AfterTick

  /** The table that stays: without autocommit the raised error rolls the whole tick back. */
  function Committed(cfg: Config, w: World, ts: seq<TaskId>, paused: bool, commit: Commit): World {
    var (v, result) := TryAll(cfg, w, ts, paused);
    if commit.AfterTick? && result.Raised? then w else v
  }

  predicate AllAnswerable(cfg: Config, w: World, ts: seq<TaskId>, paused: bool) {
    forall i :: 0 <= i < |ts| ==> ts[i] in w.tasks && !Unanswerable(cfg, w, ts[i], paused)
  }

  /** Committed by the caller, a tick admits from its whole batch, or nothing at all if one pick is unanswerable. */
  lemma AfterTickExact(cfg: Config, w: World, ts: seq<TaskId>, paused: bool)
    requires ArePicks(cfg, w, ts)
    ensures Committed(cfg, w, ts, paused, AfterTick)
            == if AllAnswerable(cfg, w, ts, paused) then Backpressure.AdmitAll(cfg, w, ts, paused) else w
  {
    TickReturnsExact(cfg, w, ts, paused);
    if TryAll(cfg, w, ts, paused).1.Returned? {
      ReturnedTriedAll(cfg, w, ts, paused);
    }
  }

  /** A tick returns, having tried min(limit, candidates), exactly when no pick is unanswerable when it starts. */
  lemma TickTriesItsBatch(cfg: Config, w: World, lane: Option<Lane>, weights: Fairness.PollWeights,
                          candidates: seq<Fairness.Candidate>, limit: nat, paused: bool)
    requires weights.Positive() && IsCandidateList(cfg, w, lane, candidates)
    ensures var ts := TaskIds(Fairness.FairBatch(weights, candidates, limit));
            var result := TryAll(cfg, w, ts, paused).1;
            && (result.Returned? <==> AllAnswerable(cfg, w, ts, paused))
            && (result.Returned? ==>
                  |result.admitted| + |result.denied| == FairnessTheorems.Min(limit, |candidates|))
  {
    var ts := TaskIds(Fairness.FairBatch(weights, candidates, limit));
    SelectedAreCandidates(cfg, w, lane, weights, candidates, limit);
    TickReturnsExact(cfg, w, ts, paused);
    FairnessTheorems.BatchIsComplete(weights, candidates, limit);
    if TryAll(cfg, w, ts, paused).1.Returned? {
      TickEffect(cfg, w, ts, paused);
      CountTried(ts, TryAll(cfg, w, ts, paused).1);
    }
  }

  lemma CountTried(ts: seq<TaskId>, result: TickResult)
    requires result.Returned? && multiset(result.admitted) + multiset(result.denied) == multiset(ts)
    ensures |result.admitted| + |result.denied| == |ts|
  {
    var tried := result.admitted + result.denied;
    assert multiset(tried) == multiset(ts);
    FairnessTheorems.SizesFollow(tried, ts);
    FairnessTheorems.SizesFollow(ts, tried);
  }
}
