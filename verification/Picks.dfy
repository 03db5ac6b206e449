/** Which picks a tick admits, read off the table it starts from. */
module Picks {
  import opened Lanes
  import opened World
  import opened ControlPlane
  import opened Ticks
  import Caps

  /** How much the admitted add to what a job has spent on a lane: a retry was counted before. */
  function Spent(w: World, admitted: seq<TaskId>, job: JobId, lane: Lane): nat {
    if admitted == [] then 0
    else
      var t := admitted[|admitted| - 1];
      Spent(w, admitted[..|admitted| - 1], job, lane)
      + if t in w.tasks && w.tasks[t].state.Pending? && w.tasks[t].job == job && w.tasks[t].lane == lane then 1 else 0
  }

  /** How many of the admitted are in flight on a lane. */
  function Flown(w: World, admitted: seq<TaskId>, lane: Lane): nat {
    if admitted == [] then 0
    else
      var t := admitted[|admitted| - 1];
      Flown(w, admitted[..|admitted| - 1], lane) + if t in w.tasks && w.tasks[t].lane == lane then 1 else 0
  }

  /** After those admitted, a task of the job fits under the budget for the lane. */
  predicate InBudget(cfg: Config, w: World, admitted: seq<TaskId>, job: JobId, lane: Lane) {
    Budgeted(lane) ==>
      HasBudget(cfg, job, lane)
      && LaneSpend(w, job, lane) + Spent(w, admitted, job, lane) < BudgetField(cfg.budgets[job], lane).value
  }

  /** After those admitted, a task fits under the lane's limit. */
  predicate InLimit(cfg: Config, w: World, admitted: seq<TaskId>, lane: Lane) {
    var limit := InFlightLimit(cfg.limits, lane);
    limit.Some? ==> LaneInFlight(w, lane) + Flown(w, admitted, lane) < limit.value
  }

  /** A task of this job and lane gets through the pause, the budget and the limit. */
  predicate Fits(cfg: Config, w: World, admitted: seq<TaskId>, job: JobId, lane: Lane, paused: bool) {
    !(paused && IsFetchLane(lane)) && InBudget(cfg, w, admitted, job, lane) && InLimit(cfg, w, admitted, lane)
  }

  /** The picks that fit, each after those before it that did. */
  function Fitting(cfg: Config, w: World, ts: seq<TaskId>, paused: bool): seq<TaskId> {
    if ts == [] then []
    else
      var before, t := Fitting(cfg, w, ts[..|ts| - 1], paused), ts[|ts| - 1];
      before + if t in w.tasks && Fits(cfg, w, before, w.tasks[t].job, w.tasks[t].lane, paused) then [t] else []
  }

  /** The counts of a table in the middle of a tick: those of the starting table and the admissions since. */
  ghost predicate Counted(w: World, v: World, admitted: seq<TaskId>) {
    && (forall job, lane :: LaneSpend(v, job, lane) == LaneSpend(w, job, lane) + Spent(w, admitted, job, lane))
    && (forall lane :: LaneInFlight(v, lane) == LaneInFlight(w, lane) + Flown(w, admitted, lane))
  }

  lemma PromotionCounts(w: World, v: World, u: World, admitted: seq<TaskId>, t: TaskId)
    requires Counted(w, v, admitted) && t in w.tasks && t in v.tasks && v.tasks[t] == w.tasks[t]
    requires v.tasks[t].state.Pending? || v.tasks[t].state.RetryWait?
    requires u.tasks == v.tasks[t := Promote(v.tasks[t])]
    ensures Counted(w, u, admitted + [t])
  {
    assert (admitted + [t])[..|admitted|] == admitted;
    forall job, lane
      ensures LaneSpend(u, job, lane) == LaneSpend(w, job, lane) + Spent(w, admitted + [t], job, lane)
    {
      SpendAfter(v, u, t, job, lane);
    }
    forall lane
      ensures LaneInFlight(u, lane) == LaneInFlight(w, lane) + Flown(w, admitted + [t], lane)
    {
      FlightAfter(v, u, t, lane);
    }
  }

  lemma SpendAfter(v: World, u: World, t: TaskId, job: JobId, lane: Lane)
    requires t in v.tasks && (v.tasks[t].state.Pending? || v.tasks[t].state.RetryWait?)
    requires u.tasks == v.tasks[t := Promote(v.tasks[t])]
    ensures LaneSpend(u, job, lane)
            == LaneSpend(v, job, lane)
               + if v.tasks[t].state.Pending? && v.tasks[t].job == job && v.tasks[t].lane == lane then 1 else 0
  {
    if v.tasks[t].job == job && v.tasks[t].lane == lane {
      Caps.PromotedSpend(v, t);
    } else {
      assert SpendSet(u.tasks, job, lane) == SpendSet(v.tasks, job, lane);
    }
  }

  lemma PromotedFlight(v: World, t: TaskId)
    requires t in v.tasks && (v.tasks[t].state.Pending? || v.tasks[t].state.RetryWait?)
    ensures LaneInFlight(Caps.WithPromoted(v, t), v.tasks[t].lane) == LaneInFlight(v, v.tasks[t].lane) + 1
  {
    var before, after := FlightSet(v.tasks, v.tasks[t].lane), FlightSet(Caps.WithPromoted(v, t).tasks, v.tasks[t].lane);
    assert after == before + {t};
  }

  lemma FlightAfter(v: World, u: World, t: TaskId, lane: Lane)
    requires t in v.tasks && (v.tasks[t].state.Pending? || v.tasks[t].state.RetryWait?)
    requires u.tasks == v.tasks[t := Promote(v.tasks[t])]
    ensures LaneInFlight(u, lane) == LaneInFlight(v, lane) + if v.tasks[t].lane == lane then 1 else 0
  {
    if v.tasks[t].lane == lane {
      PromotedFlight(v, t);
    } else {
      assert FlightSet(u.tasks, lane) == FlightSet(v.tasks, lane);
    }
  }

  /** At its turn an answerable pick is admitted exactly when it fits. */
  lemma GateIsFits(cfg: Config, w: World, v: World, admitted: seq<TaskId>, t: TaskId, paused: bool)
    requires Counted(w, v, admitted) && t in w.tasks && t in v.tasks && v.tasks[t] == w.tasks[t]
    requires var outcome := Gate(cfg, v, t, paused); !Stale(outcome) && !Raises(outcome)
    ensures Gate(cfg, v, t, paused).Admitted? <==> Fits(cfg, w, admitted, w.tasks[t].job, w.tasks[t].lane, paused)
  {
    var job, lane := w.tasks[t].job, w.tasks[t].lane;
    assert LaneSpend(v, job, lane) == LaneSpend(w, job, lane) + Spent(w, admitted, job, lane);
    assert LaneInFlight(v, lane) == LaneInFlight(w, lane) + Flown(w, admitted, lane);
  }

  lemma NextPick(cfg: Config, w: World, ts: seq<TaskId>, paused: bool)
    requires ts != [] && ArePicks(cfg, w, ts) && TryAll(cfg, w, ts, paused).1.Returned?
    ensures var front, t := ts[..|ts| - 1], ts[|ts| - 1];
            var v := TryAll(cfg, w, front, paused).0;
            && t in w.tasks && t in v.tasks && v.tasks[t] == w.tasks[t]
            && !Stale(Gate(cfg, v, t, paused)) && !Raises(Gate(cfg, v, t, paused))
            && (v.tasks[t].state.Pending? || v.tasks[t].state.RetryWait?)
  {
    RefusalExact(cfg, w, ts, |ts| - 1, paused);
    PickKeeps(cfg, w, ts, |ts| - 1, paused);
    ReturnedTriedAll(cfg, w, ts[..|ts| - 1], paused);
  }

  /** A tick that returns has admitted exactly the picks that fit. */
  lemma {:induction false} AdmittedExact(cfg: Config, w: World, ts: seq<TaskId>, paused: bool)
    requires ArePicks(cfg, w, ts) && TryAll(cfg, w, ts, paused).1.Returned?
    ensures TryAll(cfg, w, ts, paused).1.admitted == Fitting(cfg, w, ts, paused)
    ensures Counted(w, TryAll(cfg, w, ts, paused).0, Fitting(cfg, w, ts, paused))
  {
    if ts != [] {
      var front, t := ts[..|ts| - 1], ts[|ts| - 1];
      AdmittedExact(cfg, w, front, paused);
      NextPick(cfg, w, ts, paused);
      var v, before := TryAll(cfg, w, front, paused).0, Fitting(cfg, w, front, paused);
      GateIsFits(cfg, w, v, before, t, paused);
      if Gate(cfg, v, t, paused).Admitted? {
        PromotionCounts(w, v, Admit(cfg, v, t, paused).0, before, t);
      }
    }
  }

  lemma {:induction false} MoreCountMore(w: World, admitted: seq<TaskId>, more: seq<TaskId>, job: JobId, lane: Lane)
    requires admitted <= more
    ensures Spent(w, admitted, job, lane) <= Spent(w, more, job, lane)
    ensures Flown(w, admitted, lane) <= Flown(w, more, lane)
  {
    if |admitted| < |more| {
      MoreCountMore(w, admitted, more[..|more| - 1], job, lane);
    } else {
      assert admitted == more;
    }
  }

  lemma {:induction false} FittingGrows(cfg: Config, w: World, ts: seq<TaskId>, paused: bool, k: nat)
    requires k <= |ts|
    ensures Fitting(cfg, w, ts[..k], paused) <= Fitting(cfg, w, ts, paused)
    decreases |ts|
  {
    if k < |ts| {
      assert ts[..|ts| - 1][..k] == ts[..k];
      FittingGrows(cfg, w, ts[..|ts| - 1], paused, k);
    } else {
      assert ts[..k] == ts;
    }
  }

  lemma {:induction false} FittingExact(cfg: Config, w: World, ts: seq<TaskId>, paused: bool, k: nat)
    requires k < |ts| && ts[k] in w.tasks && forall i, j :: 0 <= i < j < |ts| ==> ts[i] != ts[j]
    ensures ts[k] in Fitting(cfg, w, ts, paused)
            <==> Fits(cfg, w, Fitting(cfg, w, ts[..k], paused), w.tasks[ts[k]].job, w.tasks[ts[k]].lane, paused)
    decreases |ts|
  {
    var front := ts[..|ts| - 1];
    if k < |ts| - 1 {
      FittingExact(cfg, w, front, paused, k);
      assert front[..k] == ts[..k] && ts[|ts| - 1] != ts[k];
    } else {
      if ts[k] in Fitting(cfg, w, front, paused) {
        FittingArePicks(cfg, w, front, paused, ts[k]);
      }
    }
  }

  lemma {:induction false} FittingArePicks(cfg: Config, w: World, ts: seq<TaskId>, paused: bool, t: TaskId)
    requires t in Fitting(cfg, w, ts, paused)
    ensures t in ts
  {
    if t != ts[|ts| - 1] {
      FittingArePicks(cfg, w, ts[..|ts| - 1], paused, t);
    }
  }

  /** A pick is admitted exactly when it fits after the picks before it that fit. */
  lemma PickAdmittedExact(cfg: Config, w: World, ts: seq<TaskId>, paused: bool, k: nat)
    requires ArePicks(cfg, w, ts) && TryAll(cfg, w, ts, paused).1.Returned? && k < |ts|
    ensures ts[k] in w.tasks
    ensures ts[k] in TryAll(cfg, w, ts, paused).1.admitted
            <==> Fits(cfg, w, Fitting(cfg, w, ts[..k], paused), w.tasks[ts[k]].job, w.tasks[ts[k]].lane, paused)
  {
    PickKeeps(cfg, w, ts, k, paused);
    AdmittedExact(cfg, w, ts, paused);
    FittingExact(cfg, w, ts, paused, k);
  }

  /** Of a job's picks on a lane, retries among them, the admitted are the first ones. */
  lemma AdmittedComeFirst(cfg: Config, w: World, ts: seq<TaskId>, paused: bool, i: nat, k: nat)
    requires ArePicks(cfg, w, ts) && TryAll(cfg, w, ts, paused).1.Returned? && i < k < |ts|
    requires ts[i] in w.tasks && ts[k] in w.tasks
    requires w.tasks[ts[i]].job == w.tasks[ts[k]].job && w.tasks[ts[i]].lane == w.tasks[ts[k]].lane
    ensures var admitted := TryAll(cfg, w, ts, paused).1.admitted;
            ts[k] in admitted ==> ts[i] in admitted
  {
    PickAdmittedExact(cfg, w, ts, paused, i);
    PickAdmittedExact(cfg, w, ts, paused, k);
    assert ts[..k][..i] == ts[..i];
    FittingGrows(cfg, w, ts[..k], paused, i);
    MoreCountMore(w, Fitting(cfg, w, ts[..i], paused), Fitting(cfg, w, ts[..k], paused), w.tasks[ts[k]].job,
                  w.tasks[ts[k]].lane);
  }
}
