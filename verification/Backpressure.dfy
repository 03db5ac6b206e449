/** Downstream backpressure: the hysteresis gate and the exactness of a tick's cached measurement. */
module Backpressure {
  import opened Lanes
  import opened World

  predicate CountsAsBacklog(s: State) {
    s.Ready? || s.Leased? || s.Running? || s.RetryWait? || s.Pending?
  }

  function BacklogSet(tasks: map<TaskId, Task>, lane: Lane): set<TaskId> {
    set t | t in tasks && tasks[t].lane == lane && CountsAsBacklog(tasks[t].state)
  }

  /** Values for the three downstream lanes: backlogs of a reading, or their watermarks. */
  datatype Levels = Levels(extract: int, enrich: int, index: int)

  datatype Watermarks = Watermarks(high: Levels, low: Levels)

  function Measure(w: World): Levels {
    Levels(|BacklogSet(w.tasks, Extract)|, |BacklogSet(w.tasks, Enrich)|, |BacklogSet(w.tasks, Index)|)
  }

  predicate AnyHigh(r: Levels, marks: Watermarks) {
    r.extract >= marks.high.extract || r.enrich >= marks.high.enrich || r.index >= marks.high.index
  }

  predicate AllLow(r: Levels, marks: Watermarks) {
    r.extract <= marks.low.extract && r.enrich <= marks.low.enrich && r.index <= marks.low.index
  }

  function GateUpdate(paused: bool, r: Levels, marks: Watermarks): bool {
    if AnyHigh(r, marks) then true else if paused && AllLow(r, marks) then false else paused
  }

  class BackpressureGate {
    var fetchPaused: bool

    constructor ()
      ensures !fetchPaused
    {
      fetchPaused := false;
    }

    method Update(backlogs: Levels, marks: Watermarks)
      modifies this
      ensures fetchPaused == GateUpdate(old(fetchPaused), backlogs, marks)
    {
      if AnyHigh(backlogs, marks) {
        fetchPaused := true;
      } else if fetchPaused && AllLow(backlogs, marks) {
        fetchPaused := false;
      }
    }
  }

  /** The gate after a sequence of readings, starting open. */
  function GateAfter(readings: seq<Levels>, marks: Watermarks): bool {
    if readings == [] then false
    else GateUpdate(GateAfter(readings[..|readings| - 1], marks), readings[|readings| - 1], marks)
  }

  predicate Releases(r: Levels, marks: Watermarks) {
    AllLow(r, marks) && !AnyHigh(r, marks)
  }

  /** Reading `i` hit a high watermark and no later reading released the gate. */
  predicate HeldSince(readings: seq<Levels>, marks: Watermarks, i: nat) {
    i < |readings| && AnyHigh(readings[i], marks) && forall j :: i < j < |readings| ==> !Releases(readings[j], marks)
  }

  /** Fetching is paused exactly when some reading hit high with no releasing reading after it. */
  lemma {:induction false} GateClosedForm(readings: seq<Levels>, marks: Watermarks)
    ensures GateAfter(readings, marks) <==> exists i: nat :: HeldSince(readings, marks, i)
  {
    if readings != [] {
      var front, r := readings[..|readings| - 1], readings[|readings| - 1];
      GateClosedForm(front, marks);
      if AnyHigh(r, marks) {
        assert HeldSince(readings, marks, |front|);
      } else if GateAfter(readings, marks) {
        var i: nat :| HeldSince(front, marks, i);
        assert HeldSince(readings, marks, i);
      } else if i: nat :| HeldSince(readings, marks, i) {
        assert HeldSince(front, marks, i);
      }
    }
  }

  ghost predicate AllLowAlwaysReleases(marks: Watermarks) {
    forall r :: AllLow(r, marks) ==> Releases(r, marks)
  }

  /** A reading at or below every low watermark is sure to reopen the gate exactly when each low lies under its high. */
  lemma LowReleasesExact(marks: Watermarks)
    ensures AllLowAlwaysReleases(marks)
            <==> marks.low.extract < marks.high.extract && marks.low.enrich < marks.high.enrich
                 && marks.low.index < marks.high.index
  {
    assert AllLow(marks.low, marks);
  }

  /** Admit tasks in turn, all under the one backpressure state the tick measured. */
  function AdmitAll(cfg: Config, w: World, ts: seq<TaskId>, paused: bool): World {
    if ts == [] then w else Admit(cfg, AdmitAll(cfg, w, ts[..|ts| - 1], paused), ts[|ts| - 1], paused).0
  }

  lemma AdmitKeepsBacklog(cfg: Config, w: World, t: TaskId, paused: bool, lane: Lane)
    ensures BacklogSet(Admit(cfg, w, t, paused).0.tasks, lane) == BacklogSet(w.tasks, lane)
  {
  }

  lemma {:induction false} AdmitAllKeepsMeasure(cfg: Config, w: World, ts: seq<TaskId>, paused: bool)
    ensures Measure(AdmitAll(cfg, w, ts, paused)) == Measure(w)
  {
    if ts != [] {
      var v := AdmitAll(cfg, w, ts[..|ts| - 1], paused);
      AdmitAllKeepsMeasure(cfg, w, ts[..|ts| - 1], paused);
      AdmitKeepsBacklog(cfg, v, ts[|ts| - 1], paused, Extract);
      AdmitKeepsBacklog(cfg, v, ts[|ts| - 1], paused, Enrich);
      AdmitKeepsBacklog(cfg, v, ts[|ts| - 1], paused, Index);
    }
  }

  /** At every point of a tick the state measured at its start equals what a fresh measurement would give. */
  lemma CachedBackpressureExact(cfg: Config, w: World, ts: seq<TaskId>, k: nat, marks: Watermarks, before: bool)
    requires k <= |ts|
    ensures var paused := GateUpdate(before, Measure(w), marks);
            GateUpdate(paused, Measure(AdmitAll(cfg, w, ts[..k], paused)), marks) == paused
  {
    AdmitAllKeepsMeasure(cfg, w, ts[..k], GateUpdate(before, Measure(w), marks));
  }
}
