/** When a failed task may run again: the backoff of its attempt, the header of the failure, or the route's cooldown. */
module RetryTimes {
  import opened Wrappers
  import opened Lanes
  import opened Circuit
  import opened CircuitTheorems
  import opened Permission
  import opened Backoff
  import opened Retries
  import ControlPlane

  /** The failure left the breaker letting requests pass, so the task waits for a backoff of its next attempt. */
  lemma WaitsForBackoff(config: Config, route: string, before: Breaker, counts: bool, time: int, delay: int,
                        after: Breaker, retryAt: int, lane: Lane, attempt: int, jitter: real)
    requires ControlPlane.Planned(config, route, before, counts, time, delay, after, retryAt) && Ask(after, time).1
    requires IsDraw(jitter) && delay as real == BackoffSeconds(lane, attempt + 1, None, jitter)
    ensures IsBackoff(lane, attempt + 1, retryAt - time) && retryAt >= time
  {
    DrawnIsBackoff(lane, attempt + 1, delay, jitter);
  }

  lemma DrawnIsBackoff(lane: Lane, attempt: int, delay: int, jitter: real)
    requires IsDraw(jitter) && delay as real == BackoffSeconds(lane, attempt, None, jitter)
    ensures IsBackoff(lane, attempt, delay) && delay >= 0
  {
    RawIsPositive(lane, attempt);
    DrawsBetween(RawDelay(lane, attempt), jitter, delay as real);
  }

  lemma RawIsPositive(lane: Lane, attempt: int)
    ensures RawDelay(lane, attempt) > 0.0
  {
  }

  lemma DrawsBetween(raw: real, jitter: real, wait: real)
    requires raw >= 0.0 && IsDraw(jitter) && wait == raw * jitter
    ensures 0.0 <= 0.75 * raw <= wait <= 1.25 * raw
  {
    NonNegativeProduct(raw, jitter - 0.75);
    NonNegativeProduct(raw, 1.25 - jitter);
    assert raw * (jitter - 0.75) == wait - raw * 0.75;
    assert raw * (1.25 - jitter) == raw * 1.25 - wait;
  }

  /** With a Retry-After header it waits for that long, whatever lane, attempt and draw. */
  lemma WaitsForHeader(config: Config, route: string, before: Breaker, counts: bool, time: int, delay: int,
                       after: Breaker, retryAt: int, lane: Lane, attempt: int, jitter: real, seconds: real)
    requires ControlPlane.Planned(config, route, before, counts, time, delay, after, retryAt) && Ask(after, time).1
    requires delay as real == BackoffSeconds(lane, attempt + 1, Some(seconds), jitter)
    ensures (retryAt - time) as real == if seconds >= 0.0 then seconds else 0.0
  {
  }

  /** The events a route's breaker has seen once a failure was handled at `time`. */
  function Handled(es: seq<Event>, counts: bool, time: int): seq<Event> {
    es + (if counts then [Failed(time)] else []) + [Asked(time)]
  }

  /** After a run, the failure and the question about it are two more of its events. */
  lemma PlannedIsRun(config: Config, route: string, es: seq<Event>, counts: bool, time: int, delay: int, after: Breaker,
                     retryAt: int)
    requires config.cooldowns != []
    requires ControlPlane.Planned(config, route, Run(SetupFor(route, config), es), counts, time, delay, after, retryAt)
    ensures after == Run(SetupFor(route, config), Handled(es, counts, time))
  {
    var setup := SetupFor(route, config);
    if counts {
      RunSnoc(setup, FRESH, es, Failed(time));
      RunSnoc(setup, FRESH, es + [Failed(time)], Asked(time));
    } else {
      RunSnoc(setup, FRESH, es, Asked(time));
      assert es + [] == es;
    }
  }

  /**
   * The retry time over whole histories: the delay on a route that has not opened since it last closed; the end of the
   * cooldown, and so the first moment a request passes, on one that is cooling; never sooner than now, except on a
   * wedged route.
   */
  lemma RetryTimeExact(config: Config, route: string, es: seq<Event>, counts: bool, time: int, delay: nat,
                       after: Breaker, retryAt: int)
    requires config.cooldowns != []
    requires ControlPlane.Planned(config, route, Run(SetupFor(route, config), es), counts, time, delay, after, retryAt)
    ensures var now := Run(SetupFor(route, config), Handled(es, counts, time));
            && (OpeningsSinceClose(SetupFor(route, config), Handled(es, counts, time)) == 0 ==> retryAt == time + delay)
            && (Cooling(now, time) ==> now.cooldownUntil == Some(retryAt) && retryAt > time)
            && (!Cooling(now, time) && !Wedged(now) ==> retryAt == time + delay)
            && (Wedged(now) ==> now.cooldownUntil == Some(retryAt))
  {
    var setup := SetupFor(route, config);
    PlannedIsRun(config, route, es, counts, time, delay, after, retryAt);
    ClosedExact(setup, Handled(es, counts, time));
    RefusedExact(setup, Handled(es, counts, time), time);
  }

  // ---- The schedules ---------------------------------------------------------------------------

  /** The delays before jitter, attempt by attempt, until each lane's ceiling. */
  lemma Schedules(attempt: nat)
    requires attempt >= 1
    ensures RawDelay(Http, attempt)
            == if attempt <= 1 then 2.0 else if attempt == 2 then 4.0 else if attempt == 3 then 8.0
               else if attempt == 4 then 16.0 else 32.0
    ensures RawDelay(Browser, attempt)
            == if attempt <= 1 then 5.0 else if attempt == 2 then 10.0 else if attempt == 3 then 20.0
               else if attempt == 4 then 40.0 else 45.0
    ensures RawDelay(Extract, attempt)
            == if attempt <= 1 then 1.0 else if attempt == 2 then 2.0 else if attempt == 3 then 4.0
               else if attempt == 4 then 8.0 else if attempt == 5 then 16.0 else 30.0
  {
    FirstFive(Http);
    FirstFive(Browser);
    FirstFive(Extract);
    if attempt > 5 {
      GrownGrows(Http, 5, attempt);
      GrownGrows(Browser, 5, attempt);
      if attempt > 6 {
        GrownGrows(Extract, 6, attempt);
      }
    }
  }

  lemma FirstFive(lane: Lane)
    ensures Grown(lane, 1) == LaneBase(lane) && Grown(lane, 2) == 2.0 * LaneBase(lane)
    ensures Grown(lane, 3) == 4.0 * LaneBase(lane) && Grown(lane, 4) == 8.0 * LaneBase(lane)
    ensures Grown(lane, 5) == 16.0 * LaneBase(lane) && Grown(lane, 6) == 32.0 * LaneBase(lane)
  {
    assert Grown(lane, 3) == 2.0 * Grown(lane, 2);
    assert Grown(lane, 4) == 2.0 * Grown(lane, 3);
    assert Grown(lane, 5) == 2.0 * Grown(lane, 4);
  }

  /** All other lanes share one of these three schedules. */
  lemma SharedSchedules(lane: Lane, attempt: int)
    ensures lane.Enrich? || lane.Index? ==> RawDelay(lane, attempt) == RawDelay(Extract, attempt)
    ensures lane.Search? || lane.Media? || lane.Document? || lane.Other? ==>
              RawDelay(lane, attempt) == RawDelay(Http, attempt)
  {
    SameGrowth(lane, Extract, attempt);
    SameGrowth(lane, Http, attempt);
  }

  lemma {:induction false} SameGrowth(a: Lane, b: Lane, attempt: int)
    ensures LaneBase(a) == LaneBase(b) ==> Grown(a, attempt) == Grown(b, attempt)
    decreases attempt
  {
    if attempt > 1 {
      SameGrowth(a, b, attempt - 1);
    }
  }
}
