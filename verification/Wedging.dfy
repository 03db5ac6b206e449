/** Exactly which events, runs and configurations wedge a breaker, and when a retry is then scheduled in the past. */
module Wedging {
  import opened Circuit
  import opened CircuitTheorems
  import ControlPlane

  // ---- Steps and runs ------------------------------------------------------------

  /** A failure counted in half-open after which the opening condition does not hold. */
  predicate Wedges(setup: Setup, b: Breaker, e: Event)
    requires Fits(setup, b)
  {
    e.Failed? && Refresh(b, e.now).0.mode == HalfOpen
    && !ShouldOpen(setup.config, b.(failures := b.failures + 1, recent := Push(b.recent, false, setup.config.window)))
  }

  /**
   * An event wedges a breaker exactly in that way, and a wedged one stays so exactly under requests and such
   * failures.
   */
  lemma WedgeStepExact(setup: Setup, b: Breaker, e: Event)
    requires Fits(setup, b)
    ensures Wedged(Handle(setup, b, e)) <==> Wedges(setup, b, e) || (Wedged(b) && e.Asked?)
  {
  }

  /** Event `i` wedged the breaker and no event since has freed it. */
  predicate WedgedSince(setup: Setup, es: seq<Event>, i: nat)
    requires setup.steps != []
  {
    i < |es| && Wedges(setup, Run(setup, es[..i]), es[i])
    && forall j :: i < j < |es| ==> es[j].Asked? || Wedges(setup, Run(setup, es[..j]), es[j])
  }

  /** A run leaves the breaker wedged exactly when some failure wedged it and no later report freed it. */
  lemma {:induction false} WedgedRunExact(setup: Setup, es: seq<Event>)
    requires setup.steps != []
    ensures Wedged(Run(setup, es)) <==> exists i: nat :: WedgedSince(setup, es, i)
  {
    if es != [] {
      var front, e := es[..|es| - 1], es[|es| - 1];
      WedgedRunExact(setup, front);
      WedgeStepExact(setup, Run(setup, front), e);
      assert forall j :: 0 <= j <= |front| ==> front[..j] == es[..j];
      if Wedges(setup, Run(setup, front), e) {
        assert WedgedSince(setup, es, |front|);
      } else if Wedged(Run(setup, es)) {
        var i: nat :| WedgedSince(setup, front, i);
        assert WedgedSince(setup, es, i);
      } else if i: nat :| WedgedSince(setup, es, i) {
        assert i < |front| && WedgedSince(setup, front, i);
      }
    }
  }

  // ---- Configurations --------------------------------------------------------------

  /** A full window with a single failure in it does not meet the opening rate. */
  predicate ToleratesOneFailure(config: Config) {
    if config.window == 0 then config.rate >= 0.0 else 1.0 / config.window as real <= config.rate
  }

  predicate Wedgeable(config: Config) {
    config.threshold >= 2 && (config.threshold + 2 < config.window || ToleratesOneFailure(config))
  }

  /**
   * Past its first opening, a breaker whose window is not full holds its failures or one report more than they took.
   */
  predicate Loaded(config: Config, b: Breaker) {
    && b.failures >= 0
    && (|b.recent| < config.window ==> b.failures <= |b.recent|)
    && (|b.recent| < config.window && b.mode != Closed ==>
          b.failures >= config.threshold || |b.recent| > config.threshold)
  }

  lemma {:induction false} FailureCountPositive(results: seq<bool>)
    requires results != [] && !results[|results| - 1]
    ensures FailureCount(results) >= 1
  {
  }

  lemma RateOfOne(count: nat, window: nat)
    requires count >= 1 && window >= 1
    ensures count as real / window as real >= 1.0 / window as real
  {
  }

  /** With one failure enough to trip a full window, a failed probe always finds the opening condition. */
  lemma ProbeReopens(setup: Setup, b: Breaker)
    requires Fits(setup, b) && Loaded(setup.config, b) && b.mode != Closed && !Wedgeable(setup.config)
    ensures ShouldOpen(setup.config,
                       b.(failures := b.failures + 1, recent := Push(b.recent, false, setup.config.window)))
  {
    var config := setup.config;
    var pushed := Push(b.recent, false, config.window);
    if config.threshold >= 2 && |pushed| == config.window > 0 {
      FailureCountPositive(pushed);
      RateOfOne(FailureCount(pushed), config.window);
    }
  }

  /** A result pushed onto the deque, as far as a window that is not full is concerned. */
  lemma PushLength(recent: seq<bool>, ok: bool, window: nat)
    requires |recent| <= window
    ensures |Push(recent, ok, window)| == if |recent| < window then |recent| + 1 else window
  {
  }

  lemma SucceedKeepsLoaded(setup: Setup, b: Breaker)
    requires Fits(setup, b) && Loaded(setup.config, b)
    ensures Loaded(setup.config, Succeed(setup, b).0)
  {
    PushLength(b.recent, true, setup.config.window);
  }

  lemma FailKeepsLoaded(setup: Setup, b: Breaker, now: int)
    requires Fits(setup, b) && Loaded(setup.config, b) && !Wedgeable(setup.config)
    ensures Loaded(setup.config, Fail(setup, b, now).0)
  {
    PushLength(b.recent, false, setup.config.window);
    if b.mode != Closed {
      ProbeReopens(setup, b);
    }
  }

  lemma HandleKeepsLoaded(setup: Setup, b: Breaker, e: Event)
    requires Fits(setup, b) && Loaded(setup.config, b) && !Wedged(b) && !Wedgeable(setup.config)
    ensures Loaded(setup.config, Handle(setup, b, e)) && !Wedged(Handle(setup, b, e))
  {
    WedgeStepExact(setup, b, e);
    if b.mode != Closed {
      ProbeReopens(setup, b);
    }
    match e
    case Asked(now) =>
    case Failed(now) => FailKeepsLoaded(setup, b, now);
    case Succeeded => SucceedKeepsLoaded(setup, b);
  }

  lemma {:induction false} NeverWedgeable(setup: Setup, es: seq<Event>)
    requires setup.steps != [] && !Wedgeable(setup.config)
    ensures Loaded(setup.config, Run(setup, es)) && !Wedged(Run(setup, es))
  {
    if es != [] {
      NeverWedgeable(setup, es[..|es| - 1]);
      HandleKeepsLoaded(setup, Run(setup, es[..|es| - 1]), es[|es| - 1]);
    }
  }

  /** Report failures until the breaker opens; below the window's length that takes exactly the threshold. */
  lemma {:induction false} ReachOpen(setup: Setup, es: seq<Event>) returns (fs: seq<Event>)
    requires setup.steps != [] && Run(setup, es).mode == Closed && Run(setup, es).failures < setup.config.threshold
    ensures Run(setup, fs).mode == Open && Run(setup, fs).cooldownUntil.Some?
    ensures |Run(setup, es).recent| == Run(setup, es).failures && setup.config.threshold < setup.config.window ==>
              |Run(setup, fs).recent| == setup.config.threshold
    decreases setup.config.threshold - Run(setup, es).failures
  {
    fs := es + [Failed(0)];
    RunSnoc(setup, FRESH, es, Failed(0));
    if Run(setup, fs).mode != Open {
      fs := ReachOpen(setup, fs);
    }
  }

  /** The newest results are all successes. */
  predicate EndsWell(recent: seq<bool>, n: nat) {
    forall k :: 0 <= k < |recent| && k >= |recent| - n ==> recent[k]
  }

  lemma {:induction false} SucceedWhileOpen(setup: Setup, es: seq<Event>, n: nat) returns (fs: seq<Event>)
    requires setup.steps != [] && Run(setup, es).mode == Open && Run(setup, es).cooldownUntil.Some?
    ensures var b, c := Run(setup, es), Run(setup, fs);
            && c.mode == Open && c.cooldownUntil == b.cooldownUntil && (n > 0 ==> c.failures == 0)
            && EndsWell(c.recent, n)
            && |c.recent| == if |b.recent| + n <= setup.config.window then |b.recent| + n else setup.config.window
  {
    if n == 0 {
      fs := es;
    } else {
      var front := SucceedWhileOpen(setup, es, n - 1);
      fs := front + [Succeeded];
      RunSnoc(setup, FRESH, front, Succeeded);
    }
  }

  lemma {:induction false} NoFailures(results: seq<bool>)
    requires forall k :: 0 <= k < |results| ==> results[k]
    ensures FailureCount(results) == 0
  {
    if results != [] {
      NoFailures(results[..|results| - 1]);
    }
  }

  lemma OneFailureRate(recent: seq<bool>, window: nat)
    requires |recent| == window > 0 && forall k :: 0 <= k < window ==> recent[k]
    ensures FailureRate(Push(recent, false, window)) == 1.0 / window as real
  {
    var pushed := Push(recent, false, window);
    assert pushed[..|pushed| - 1] == recent[1..];
    NoFailures(recent[1..]);
  }

  /**
   * A run that wedges: open the breaker, report successes until the failed probe will not count, and fail the probe.
   */
  lemma WedgingRun(setup: Setup) returns (es: seq<Event>)
    requires setup.steps != [] && Wedgeable(setup.config)
    ensures Wedged(Run(setup, es))
  {
    var config := setup.config;
    var opening := ReachOpen(setup, []);
    var rest := SucceedWhileOpen(setup, opening, if config.threshold + 2 < config.window then 1 else config.window + 1);
    var b := Run(setup, rest);
    es := rest + [Failed(b.cooldownUntil.value)];
    RunSnoc(setup, FRESH, rest, Failed(b.cooldownUntil.value));
    if config.threshold + 2 >= config.window > 0 {
      OneFailureRate(b.recent, config.window);
    }
    FailedProbeExact(setup, b, b.cooldownUntil.value);
  }

  /**
   * A breaker can be wedged at all exactly when its configuration allows it: it takes two failures in a row to open,
   * and a full window tolerates one failure or two more reports than the threshold do not fill it.
   */
  lemma CanWedgeExact(setup: Setup)
    requires setup.steps != []
    ensures (exists es :: Wedged(Run(setup, es))) <==> Wedgeable(setup.config)
  {
    if Wedgeable(setup.config) {
      var es := WedgingRun(setup);
    } else {
      forall es
        ensures !Wedged(Run(setup, es))
      {
        NeverWedgeable(setup, es);
      }
    }
  }

  // ---- Retries of a wedged route ---------------------------------------------------------

  /** Opened breakers know when their cooldown ends. */
  predicate CooldownSet(b: Breaker) {
    b.mode != Closed ==> b.cooldownUntil.Some?
  }

  lemma {:induction false} RunSetsCooldown(setup: Setup, es: seq<Event>)
    requires setup.steps != []
    ensures CooldownSet(Run(setup, es))
  {
    if es != [] {
      RunSetsCooldown(setup, es[..|es| - 1]);
    }
  }

  /**
   * A retry is scheduled in the past exactly when the route's cooldown has run out and its breaker is wedged already,
   * or gets wedged by this very failure if it counts.
   */
  lemma PastRetryExact(config: Config, route: string, es: seq<Event>, counts: bool, now: int, delay: nat,
                       after: Breaker, retryAt: int)
    requires config.cooldowns != [] && forall k :: 0 <= k < |config.cooldowns| ==> config.cooldowns[k] >= 0
    requires ControlPlane.Planned(config, route, Run(SetupFor(route, config), es), counts, now, delay, after, retryAt)
    ensures var setup := SetupFor(route, config);
            var b := Run(setup, es);
            retryAt < now
            <==> b.cooldownUntil.Some? && b.cooldownUntil.value < now
                 && if counts then Wedges(setup, b, Failed(now)) else Wedged(b)
  {
    var setup := SetupFor(route, config);
    RunSetsCooldown(setup, es);
    WedgeStepExact(setup, Run(setup, es), Failed(now));
  }
}
