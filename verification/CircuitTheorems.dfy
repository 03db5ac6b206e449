/** What a breaker guarantees over whole runs of requests and reports. */
module CircuitTheorems {
  import opened Wrappers
  import opened Circuit

  /** One call on a breaker: a permission request, a reported failure or a reported success. */
  datatype Event = Asked(now: int) | Failed(now: int) | Succeeded

  /** A breaker whose deque respects its window. */
  predicate Fits(setup: Setup, b: Breaker) {
    setup.steps != [] && |b.recent| <= setup.config.window
  }

  function Handle(setup: Setup, b: Breaker, e: Event): (c: Breaker)
    requires Fits(setup, b)
    ensures Fits(setup, c)
  {
    match e
    case Asked(now) => Ask(b, now).0
    case Failed(now) => Fail(setup, b, now).0
    case Succeeded => Succeed(setup, b).0
  }

  function RunFrom(setup: Setup, b: Breaker, es: seq<Event>): (c: Breaker)
    requires Fits(setup, b)
    ensures Fits(setup, c)
  {
    if es == [] then b else Handle(setup, RunFrom(setup, b, es[..|es| - 1]), es[|es| - 1])
  }

  function Run(setup: Setup, es: seq<Event>): Breaker
    requires setup.steps != []
  {
    RunFrom(setup, FRESH, es)
  }

  /** The results reported in a run, oldest first. */
  function Reports(es: seq<Event>): seq<bool> {
    if es == [] then []
    else
      var e := es[|es| - 1];
      Reports(es[..|es| - 1]) + if e.Asked? then [] else [e.Succeeded?]
  }

  function Last(results: seq<bool>, n: nat): seq<bool> {
    if |results| <= n then results else results[|results| - n..]
  }

  /** The number of failures at the end of the reports. */
  function Trailing(results: seq<bool>): nat {
    if results == [] || results[|results| - 1] then 0 else 1 + Trailing(results[..|results| - 1])
  }

  // ---- The window and the failure counter against the full history -------

  lemma PushIsLast(results: seq<bool>, ok: bool, window: nat)
    ensures Push(Last(results, window), ok, window) == Last(results + [ok], window)
  {
  }

  /** What one call does to the deque, the failure counter and the count of openings. */
  lemma HandleBooks(setup: Setup, b: Breaker, e: Event)
    requires Fits(setup, b)
    ensures var c := Handle(setup, b, e);
            && c.recent == (if e.Asked? then b.recent else Push(b.recent, e.Succeeded?, setup.config.window))
            && (e.Asked? ==> c.failures == b.failures)
            && (e.Succeeded? ==> c.failures == 0)
            && (e.Failed? ==> b.failures <= c.failures <= b.failures + 1)
            && (c.mode == Closed ==> (b.mode == Closed || e.Succeeded?))
            && (c.mode == Closed && e.Failed? ==> c.failures == b.failures + 1)
            && c.openCount == if Opened(setup, b, e) then b.openCount + 1
                              else if e.Succeeded? && b.mode == HalfOpen then 0 else b.openCount
  {
  }

  /** The deque always holds the last `window` results of the whole history. */
  lemma {:induction false} WindowIsHistory(setup: Setup, es: seq<Event>)
    requires setup.steps != []
    ensures Run(setup, es).recent == Last(Reports(es), setup.config.window)
  {
    if es != [] {
      var front := es[..|es| - 1];
      WindowIsHistory(setup, front);
      HandleBooks(setup, Run(setup, front), es[|es| - 1]);
      PushIsLast(Reports(front), es[|es| - 1].Succeeded?, setup.config.window);
    }
  }

  /** The counter never exceeds the failures in a row, and equals them while the breaker is closed. */
  lemma {:induction false} CounterIsTrailing(setup: Setup, es: seq<Event>)
    requires setup.steps != []
    ensures var b := Run(setup, es);
            0 <= b.failures <= Trailing(Reports(es))
            && (b.mode == Closed ==> b.failures == Trailing(Reports(es)))
  {
    if es != [] {
      var front, e := es[..|es| - 1], es[|es| - 1];
      CounterIsTrailing(setup, front);
      CounterStep(setup, Run(setup, front), e, Reports(front));
    }
  }

  lemma CounterStep(setup: Setup, b: Breaker, e: Event, results: seq<bool>)
    requires Fits(setup, b) && 0 <= b.failures <= Trailing(results)
    requires b.mode == Closed ==> b.failures == Trailing(results)
    ensures var c, more := Handle(setup, b, e), results + if e.Asked? then [] else [e.Succeeded?];
            && 0 <= c.failures <= Trailing(more)
            && (c.mode == Closed ==> c.failures == Trailing(more))
  {
    HandleBooks(setup, b, e);
    if e.Asked? {
      assert results + [] == results;
    } else {
      TrailingSnoc(results, e.Succeeded?);
    }
  }

  lemma TrailingSnoc(results: seq<bool>, ok: bool)
    ensures Trailing(results + [ok]) == if ok then 0 else 1 + Trailing(results)
  {
    assert (results + [ok])[..|results|] == results;
  }

  /** The documented opening rule, over the history of reports. */
  predicate Justified(config: Config, results: seq<bool>) {
    Trailing(results) >= config.threshold
    || (|results| >= config.window && FailureRate(Last(results, config.window)) > config.rate)
  }

  predicate Opened(setup: Setup, b: Breaker, e: Event)
    requires Fits(setup, b)
  {
    e.Failed? && Fail(setup, b, e.now).1.Some?
  }

  /** A closed breaker opens on a failure exactly when the history meets the documented rule. */
  lemma OpeningExact(setup: Setup, es: seq<Event>, now: int)
    requires setup.steps != [] && Run(setup, es).mode == Closed
    ensures Opened(setup, Run(setup, es), Failed(now))
            <==> Justified(setup.config, Reports(es) + [false])
  {
    WindowIsHistory(setup, es);
    CounterIsTrailing(setup, es);
    PushIsLast(Reports(es), false, setup.config.window);
    TrailingSnoc(Reports(es), false);
    OpenRule(setup, Run(setup, es), now);
  }

  lemma OpenRule(setup: Setup, b: Breaker, now: int)
    requires Fits(setup, b) && b.mode == Closed
    ensures Opened(setup, b, Failed(now))
            <==> ShouldOpen(setup.config, b.(failures := b.failures + 1, recent := Push(b.recent, false,
                setup.config.window)))
  {
  }

  // ---- Liveness: the breaker never wedges --------------------------------

  /** No success was reported while the breaker stood open. */
  predicate NoLateSuccess(setup: Setup, es: seq<Event>)
    requires setup.steps != []
  {
    forall i :: 0 <= i < |es| && es[i].Succeeded? ==> Run(setup, es[..i]).mode != Open
  }

  /** The opening condition holds whenever the breaker is not closed, and half-open means a probe may go. */
  predicate Healthy(setup: Setup, b: Breaker) {
    && (b.mode != Closed ==> ShouldOpen(setup.config, b))
    && (b.mode == Open ==> b.cooldownUntil.Some?)
    && (b.mode == HalfOpen ==> b.probeAllowed)
  }

  lemma {:induction false} FailureCountSplits(x: bool, rest: seq<bool>)
    ensures FailureCount([x] + rest) == (if x then 0 else 1) + FailureCount(rest)
  {
    if rest != [] {
      FailureCountSplits(x, rest[..|rest| - 1]);
      assert ([x] + rest)[..|rest|] == [x] + rest[..|rest| - 1];
    } else {
      assert ([x] + rest)[..0] == [];
    }
  }

  /** Pushing a failure cannot lower the failure rate of a full window. */
  lemma PushFailureKeepsRate(recent: seq<bool>, window: nat)
    requires |recent| == window
    ensures FailureRate(Push(recent, false, window)) >= FailureRate(recent)
  {
    if window > 0 {
      assert recent == [recent[0]] + recent[1..];
      FailureCountSplits(recent[0], recent[1..]);
      var pushed := Push(recent, false, window);
      assert pushed[..|pushed| - 1] == recent[1..];
      RatioGrows(FailureCount(recent), FailureCount(pushed), window);
    }
  }

  lemma RatioGrows(a: nat, b: nat, n: nat)
    requires a <= b && n > 0
    ensures b as real / n as real >= a as real / n as real
  {
  }

  lemma FailureKeepsShouldOpen(setup: Setup, b: Breaker, failures: int)
    requires Fits(setup, b) && ShouldOpen(setup.config, b) && failures >= b.failures
    ensures ShouldOpen(setup.config, b.(recent := Push(b.recent, false, setup.config.window), failures := failures))
    ensures ShouldOpen(setup.config,
                       b.(recent := Push(b.recent, false, setup.config.window), failures := failures,
                          probeAllowed := false))
  {
    if |b.recent| == setup.config.window {
      PushFailureKeepsRate(b.recent, setup.config.window);
    }
  }

  lemma HandleKeepsHealthy(setup: Setup, b: Breaker, e: Event)
    requires Fits(setup, b) && Healthy(setup, b)
    requires e.Succeeded? ==> b.mode != Open
    ensures Healthy(setup, Handle(setup, b, e))
  {
    if e.Failed? {
      var c := Refresh(b, e.now).0;
      if c.mode != Closed {
        FailureKeepsShouldOpen(setup, c, c.failures);
        FailureKeepsShouldOpen(setup, c, c.failures + 1);
      }
    }
  }

  lemma {:induction false} RunIsHealthy(setup: Setup, es: seq<Event>)
    requires setup.steps != [] && NoLateSuccess(setup, es)
    ensures Healthy(setup, Run(setup, es))
  {
    if es != [] {
      var front := es[..|es| - 1];
      forall i | 0 <= i < |front| && front[i].Succeeded?
        ensures Run(setup, front[..i]).mode != Open
      {
        assert front[..i] == es[..i];
      }
      RunIsHealthy(setup, front);
      HandleKeepsHealthy(setup, Run(setup, front), es[|es| - 1]);
    }
  }

  /**
   * With no success reported while open, a breaker never wedges: half-open always admits a request, an open
   * one admits a request from the end of its cooldown on, and a failed probe always re-opens.
   */
  lemma NeverWedges(setup: Setup, es: seq<Event>, now: int)
    requires setup.steps != [] && NoLateSuccess(setup, es)
    ensures var b := Run(setup, es);
            && (b.mode == HalfOpen ==> Ask(b, now).1)
            && (b.mode == Open ==> b.cooldownUntil.Some? && (Ask(b, now).1 <==> now >= b.cooldownUntil.value))
            && (Refresh(b, now).0.mode == HalfOpen ==> Fail(setup, b, now).0.mode == Open)
  {
    RunIsHealthy(setup, es);
    var b := Run(setup, es);
    if Refresh(b, now).0.mode == HalfOpen {
      FailureKeepsShouldOpen(setup, Refresh(b, now).0, b.failures + 1);
    }
  }

  /** Half-open with its probe spent: no request is admitted. */
  predicate Wedged(b: Breaker) {
    b.mode == HalfOpen && !b.probeAllowed
  }

  /**
   * A failed probe, or a failure that is the first word of an open breaker past its cooldown, leaves the breaker
   * wedged exactly when the opening condition fails after it is counted.
   */
  lemma FailedProbeExact(setup: Setup, b: Breaker, now: int)
    requires Fits(setup, b) && Refresh(b, now).0.mode == HalfOpen
    ensures Wedged(Fail(setup, b, now).0) <==>
              b.failures + 1 < setup.config.threshold
              && !(|Push(b.recent, false, setup.config.window)| >= setup.config.window
                   && FailureRate(Push(b.recent, false, setup.config.window)) > setup.config.rate)
    ensures !Wedged(Fail(setup, b, now).0) <==> Fail(setup, b, now).0.mode == Open
  {
  }

  /** A wedged breaker refuses every request, however late, until some result is reported. */
  lemma {:induction false} WedgedRefusesAll(setup: Setup, b: Breaker, es: seq<Event>, now: int)
    requires Fits(setup, b) && Wedged(b) && forall i :: 0 <= i < |es| ==> es[i].Asked?
    ensures RunFrom(setup, b, es) == b && !Ask(RunFrom(setup, b, es), now).1
  {
    if es != [] {
      WedgedRefusesAll(setup, b, es[..|es| - 1], now);
    }
  }

  function Repeat(e: Event, n: nat): (es: seq<Event>)
    ensures |es| == n && forall i :: 0 <= i < n ==> es[i] == e
  {
    seq(n, _ => e)
  }

  lemma {:induction false} ClosedFailuresCount(setup: Setup, n: nat)
    requires setup.config == DEFAULT_CONFIG && setup.steps != [] && n < 10
    ensures var b := Run(setup, Repeat(Failed(0), n));
            b.mode == Closed && b.failures == n && |b.recent| == n && b.openCount == 0
  {
    if n > 0 {
      assert Repeat(Failed(0), n)[..n - 1] == Repeat(Failed(0), n - 1);
      ClosedFailuresCount(setup, n - 1);
    }
  }

  lemma RunSnoc(setup: Setup, b: Breaker, es: seq<Event>, e: Event)
    requires Fits(setup, b)
    ensures RunFrom(setup, b, es + [e]) == Handle(setup, RunFrom(setup, b, es), e)
  {
    assert (es + [e])[..|es|] == es;
  }

  /** Ten failures, a late success, then a failed probe: with the shipped defaults the breaker is wedged. */
  lemma LateSuccessWedges()
    ensures var setup := Setup(DEFAULT_CONFIG, DEFAULT_CONFIG.cooldowns);
            Wedged(Run(setup, Repeat(Failed(0), 9) + [Failed(0)] + [Succeeded] + [Asked(900)] + [Failed(900)]))
  {
    var setup := Setup(DEFAULT_CONFIG, DEFAULT_CONFIG.cooldowns);
    var nine := Repeat(Failed(0), 9);
    ClosedFailuresCount(setup, 9);
    RunSnoc(setup, FRESH, nine, Failed(0));
    RunSnoc(setup, FRESH, nine + [Failed(0)], Succeeded);
    RunSnoc(setup, FRESH, nine + [Failed(0)] + [Succeeded], Asked(900));
    RunSnoc(setup, FRESH, nine + [Failed(0)] + [Succeeded] + [Asked(900)], Failed(900));
  }

  // ---- Cooldowns ----------------------------------------------------------

  /** While the cooldown runs nothing that is reported moves it or admits a request; afterwards a request goes. */
  lemma {:induction false} CooldownSilence(setup: Setup, b: Breaker, es: seq<Event>, now: int)
    requires Fits(setup, b) && b.mode == Open && b.cooldownUntil.Some?
    requires forall i :: 0 <= i < |es| && !es[i].Succeeded? ==> es[i].now < b.cooldownUntil.value
    ensures var c := RunFrom(setup, b, es);
            c.mode == Open && c.cooldownUntil == b.cooldownUntil && c.openCount == b.openCount
            && (Ask(c, now).1 <==> now >= b.cooldownUntil.value)
  {
    if es != [] {
      CooldownSilence(setup, b, es[..|es| - 1], now);
    }
  }

  /** Openings since the breaker last closed. */
  function OpeningsSinceClose(setup: Setup, es: seq<Event>): nat
    requires setup.steps != []
  {
    if es == [] then 0
    else
      var front, e := es[..|es| - 1], es[|es| - 1];
      var b := Run(setup, front);
      if Opened(setup, b, e) then OpeningsSinceClose(setup, front) + 1
      else if e.Succeeded? && b.mode == HalfOpen then 0
      else OpeningsSinceClose(setup, front)
  }

  lemma {:induction false} OpenCountCountsOpenings(setup: Setup, es: seq<Event>)
    requires setup.steps != []
    ensures Run(setup, es).openCount == OpeningsSinceClose(setup, es)
  {
    if es != [] {
      OpenCountCountsOpenings(setup, es[..|es| - 1]);
      HandleBooks(setup, Run(setup, es[..|es| - 1]), es[|es| - 1]);
    }
  }

  /** The n-th opening since the last close lasts exactly the cooldown of step min(n, last). */
  lemma OpeningLength(setup: Setup, es: seq<Event>, now: int)
    requires setup.steps != [] && Opened(setup, Run(setup, es), Failed(now))
    ensures var b := Run(setup, es + [Failed(now)]);
            b.mode == Open
            && b.cooldownUntil == Some(now + CooldownOf(setup.steps, OpeningsSinceClose(setup, es) + 1))
  {
    OpenCountCountsOpenings(setup, es);
    RunSnoc(setup, FRESH, es, Failed(now));
    OpenedLength(setup, Run(setup, es), now);
  }

  lemma OpenedLength(setup: Setup, b: Breaker, now: int)
    requires Fits(setup, b) && Opened(setup, b, Failed(now))
    ensures var c := Handle(setup, b, Failed(now));
            c.mode == Open && c.cooldownUntil == Some(now + CooldownOf(setup.steps, b.openCount + 1))
  {
  }

  predicate NonDecreasing(steps: seq<int>) {
    forall i, j :: 0 <= i <= j < |steps| ==> steps[i] <= steps[j]
  }

  predicate NoCloseBetween(setup: Setup, es: seq<Event>, from: nat)
    requires setup.steps != [] && from <= |es|
  {
    forall k :: from <= k < |es| ==> !(es[k].Succeeded? && Run(setup, es[..k]).mode == HalfOpen)
  }

  lemma {:induction false} OpeningsGrow(setup: Setup, es: seq<Event>, from: nat)
    requires setup.steps != [] && from <= |es| && NoCloseBetween(setup, es, from)
    ensures OpeningsSinceClose(setup, es[..from]) <= OpeningsSinceClose(setup, es)
  {
    if from < |es| {
      var front := es[..|es| - 1];
      assert front[..from] == es[..from];
      forall k | from <= k < |front|
        ensures !(front[k].Succeeded? && Run(setup, front[..k]).mode == HalfOpen)
      {
        assert front[..k] == es[..k];
      }
      OpeningsGrow(setup, front, from);
    } else {
      assert es[..from] == es;
    }
  }

  /** Until the breaker closes again, each opening lasts at least as long as the ones before it. */
  lemma CooldownsEscalate(setup: Setup, es: seq<Event>, first: nat, second: nat)
    requires setup.steps != [] && NonDecreasing(setup.steps)
    requires first < second < |es| && es[first].Failed? && es[second].Failed?
    requires Opened(setup, Run(setup, es[..first]), es[first]) && Opened(setup, Run(setup, es[..second]), es[second])
    requires NoCloseBetween(setup, es[..second], first + 1)
    ensures var a, b := Run(setup, es[..first + 1]), Run(setup, es[..second + 1]);
            a.cooldownUntil.Some? && b.cooldownUntil.Some?
            && a.cooldownUntil.value - es[first].now <= b.cooldownUntil.value - es[second].now
  {
    assert es[..first + 1] == es[..first] + [es[first]] && es[..second + 1] == es[..second] + [es[second]];
    OpeningLength(setup, es[..first], es[first].now);
    OpeningLength(setup, es[..second], es[second].now);
    OpeningsGrow(setup, es[..second], first + 1);
    assert es[..second][..first + 1] == es[..first + 1];
    OpeningCounted(setup, es[..first], es[first].now);
    CooldownGrows(setup.steps, OpeningsSinceClose(setup, es[..first]) + 1, OpeningsSinceClose(setup, es[..second]) + 1);
  }

  lemma OpeningCounted(setup: Setup, es: seq<Event>, now: int)
    requires setup.steps != [] && Opened(setup, Run(setup, es), Failed(now))
    ensures OpeningsSinceClose(setup, es + [Failed(now)]) == OpeningsSinceClose(setup, es) + 1
  {
    assert (es + [Failed(now)])[..|es|] == es;
  }

  lemma CooldownGrows(steps: seq<int>, m: nat, n: nat)
    requires steps != [] && NonDecreasing(steps) && m <= n
    ensures CooldownOf(steps, m) <= CooldownOf(steps, n)
  {
  }

  /** The documented schedule: the n-th opening takes the n-th step, and the last one from then on. */
  function DocumentedCooldown(steps: seq<int>, n: nat): int
    requires steps != [] && n >= 1
  {
    steps[if n - 1 <= |steps| - 1 then n - 1 else |steps| - 1]
  }

  /** The code meets the documented schedule at an opening exactly when skipping one step makes no difference there. */
  lemma DocumentedCooldownExact(steps: seq<int>, n: nat)
    requires steps != [] && n >= 1
    ensures CooldownOf(steps, n) == DocumentedCooldown(steps, n)
            <==> n >= |steps| || steps[n - 1] == steps[n]
  {
  }

  /** So the first opening with the shipped steps lasts fifteen minutes, not five, and five is never used. */
  lemma FirstStepNeverUsed(n: nat)
    requires n >= 1
    ensures CooldownOf(DEFAULT_CONFIG.cooldowns, 1) == 900
    ensures CooldownOf(DEFAULT_CONFIG.cooldowns, n) != DEFAULT_CONFIG.cooldowns[0]
  {
    assert DEFAULT_CONFIG.cooldowns[1] == 900 && DEFAULT_CONFIG.cooldowns[2] == 1800;
  }

  /** Asking does not spend the probe: a half-open breaker admits every request until a result is reported. */
  lemma {:induction false} ProbeIsNotConsumed(setup: Setup, b: Breaker, es: seq<Event>, now: int)
    requires Fits(setup, b) && b.mode == HalfOpen && b.probeAllowed
    requires forall i :: 0 <= i < |es| ==> es[i].Asked?
    ensures RunFrom(setup, b, es) == b && Ask(b, now).1
  {
    if es != [] {
      ProbeIsNotConsumed(setup, b, es[..|es| - 1], now);
    }
  }
}
