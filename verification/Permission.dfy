/** When a breaker lets requests pass, over its whole history, and what it reports of its changes. */
module Permission {
  import opened Wrappers
  import opened Circuit
  import opened CircuitTheorems
  import opened Wedging

  lemma ClosedStep(setup: Setup, b: Breaker, e: Event)
    requires Fits(setup, b)
    ensures Handle(setup, b, e).mode == Closed
            <==> !Opened(setup, b, e) && (b.mode == Closed || (e.Succeeded? && b.mode == HalfOpen))
  {
  }

  /** A breaker is closed exactly when it has not opened since it last closed, whatever its window holds. */
  lemma {:induction false} ClosedExact(setup: Setup, es: seq<Event>)
    requires setup.steps != []
    ensures Run(setup, es).mode == Closed <==> OpeningsSinceClose(setup, es) == 0
  {
    if es != [] {
      ClosedExact(setup, es[..|es| - 1]);
      ClosedStep(setup, Run(setup, es[..|es| - 1]), es[|es| - 1]);
    }
  }

  /** Until it opens, a breaker lets every request pass. */
  lemma UnopenedAdmits(setup: Setup, es: seq<Event>, now: int)
    requires setup.steps != [] && OpeningsSinceClose(setup, es) == 0
    ensures Ask(Run(setup, es), now).1
  {
    ClosedExact(setup, es);
  }

  /** The cooldown of the breaker has not ended. */
  predicate Cooling(b: Breaker, now: int) {
    b.mode == Open && b.cooldownUntil.Some? && now < b.cooldownUntil.value
  }

  /** In any run a request is refused exactly by a breaker whose cooldown has not ended, or by a wedged one. */
  lemma RefusedExact(setup: Setup, es: seq<Event>, now: int)
    requires setup.steps != []
    ensures !Ask(Run(setup, es), now).1 <==> Cooling(Run(setup, es), now) || Wedged(Run(setup, es))
  {
    RunSetsCooldown(setup, es);
  }

  /** Once it lets a request pass, it lets every later one pass until a failure is reported. */
  lemma {:induction false} AdmitsUntilFailure(setup: Setup, b: Breaker, es: seq<Event>, first: int, now: int)
    requires Fits(setup, b) && Ask(b, first).1
    requires forall i :: 0 <= i < |es| ==> !es[i].Failed?
    requires now >= first
    ensures Ask(RunFrom(setup, b, es), now).1
  {
    if es != [] {
      AdmitsUntilFailure(setup, b, es[..|es| - 1], first, now);
      AdmittedStays(setup, RunFrom(setup, b, es[..|es| - 1]), es[|es| - 1], now);
    }
  }

  lemma AdmittedStays(setup: Setup, b: Breaker, e: Event, now: int)
    requires Fits(setup, b) && !e.Failed? && Ask(b, now).1
    ensures Ask(Handle(setup, b, e), now).1
  {
  }

  /** A success reported while half-open closes the breaker, with nothing counted against it but its window. */
  lemma SuccessCloses(setup: Setup, es: seq<Event>, now: int)
    requires setup.steps != [] && Run(setup, es).mode == HalfOpen
    ensures var b := Run(setup, es + [Succeeded]);
            && Ask(b, now).1 && OpeningsSinceClose(setup, es + [Succeeded]) == 0
            && b.mode == Closed && b.failures == 0 && b.cooldownUntil == None
            && b.recent == Last(Reports(es) + [true], setup.config.window)
  {
    RunSnoc(setup, FRESH, es, Succeeded);
    WindowIsHistory(setup, es);
    PushIsLast(Reports(es), true, setup.config.window);
    assert (es + [Succeeded])[..|es|] == es;
  }

  // ---- Reported changes ------------------------------------------------------------------

  /** The change leads from one mode to another, and says when the cooldown ends if it opens. */
  predicate Describes(change: Transition, before: Breaker, after: Breaker) {
    change.previous == before.mode && change.next == after.mode
    && (after.mode == Open ==> change.cooldownUntil == after.cooldownUntil && after.cooldownUntil.Some?)
    && (after.mode != Open ==> change.cooldownUntil.None?)
  }

  /** A failure reports a change exactly when it opens the breaker, after the cooldown has been looked at. */
  lemma FailureReportExact(setup: Setup, b: Breaker, now: int)
    requires Fits(setup, b)
    ensures var (after, change) := Fail(setup, b, now);
            && (change.Some? <==> after.mode == Open && Refresh(b, now).0.mode != Open)
            && (change.Some? ==> Describes(change.value, Refresh(b, now).0, after))
  {
  }

  /** A success reports a change exactly when it closes the breaker. */
  lemma SuccessReportExact(setup: Setup, b: Breaker)
    requires Fits(setup, b)
    ensures var (after, change) := Succeed(setup, b);
            && (change.Some? <==> b.mode == HalfOpen)
            && (change.Some? ==> after.mode == Closed && Describes(change.value, b, after))
            && (change.None? ==> after.mode == b.mode)
  {
  }

  // ---- The route with steps of its own ------------------------------------------------------

  /** Whatever is configured, the youtube:ytdlp route stays shut a day, then two. */
  lemma YtdlpCooldown(config: Config, n: nat)
    requires n >= 1
    ensures CooldownOf(SetupFor("youtube:ytdlp", config).steps, n) == (if n == 1 then 1 else 2) * 24 * 3600
  {
    assert YTDLP_COOLDOWNS[1] == 86400 && YTDLP_COOLDOWNS[2] == 172800;
  }

  /** Every other route has the configured steps. */
  lemma OtherRoutesAsConfigured(route: string, config: Config)
    requires route != "youtube:ytdlp"
    ensures SetupFor(route, config) == Setup(config, config.cooldowns)
  {
  }
}
