/** Per-route circuit breakers: the state machine, the mutable breaker and the registry of breakers. */
module Circuit {
  import opened Wrappers

  datatype Mode = Closed | Open | HalfOpen

  /** Thresholds and cooldown steps of a breaker; `window` is the length of the result deque. */
  datatype Config = Config(threshold: int, rate: real, window: nat, cooldowns: seq<int>)

  const DEFAULT_CONFIG := Config(10, 0.5, 20, [300, 900, 1800])

  const YTDLP_ROUTE := "youtube:ytdlp"
  const YTDLP_COOLDOWNS := [43200, 86400, 172800]

  function CooldownSteps(route: string, config: Config): seq<int> {
    if route == YTDLP_ROUTE then YTDLP_COOLDOWNS else config.cooldowns
  }

  /** What a breaker is built with: its configuration and the cooldown steps of its route. */
  datatype Setup = Setup(config: Config, steps: seq<int>)

  function SetupFor(route: string, config: Config): Setup {
    Setup(config, CooldownSteps(route, config))
  }

  datatype Breaker = Breaker(mode: Mode, failures: int, recent: seq<bool>, openCount: nat,
                             cooldownUntil: Option<int>, probeAllowed: bool)

  const FRESH := Breaker(Closed, 0, [], 0, None, false)

  datatype Transition = Transition(previous: Mode, next: Mode, cooldownUntil: Option<int>)

  /** `deque(maxlen=window).append`. */
  function Push(recent: seq<bool>, ok: bool, window: nat): (r: seq<bool>)
    requires |recent| <= window
    ensures |r| <= window
  {
    if window == 0 then []
    else if |recent| == window then recent[1..] + [ok]
    else recent + [ok]
  }

  function FailureCount(results: seq<bool>): nat {
    if results == [] then 0
    else FailureCount(results[..|results| - 1]) + if results[|results| - 1] then 0 else 1
  }

  function FailureRate(results: seq<bool>): real {
    if results == [] then 0.0 else FailureCount(results) as real / |results| as real
  }

  predicate ShouldOpen(config: Config, b: Breaker) {
    b.failures >= config.threshold
    || (|b.recent| >= config.window && FailureRate(b.recent) > config.rate)
  }

  /** The cooldown of the n-th opening since the last close, counting from one. */
  function CooldownOf(steps: seq<int>, n: nat): int
    requires steps != []
  {
    steps[if n <= |steps| - 1 then n else |steps| - 1]
  }

  function MaybeOpen(setup: Setup, b: Breaker, now: int): (Breaker, Option<Transition>)
    requires setup.steps != []
  {
    if !ShouldOpen(setup.config, b) then (b, None)
    else
      var until := Some(now + CooldownOf(setup.steps, b.openCount + 1));
      (Breaker(Open, b.failures, b.recent, b.openCount + 1, until, false), Some(Transition(b.mode, Open, until)))
  }

  function Refresh(b: Breaker, now: int): (Breaker, Option<Transition>) {
    if b.mode != Open || b.cooldownUntil.None? || now < b.cooldownUntil.value then (b, None)
    else (b.(mode := HalfOpen, probeAllowed := true), Some(Transition(Open, HalfOpen, None)))
  }

  function Ask(b: Breaker, now: int): (Breaker, bool) {
    var after := Refresh(b, now).0;
    (after, after.mode == Closed || (after.mode == HalfOpen && after.probeAllowed))
  }

  function Fail(setup: Setup, b: Breaker, now: int): (Breaker, Option<Transition>)
    requires setup.steps != [] && |b.recent| <= setup.config.window
  {
    var c := Refresh(b, now).0;
    var recent := Push(c.recent, false, setup.config.window);
    match c.mode
    case Open => (c.(recent := recent), None)
    case HalfOpen =>
      MaybeOpen(setup, c.(probeAllowed := false, failures := c.failures + 1, recent := recent), now)
    case Closed =>
      MaybeOpen(setup, c.(failures := c.failures + 1, recent := recent), now)
  }

  function Succeed(setup: Setup, b: Breaker): (Breaker, Option<Transition>)
    requires |b.recent| <= setup.config.window
  {
    var recent := Push(b.recent, true, setup.config.window);
    if b.mode == HalfOpen then
      (Breaker(Closed, 0, recent, 0, None, false), Some(Transition(HalfOpen, Closed, None)))
    else
      (b.(failures := 0, recent := recent), None)
  }

  /** One route's breaker. */
  class RouteCircuit {
    const setup: Setup
    var mode: Mode
    var consecutiveFailures: int
    var recentResults: seq<bool>
    var openCount: nat
    var cooldownUntil: Option<int>
    var halfOpenProbeAllowed: bool

    ghost predicate Valid()
      reads this
    {
      setup.steps != [] && |recentResults| <= setup.config.window && (mode != Closed ==> cooldownUntil.Some?)
    }

    function View(): Breaker
      reads this
    {
      Breaker(mode, consecutiveFailures, recentResults, openCount, cooldownUntil, halfOpenProbeAllowed)
    }

    constructor (route: string, config: Config)
      requires config.cooldowns != []
      ensures Valid() && View() == FRESH && setup == SetupFor(route, config)
    {
      setup := SetupFor(route, config);
      mode := Closed;
      consecutiveFailures := 0;
      recentResults := [];
      openCount := 0;
      cooldownUntil := None;
      halfOpenProbeAllowed := false;
    }

    method MaybeOpenNow(now: int) returns (transition: Option<Transition>)
      requires Valid()
      modifies this
      ensures Valid() && (View(), transition) == MaybeOpen(setup, old(View()), now)
    {
      if !ShouldOpen(setup.config, View()) {
        return None;
      }
      var previous := mode;
      mode := Open;
      openCount := openCount + 1;
      cooldownUntil := Some(now + CooldownOf(setup.steps, openCount));
      halfOpenProbeAllowed := false;
      transition := Some(Transition(previous, Open, cooldownUntil));
    }

    method RefreshState(now: int) returns (transition: Option<Transition>)
      requires Valid()
      modifies this
      ensures Valid() && (View(), transition) == Refresh(old(View()), now)
    {
      if mode != Open || cooldownUntil.None? || now < cooldownUntil.value {
        return None;
      }
      mode := HalfOpen;
      halfOpenProbeAllowed := true;
      transition := Some(Transition(Open, HalfOpen, None));
    }

    method AllowRequest(now: int) returns (allowed: bool)
      requires Valid()
      modifies this
      ensures Valid() && (View(), allowed) == Ask(old(View()), now)
    {
      var _ := RefreshState(now);
      if mode == Closed {
        return true;
      }
      if mode == HalfOpen {
        return halfOpenProbeAllowed;
      }
      allowed := false;
    }

    method RecordFailure(now: int) returns (transition: Option<Transition>)
      requires Valid()
      modifies this
      ensures Valid() && (View(), transition) == Fail(setup, old(View()), now)
    {
      var _ := RefreshState(now);
      if mode == Open {
        recentResults := Push(recentResults, false, setup.config.window);
        return None;
      }
      if mode == HalfOpen {
        halfOpenProbeAllowed := false;
      }
      consecutiveFailures := consecutiveFailures + 1;
      recentResults := Push(recentResults, false, setup.config.window);
      transition := MaybeOpenNow(now);
    }

    method RecordSuccess() returns (transition: Option<Transition>)
      requires Valid()
      modifies this
      ensures Valid() && (View(), transition) == Succeed(setup, old(View()))
    {
      recentResults := Push(recentResults, true, setup.config.window);
      if mode == HalfOpen {
        mode := Closed;
        consecutiveFailures := 0;
        cooldownUntil := None;
        halfOpenProbeAllowed := false;
        openCount := 0;
        return Some(Transition(HalfOpen, Closed, None));
      }
      consecutiveFailures := 0;
      transition := None;
    }
  }

  /** The in-memory store of breakers, one per route key, created on first use. */
  class CircuitRegistry {
    const config: Config
    var circuits: map<string, RouteCircuit>

    ghost predicate Valid()
      reads this, circuits.Values
    {
      && config.cooldowns != []
      && (forall k :: k in circuits ==> circuits[k].Valid() && circuits[k].setup == SetupFor(k, config))
      && (forall k, l :: k in circuits && l in circuits && k != l ==> circuits[k] != circuits[l])
    }

    /** The state of a route's breaker; a route never used is a fresh one. */
    ghost function At(route: string): Breaker
      reads this, circuits.Values
    {
      if route in circuits then circuits[route].View() else FRESH
    }

    constructor (config: Config)
      requires config.cooldowns != []
      ensures Valid() && this.config == config && circuits == map[]
    {
      this.config := config;
      circuits := map[];
    }

    method Get(route: string) returns (circuit: RouteCircuit)
      requires Valid()
      modifies this
      ensures Valid() && route in circuits && circuit == circuits[route]
      ensures fresh(circuits.Values - old(circuits.Values))
      ensures forall r :: At(r) == old(At(r))
    {
      if route !in circuits {
        var created := new RouteCircuit(route, config);
        circuits := circuits[route := created];
      }
      circuit := circuits[route];
    }

    method AllowRequest(route: string, now: int) returns (allowed: bool)
      requires Valid()
      modifies this, circuits.Values
      ensures Valid() && fresh(circuits.Values - old(circuits.Values))
      ensures (At(route), allowed) == Ask(old(At(route)), now)
      ensures forall r :: r != route ==> At(r) == old(At(r))
    {
      var circuit := Get(route);
      allowed := circuit.AllowRequest(now);
    }

    method RecordFailure(route: string, now: int) returns (transition: Option<Transition>)
      requires Valid()
      modifies this, circuits.Values
      ensures Valid() && fresh(circuits.Values - old(circuits.Values))
      ensures |old(At(route)).recent| <= config.window
      ensures SetupFor(route, config).steps != []
      ensures (At(route), transition) == Fail(SetupFor(route, config), old(At(route)), now)
      ensures forall r :: r != route ==> At(r) == old(At(r))
    {
      var circuit := Get(route);
      transition := circuit.RecordFailure(now);
    }

    method RecordSuccess(route: string) returns (transition: Option<Transition>)
      requires Valid()
      modifies this, circuits.Values
      ensures Valid() && fresh(circuits.Values - old(circuits.Values))
      ensures |old(At(route)).recent| <= config.window
      ensures (At(route), transition) == Succeed(SetupFor(route, config), old(At(route)))
      ensures forall r :: r != route ==> At(r) == old(At(r))
    {
      var circuit := Get(route);
      transition := circuit.RecordSuccess();
    }
  }
}
