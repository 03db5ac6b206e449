/** Retry delays: bounded exponential backoff with a jitter draw. */
module Backoff {
  import opened Wrappers
  import opened Lanes

  function LaneBase(lane: Lane): real {
    match lane
    case Browser => 5.0
    case Extract | Enrich | Index => 1.0
    case _ => 2.0
  }

  function LaneMax(lane: Lane): real {
    match lane
    case Browser => 45.0
    case Extract | Enrich | Index => 30.0
    case _ => 32.0
  }

  /** `base * 2**exponent`, with the exponent clamped at zero. */
  function Grown(lane: Lane, attempt: int): (grown: real)
    ensures grown >= LaneBase(lane)
    decreases attempt
  {
    if attempt <= 1 then LaneBase(lane) else 2.0 * Grown(lane, attempt - 1)
  }

  /** The smaller of two reals. */
  function Least(a: real, b: real): real {
    if a < b then a else b
  }

  /** The delay before jitter. */
  function RawDelay(lane: Lane, attempt: int): real {
    Least(LaneMax(lane), Grown(lane, attempt))
  }

  /** A draw of `uniform(0.75, 1.25)`. */
  predicate IsDraw(jitter: real) {
    0.75 <= jitter <= 1.25
  }

  /** `compute_backoff_seconds`; `retryAfter` is the header of an HTTP_429 failure. */
  function BackoffSeconds(lane: Lane, attempt: int, retryAfter: Option<real>, jitter: real): real {
    match retryAfter
    case Some(seconds) => if seconds > 0.0 then seconds else 0.0
    case None => RawDelay(lane, attempt) * jitter
  }

  lemma NonNegativeProduct(a: real, b: real)
    requires a >= 0.0 && b >= 0.0
    ensures a * b >= 0.0
  {
  }

  lemma MulMonotone(a: real, i: real, j: real)
    requires a >= 0.0 && i <= j
    ensures a * i <= a * j
  {
    NonNegativeProduct(a, j - i);
    assert a * (j - i) == a * j - a * i;
  }

  lemma Chain(x: real, y: real, z: real, u: real)
    requires x <= y && y < z && z <= u
    ensures x < u
  {
  }

  lemma ScaledOrder(a: real, b: real, i: real, j: real, lo: real, hi: real)
    requires a > 0.0 && b > 0.0 && lo <= i <= hi && lo <= j <= hi && a * hi < b * lo
    ensures a * i < b * j
  {
    MulMonotone(a, i, hi);
    MulMonotone(b, lo, j);
    Chain(a * i, a * hi, b * lo, b * j);
  }

  /** Under these two draws the first delay is shorter than the second. */
  predicate OrderedUnderDraws(a: real, b: real, i: real, j: real) {
    IsDraw(i) && IsDraw(j) ==> a * i < b * j
  }

  ghost predicate AlwaysOrdered(a: real, b: real) {
    forall i, j :: OrderedUnderDraws(a, b, i, j)
  }

  lemma GrowthExact(a: real, b: real, ceiling: real)
    requires 0.0 < a <= ceiling && b == Least(ceiling, 2.0 * a)
    ensures AlwaysOrdered(a, b) <==> 5.0 * a < 3.0 * ceiling
  {
    if 5.0 * a < 3.0 * ceiling {
      forall i, j
        ensures OrderedUnderDraws(a, b, i, j)
      {
        if IsDraw(i) && IsDraw(j) {
          ScaledOrder(a, b, i, j, 0.75, 1.25);
        }
      }
    } else {
      assert !OrderedUnderDraws(a, b, 1.25, 0.75);
    }
  }

  /** The delay of the next attempt, under draw `j`, exceeds this attempt's under draw `i`. */
  predicate Longer(lane: Lane, attempt: int, i: real, j: real) {
    IsDraw(i) && IsDraw(j) ==>
      BackoffSeconds(lane, attempt, None, i) < BackoffSeconds(lane, attempt + 1, None, j)
  }

  ghost predicate AlwaysLonger(lane: Lane, attempt: int) {
    forall i, j :: Longer(lane, attempt, i, j)
  }

  /** Whatever the two draws, the next delay is longer, exactly while the raw delay is under 3/5 of the ceiling. */
  lemma DelayGrowsExact(lane: Lane, attempt: int)
    requires attempt >= 1
    ensures AlwaysLonger(lane, attempt) <==> 5.0 * RawDelay(lane, attempt) < 3.0 * LaneMax(lane)
  {
    var a, b := RawDelay(lane, attempt), RawDelay(lane, attempt + 1);
    GrowthExact(a, b, LaneMax(lane));
    forall i, j
      ensures Longer(lane, attempt, i, j) <==> OrderedUnderDraws(a, b, i, j)
    {
    }
  }

  lemma {:induction false} GrownGrows(lane: Lane, m: nat, n: nat)
    requires 1 <= m < n
    ensures Grown(lane, m) < Grown(lane, n)
    decreases n
  {
    if m < n - 1 {
      GrownGrows(lane, m, n - 1);
    }
  }

  /** Delaying retry `k` as attempt `2 * k` changes the delay exactly while the `k`-th delay is below the ceiling. */
  lemma SkippedStepExact(lane: Lane, k: nat)
    requires k >= 1
    ensures RawDelay(lane, 2 * k) == RawDelay(lane, k) <==> Grown(lane, k) >= LaneMax(lane)
  {
    GrownGrows(lane, k, 2 * k);
  }
}
