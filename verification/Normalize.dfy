/** Signal normalisation: winsorising, percentile rank and direction, over exact reals. */
module Normalize {
  import opened Wrappers

  // ---- Sorting a cohort --------------------------------------------------------

  predicate Ascending(xs: seq<real>) {
    forall i, j :: 0 <= i <= j < |xs| ==> xs[i] <= xs[j]
  }

  function InsertReal(xs: seq<real>, x: real): (r: seq<real>)
    ensures multiset(r) == multiset(xs) + multiset{x} && |r| == |xs| + 1
  {
    if xs == [] then [x]
    else
      var front, last := xs[..|xs| - 1], xs[|xs| - 1];
      assert xs == front + [last];
      if last <= x then xs + [x] else InsertReal(front, x) + [last]
  }

  lemma AscendingSnoc(xs: seq<real>, x: real)
    requires Ascending(xs) && forall i :: 0 <= i < |xs| ==> xs[i] <= x
    ensures Ascending(xs + [x])
  {
  }

  lemma InsertBounded(xs: seq<real>, x: real, bound: real)
    requires x <= bound && forall i :: 0 <= i < |xs| ==> xs[i] <= bound
    ensures forall i :: 0 <= i < |InsertReal(xs, x)| ==> InsertReal(xs, x)[i] <= bound
  {
    var r := InsertReal(xs, x);
    forall i | 0 <= i < |r|
      ensures r[i] <= bound
    {
      assert r[i] in multiset(xs) + multiset{x};
    }
  }

  lemma {:induction false} InsertAscends(xs: seq<real>, x: real)
    requires Ascending(xs)
    ensures Ascending(InsertReal(xs, x))
  {
    if xs != [] {
      var front, last := xs[..|xs| - 1], xs[|xs| - 1];
      if last <= x {
        AscendingSnoc(xs, x);
      } else {
        InsertAscends(front, x);
        InsertBounded(front, x, last);
        AscendingSnoc(InsertReal(front, x), last);
      }
    }
  }

  function SortReals(xs: seq<real>): (r: seq<real>)
    ensures multiset(r) == multiset(xs) && |r| == |xs|
  {
    if xs == [] then []
    else
      assert xs == xs[..|xs| - 1] + [xs[|xs| - 1]];
      InsertReal(SortReals(xs[..|xs| - 1]), xs[|xs| - 1])
  }

  lemma {:induction false} SortAscends(xs: seq<real>)
    ensures Ascending(SortReals(xs))
  {
    if xs != [] {
      SortAscends(xs[..|xs| - 1]);
      InsertAscends(SortReals(xs[..|xs| - 1]), xs[|xs| - 1]);
    }
  }

  // ---- The normaliser ------------------------------------------------------------

  /** Clip to the sorted values at 5% and 95% of the index range, rounded down. */
  function Winsorize(value: real, cohort: seq<real>): real {
    if |cohort| < 2 then value
    else
      var sorted := SortReals(cohort);
      var lo, hi := sorted[5 * (|cohort| - 1) / 100], sorted[95 * (|cohort| - 1) / 100];
      var capped := if value < hi then value else hi;
      if capped < lo then lo else capped
  }

  function Below(cohort: seq<real>, v: real): nat {
    if cohort == [] then 0
    else Below(cohort[..|cohort| - 1], v) + if cohort[|cohort| - 1] < v then 1 else 0
  }

  function Equal(cohort: seq<real>, v: real): nat {
    if cohort == [] then 0
    else Equal(cohort[..|cohort| - 1], v) + if cohort[|cohort| - 1] == v then 1 else 0
  }

  function Above(cohort: seq<real>, v: real): nat {
    if cohort == [] then 0
    else Above(cohort[..|cohort| - 1], v) + if cohort[|cohort| - 1] > v then 1 else 0
  }

  /** Twice the midrank: `2 * below + max(equal - 1, 0)`. */
  function DoubleRank(cohort: seq<real>, v: real): nat {
    2 * Below(cohort, v) + if Equal(cohort, v) >= 1 then Equal(cohort, v) - 1 else 0
  }

  /** `percentile_rank`; `None` where the source raises for an empty cohort. */
  function PercentileRank(cohort: seq<real>, v: real): Option<real> {
    if cohort == [] then None
    else if |cohort| == 1 then Some(0.5)
    else Some(DoubleRank(cohort, v) as real / (2 * (|cohort| - 1)) as real)
  }

  function ApplyDirection(score: real, negative: bool): real {
    if negative then 1.0 - score else score
  }

  function Cohort(values: seq<real>, raw: real): (cohort: seq<real>)
    ensures raw in cohort
  {
    if raw in values then values else values + [raw]
  }

  /** The numeric part of `normalize_signal_raw`. */
  function Score(values: seq<real>, raw: real, negative: bool): real {
    var cohort := Cohort(values, raw);
    assert cohort != [];
    ApplyDirection(PercentileRank(cohort, Winsorize(raw, cohort)).value, negative)
  }

  // ---- Counting ------------------------------------------------------------------------

  lemma {:induction false} Trichotomy(cohort: seq<real>, v: real)
    ensures Below(cohort, v) + Equal(cohort, v) + Above(cohort, v) == |cohort|
    ensures Equal(cohort, v) >= 1 <==> v in cohort
  {
    if cohort != [] {
      Trichotomy(cohort[..|cohort| - 1], v);
      assert cohort == cohort[..|cohort| - 1] + [cohort[|cohort| - 1]];
    }
  }

  lemma {:induction false} BelowGrows(cohort: seq<real>, u: real, v: real)
    requires u < v
    ensures Below(cohort, u) + Equal(cohort, u) <= Below(cohort, v)
  {
    if cohort != [] {
      BelowGrows(cohort[..|cohort| - 1], u, v);
    }
  }

  lemma RatioInUnit(a: nat, b: nat)
    requires b > 0
    ensures 0.0 <= a as real / b as real
    ensures a as real / b as real <= 1.0 <==> a <= b
  {
    var q := a as real / b as real;
    assert q * b as real == a as real;
  }

  /** In a cohort of two or more, a rank lies in [0, 1] exactly when not every member is below the value. */
  lemma RankInUnitExact(cohort: seq<real>, v: real)
    requires |cohort| >= 2
    ensures 0.0 <= PercentileRank(cohort, v).value <= 1.0 <==> Below(cohort, v) < |cohort|
  {
    Trichotomy(cohort, v);
    RatioInUnit(DoubleRank(cohort, v), 2 * (|cohort| - 1));
  }

  lemma MemberRankInUnit(cohort: seq<real>, v: real)
    requires v in cohort
    ensures 0.0 <= PercentileRank(cohort, v).value <= 1.0
  {
    Trichotomy(cohort, v);
    if |cohort| >= 2 {
      RankInUnitExact(cohort, v);
    }
  }

  // ---- Guard 11 ----------------------------------------------------------------------------

  /** Clipping a member gives a member. */
  lemma ClipIsMember(value: real, cohort: seq<real>)
    requires value in cohort
    ensures Winsorize(value, cohort) in cohort
  {
    if |cohort| >= 2 {
      var sorted := SortReals(cohort);
      var lo, hi := 5 * (|cohort| - 1) / 100, 95 * (|cohort| - 1) / 100;
      assert sorted[lo] in multiset(sorted) && sorted[hi] in multiset(sorted);
      assert sorted[lo] in multiset(cohort) && sorted[hi] in multiset(cohort);
    }
  }

  /** Whatever the cohort and the raw value, the score is in [0, 1]: the range check of guard 11 never fires. */
  lemma ScoreInUnit(values: seq<real>, raw: real, negative: bool)
    ensures 0.0 <= Score(values, raw, negative) <= 1.0
  {
    var cohort := Cohort(values, raw);
    ClipIsMember(raw, cohort);
    MemberRankInUnit(cohort, Winsorize(raw, cohort));
  }

  // ---- Reflection and sum ------------------------------------------------------------------

  function Negated(cohort: seq<real>): (r: seq<real>)
    ensures |r| == |cohort|
  {
    seq(|cohort|, i requires 0 <= i < |cohort| => -cohort[i])
  }

  lemma {:induction false} NegatedCounts(cohort: seq<real>, v: real)
    ensures Below(Negated(cohort), -v) == Above(cohort, v)
    ensures Equal(Negated(cohort), -v) == Equal(cohort, v)
  {
    if cohort != [] {
      var front := cohort[..|cohort| - 1];
      NegatedCounts(front, v);
      assert Negated(cohort)[..|cohort| - 1] == Negated(front);
    }
  }

  lemma HalvesAddUp(a: nat, b: nat, n: nat)
    requires n > 0 && a + b == n
    ensures a as real / n as real + b as real / n as real == 1.0
  {
    var p, q := a as real / n as real, b as real / n as real;
    assert p * n as real == a as real && q * n as real == b as real;
    assert (p + q - 1.0) * n as real == 0.0;
  }

  /** Inverting a member's score is ranking its negative in the negated cohort. */
  lemma DirectionIsReflection(cohort: seq<real>, v: real)
    requires v in cohort
    ensures PercentileRank(Negated(cohort), -v).Some? && PercentileRank(cohort, v).Some?
    ensures ApplyDirection(PercentileRank(cohort, v).value, true) == PercentileRank(Negated(cohort), -v).value
  {
    Trichotomy(cohort, v);
    NegatedCounts(cohort, v);
    if |cohort| >= 2 {
      HalvesAddUp(DoubleRank(cohort, v), DoubleRank(Negated(cohort), -v), 2 * (|cohort| - 1));
    }
  }

  /** Over the members of `xs`: twice the members of `ys` below each, plus those equal to it. */
  function Wins(xs: seq<real>, ys: seq<real>): nat {
    if xs == [] then 0
    else Wins(xs[..|xs| - 1], ys) + 2 * Below(ys, xs[|xs| - 1]) + Equal(ys, xs[|xs| - 1])
  }

  lemma {:induction false} WinsAgainstOneMore(xs: seq<real>, ys: seq<real>, y: real)
    ensures Wins(xs, ys + [y]) == Wins(xs, ys) + 2 * Above(xs, y) + Equal(xs, y)
  {
    assert (ys + [y])[..|ys|] == ys;
    if xs != [] {
      WinsAgainstOneMore(xs[..|xs| - 1], ys, y);
    }
  }

  /** Every pair across two cohorts is a win for one side or a tie: two points to share. */
  lemma {:induction false} WinsAreShared(xs: seq<real>, ys: seq<real>)
    ensures Wins(xs, ys) + Wins(ys, xs) == 2 * |xs| * |ys|
  {
    if xs == [] {
      WinsAgainstNone(ys);
    } else {
      var front, x := xs[..|xs| - 1], xs[|xs| - 1];
      WinsAreShared(front, ys);
      assert xs == front + [x];
      WinsAgainstOneMore(ys, front, x);
      Trichotomy(ys, x);
      OneMoreRow(|front|, |ys|);
    }
  }

  lemma OneMoreRow(m: nat, n: nat)
    ensures 2 * (m + 1) * n == 2 * m * n + 2 * n
  {
  }

  lemma SelfWins(cohort: seq<real>)
    ensures Wins(cohort, cohort) == |cohort| * |cohort|
  {
    WinsAreShared(cohort, cohort);
    assert 2 * |cohort| * |cohort| == 2 * (|cohort| * |cohort|);
  }

  lemma {:induction false} WinsAgainstNone(ys: seq<real>)
    ensures Wins(ys, []) == 0
  {
    if ys != [] {
      WinsAgainstNone(ys[..|ys| - 1]);
    }
  }

  function RankSum(members: seq<real>, cohort: seq<real>): real
    requires cohort != []
  {
    if members == [] then 0.0
    else RankSum(members[..|members| - 1], cohort) + PercentileRank(cohort, members[|members| - 1]).value
  }

  lemma AddRatio(a: nat, b: nat, n: nat)
    requires n > 0
    ensures a as real / n as real + b as real / n as real == (a + b) as real / n as real
  {
  }

  lemma {:induction false} RankSumIsWins(members: seq<real>, cohort: seq<real>)
    requires |cohort| >= 2 && forall i :: 0 <= i < |members| ==> members[i] in cohort
    ensures Wins(members, cohort) >= |members|
    ensures RankSum(members, cohort) == (Wins(members, cohort) - |members|) as real / (2 * (|cohort| - 1)) as real
  {
    if members != [] {
      var front, v := members[..|members| - 1], members[|members| - 1];
      RankSumIsWins(front, cohort);
      Trichotomy(cohort, v);
      AddRatio(Wins(front, cohort) - |front|, DoubleRank(cohort, v), 2 * (|cohort| - 1));
    }
  }

  lemma HalfOf(n: nat)
    requires n >= 2
    ensures (n * n - n) as real / (2 * (n - 1)) as real == n as real / 2.0
  {
    assert n * n - n == n * (n - 1);
    assert (n * (n - 1)) as real == n as real * (n - 1) as real;
    assert (2 * (n - 1)) as real == 2.0 * (n - 1) as real;
  }

  /** The ranks of a whole cohort sum to half its size. */
  lemma RanksSumToHalf(cohort: seq<real>)
    requires cohort != []
    ensures RankSum(cohort, cohort) == |cohort| as real / 2.0
  {
    if |cohort| == 1 {
      assert RankSum(cohort[..0], cohort) == 0.0;
    } else {
      RankSumIsWins(cohort, cohort);
      SelfWins(cohort);
      HalfOf(|cohort|);
    }
  }

  // ---- Monotonicity -----------------------------------------------------------------------

  lemma RatioMonotone(a: nat, b: nat, n: nat)
    requires a <= b && n > 0
    ensures a as real / n as real <= b as real / n as real
  {
  }

  lemma RankMonotone(cohort: seq<real>, u: real, v: real)
    requires cohort != [] && u <= v
    ensures PercentileRank(cohort, u).value <= PercentileRank(cohort, v).value
  {
    if u < v && |cohort| >= 2 {
      BelowGrows(cohort, u, v);
      RatioMonotone(DoubleRank(cohort, u), DoubleRank(cohort, v), 2 * (|cohort| - 1));
    }
  }

  lemma WinsorizeMonotone(cohort: seq<real>, u: real, v: real)
    requires u <= v
    ensures Winsorize(u, cohort) <= Winsorize(v, cohort)
  {
  }

  /** Against one fixed cohort, members or not, a larger value never gets a smaller rank after clipping. */
  lemma FixedCohortMonotone(cohort: seq<real>, u: real, v: real)
    requires cohort != [] && u <= v
    ensures PercentileRank(cohort, Winsorize(u, cohort)).value <= PercentileRank(cohort, Winsorize(v, cohort)).value
  {
    WinsorizeMonotone(cohort, u, v);
    RankMonotone(cohort, Winsorize(u, cohort), Winsorize(v, cohort));
  }

  /**
   * Over the members of a cohort the score never falls as the raw value rises, and never rises for negative metrics.
   */
  lemma MembersMonotone(values: seq<real>, u: real, v: real)
    requires u in values && v in values && u <= v
    ensures Score(values, u, false) <= Score(values, v, false)
    ensures Score(values, u, true) >= Score(values, v, true)
  {
    FixedCohortMonotone(values, u, v);
  }
}
