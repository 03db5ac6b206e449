/** The two clip marks as percentiles: how much of the cohort lies below them, without sorting it. */
module ClipMarks {
  import opened Normalize
  import opened Outsiders
  import opened ScoreOrder

  lemma {:induction false} AtMostLast(s: seq<real>, v: real)
    requires forall i :: 0 <= i < |s| ==> s[i] <= v
    ensures Below(s, v) + Equal(s, v) == |s|
  {
    if s != [] {
      AtMostLast(s[..|s| - 1], v);
    }
  }

  lemma {:induction false} UpTo(s: seq<real>, k: nat)
    requires Ascending(s) && k < |s|
    ensures Below(s, s[k]) + Equal(s, s[k]) >= k + 1
    decreases |s|
  {
    var front := s[..|s| - 1];
    if k < |front| {
      UpTo(front, k);
    } else {
      AtMostLast(s, s[k]);
    }
  }

  /** The member at index `k` of the sorted cohort has at most `k` members below it, and with its equals more. */
  lemma IndexByCounts(cohort: seq<real>, k: nat)
    requires k < |cohort|
    ensures var x := SortReals(cohort)[k];
            x in cohort && Below(cohort, x) <= k < Below(cohort, x) + Equal(cohort, x)
  {
    var s := SortReals(cohort);
    SortAscends(cohort);
    BelowByIndex(s, s[k], k);
    UpTo(s, k);
    BelowSorted(cohort, s[k]);
    EqualSorted(cohort, s[k]);
    SortedBounds(cohort, k);
  }

  /** `x` stands at `percent` of the cohort's index range. */
  predicate AtPercent(cohort: seq<real>, x: real, percent: nat) {
    x in cohort && 100 * Below(cohort, x) <= percent * (|cohort| - 1) < 100 * (Below(cohort, x) + Equal(cohort, x))
  }

  lemma MarkAtPercent(cohort: seq<real>, percent: nat, k: nat)
    requires k < |cohort| && 100 * k <= percent * (|cohort| - 1) < 100 * (k + 1)
    ensures AtPercent(cohort, SortReals(cohort)[k], percent)
  {
    IndexByCounts(cohort, k);
  }

  /** A value is kept between the members at 5% and 95% of the cohort, and clipped to them outside. */
  lemma ClipsAtPercents(cohort: seq<real>, v: real) returns (lo: real, hi: real)
    requires |cohort| >= 2
    ensures AtPercent(cohort, lo, 5) && AtPercent(cohort, hi, 95) && lo <= hi
    ensures Winsorize(v, cohort) == if v < lo then lo else if v > hi then hi else v
  {
    var s, n := SortReals(cohort), |cohort| - 1;
    lo, hi := s[5 * n / 100], s[95 * n / 100];
    SortAscends(cohort);
    MarkAtPercent(cohort, 5, 5 * n / 100);
    MarkAtPercent(cohort, 95, 95 * n / 100);
  }

  /** At a percentage there is one member only, so the two marks are determined by the counts. */
  lemma PercentUnique(cohort: seq<real>, x: real, y: real, percent: nat)
    requires AtPercent(cohort, x, percent) && AtPercent(cohort, y, percent)
    ensures x == y
  {
    if x < y {
      BelowGrows(cohort, x, y);
    } else if y < x {
      BelowGrows(cohort, y, x);
    }
  }
}
