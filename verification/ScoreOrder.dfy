/** Where scores follow the raw values, how far an outlier falls out of order, and that every cohort misorders some. */
module ScoreOrder {
  import opened Normalize
  import opened Outsiders

  // ---- Outsiders beyond all members ------------------------------------------------------

  lemma SortedBounds(values: seq<real>, k: nat)
    requires k < |values|
    ensures SortReals(values)[k] in values
  {
    SortedMembers(values, SortReals(values)[k]);
  }

  lemma TopMemberClip(values: seq<real>, top: real)
    requires |values| >= 2 && top in values && forall i :: 0 <= i < |values| ==> values[i] <= top
    ensures Winsorize(top, values) == SortReals(values)[HighIndex(|values| - 1)]
  {
    SortAscends(values);
    SortedBounds(values, HighIndex(|values| - 1));
    assert LowIndex(|values| - 1) <= HighIndex(|values| - 1);
  }

  lemma BottomMemberClip(values: seq<real>, bottom: real)
    requires |values| >= 2 && bottom in values && forall i :: 0 <= i < |values| ==> bottom <= values[i]
    ensures Winsorize(bottom, values) == SortReals(values)[LowIndex(|values| - 1)]
  {
    var s, hi := SortReals(values), HighIndex(|values| - 1);
    SortAscends(values);
    SortedBounds(values, LowIndex(|values| - 1));
    SortedBounds(values, hi);
    assert s[LowIndex(|values| - 1)] <= s[hi];
  }

  lemma Doubled(a: int, b: int, m: int, n: int)
    ensures a * (2 * m) <= b * (2 * n) <==> a * m <= b * n
  {
    assert a * (2 * m) == 2 * (a * m) && b * (2 * n) == 2 * (b * n);
  }

  lemma OrderFromMarks(values: seq<real>, u: real, v: real, a: nat, b: nat, m: nat, n: nat)
    requires Marks(values, u) == a && Marks(values, v) == b && Steps(values, u) == 2 * m && Steps(values, v) == 2 * n
    ensures InOrder(values, u, v) <==> FractionLe(a, m, b, n)
  {
    ScoreOrderExact(values, u, v);
    Doubled(a, b, n, m);
  }

  lemma AboveAllMarks(values: seq<real>, top: real, raw: real)
    requires |values| >= 2 && top in values && (forall i :: 0 <= i < |values| ==> values[i] <= top) && top < raw
    ensures Marks(values, raw) == DoubleRank(values, SortReals(values)[HighIndex(|values|)])
    ensures Marks(values, top) == DoubleRank(values, SortReals(values)[HighIndex(|values| - 1)])
    ensures Steps(values, raw) == 2 * |values| && Steps(values, top) == 2 * (|values| - 1)
  {
    AllBelow(values, raw);
    TopMemberClip(values, top);
    assert raw !in values;
  }

  /** Every raw value above all members gets the same score: that of the member at 95%, in a cohort one longer. */
  lemma AboveAllScore(values: seq<real>, top: real, raw: real)
    requires |values| >= 2 && top in values && (forall i :: 0 <= i < |values| ==> values[i] <= top) && top < raw
    ensures var s, n := SortReals(values), |values|;
            Score(values, raw, false) == DoubleRank(values, s[HighIndex(n)]) as real / (2 * n) as real
  {
    AboveAllMarks(values, top, raw);
    ScoreIsMarks(values, raw, false);
  }

  /** `lo` and `hi` are neighbours in the sorted cohort, `hi` at index `k`, and differ. */
  ghost predicate StepAt(values: seq<real>, k: nat, lo: real, hi: real) {
    0 < k < |values| && lo == SortReals(values)[k - 1] && hi == SortReals(values)[k] && lo < hi
  }

  lemma StepBelow(values: seq<real>, k: nat, lo: real, hi: real)
    requires StepAt(values, k, lo, hi)
    ensures lo in values && hi in values && Below(values, hi) == k
  {
    var s := SortReals(values);
    SortAscends(values);
    BelowByIndex(s, hi, k - 1);
    BelowByIndex(s, hi, k);
    BelowSorted(values, hi);
    SortedBounds(values, k - 1);
    SortedBounds(values, k);
  }

  lemma RankUnder(values: seq<real>, u: real, v: real)
    requires u in values && u < v
    ensures DoubleRank(values, u) <= 2 * Below(values, v) - 2
  {
    BelowGrows(values, u, v);
    Trichotomy(values, u);
  }

  /** A sorted member above its neighbour has its index many below it, and the neighbour ranks a step lower or more. */
  lemma StepUp(values: seq<real>, k: nat, lo: real, hi: real)
    requires StepAt(values, k, lo, hi)
    ensures Below(values, hi) == k && DoubleRank(values, hi) >= 2 * k && DoubleRank(values, lo) <= 2 * k - 2
  {
    StepBelow(values, k, lo, hi);
    RankUnder(values, lo, hi);
  }

  lemma RankIsPositive(values: seq<real>, k: nat, v: real)
    requires 0 < k < |values| && v == SortReals(values)[k]
    ensures DoubleRank(values, v) >= 1
  {
    var s := SortReals(values);
    SortAscends(values);
    if s[0] < v {
      BelowByIndex(s, v, 0);
      BelowSorted(values, v);
    } else {
      TwiceEqual(s, k);
      EqualSorted(values, v);
    }
  }

  lemma {:induction false} TwiceEqual(s: seq<real>, k: nat)
    requires Ascending(s) && 0 < k < |s| && s[0] == s[k]
    ensures Equal(s, s[k]) >= 2
    decreases |s|
  {
    var front := s[..|s| - 1];
    if k < |front| {
      TwiceEqual(front, k);
    } else {
      Trichotomy(front, s[0]);
      assert front[0] in front;
    }
  }

  lemma EqualSorted(values: seq<real>, v: real)
    ensures Equal(SortReals(values), v) == Equal(values, v)
  {
    EqualCounts(values, v);
    EqualCounts(SortReals(values), v);
  }

  lemma {:induction false} EqualCounts(xs: seq<real>, v: real)
    ensures Equal(xs, v) == multiset(xs)[v]
  {
    if xs != [] {
      EqualCounts(xs[..|xs| - 1], v);
      assert xs == xs[..|xs| - 1] + [xs[|xs| - 1]];
    }
  }

  lemma NoLess(a: nat, n: nat)
    requires a >= 1 && n >= 1
    ensures !FractionLe(a, n - 1, a, n)
  {
    assert a * n == a * (n - 1) + a;
  }

  lemma Expand(k: nat, n: nat)
    ensures (2 * k - 2) * n == 2 * (k * n) - 2 * n && 2 * k * (n - 1) == 2 * (k * n) - 2 * k
  {
  }

  lemma StepLe(a: nat, b: nat, k: nat, n: nat)
    requires a <= 2 * k - 2 && b >= 2 * k && 1 <= k <= n
    ensures FractionLe(a, n - 1, b, n)
  {
    Grow(a, 2 * k - 2, n);
    Grow(2 * k, b, n - 1);
    Expand(k, n);
  }

  lemma Grow(a: int, b: int, n: nat)
    requires a <= b
    ensures a * n <= b * n
  {
  }

  lemma HighStep(n: nat)
    requires n >= 2
    ensures 1 <= HighIndex(n) < n && HighIndex(n) - 1 <= HighIndex(n - 1) <= HighIndex(n)
  {
  }

  lemma UpperDecides(a: nat, b: nat, h: nat, n: nat, moves: bool)
    requires 1 <= h < n && if moves then a <= 2 * h - 2 && b >= 2 * h else a == b >= 1
    ensures FractionLe(a, n - 1, b, n) <==> moves
  {
    if moves {
      StepLe(a, b, h, n);
    } else {
      NoLess(a, n);
    }
  }

  /** Neighbouring marks either step up to a larger member or stay at the same one. */
  lemma MarkSteps(values: seq<real>, f: nat, g: nat, lo: real, hi: real)
    requires f <= g <= f + 1 && g < |values| && lo == SortReals(values)[f] && hi == SortReals(values)[g]
    ensures if lo < hi then StepAt(values, g, lo, hi) else lo == hi
  {
    SortAscends(values);
  }

  lemma TopOrder(values: seq<real>, top: real, raw: real)
    requires |values| >= 2 && top in values && (forall i :: 0 <= i < |values| ==> values[i] <= top) && top < raw
    ensures var s, n := SortReals(values), |values|;
            InOrder(values, top, raw)
            <==> FractionLe(DoubleRank(values, s[HighIndex(n - 1)]), n - 1, DoubleRank(values, s[HighIndex(n)]), n)
  {
    var s, n := SortReals(values), |values|;
    AboveAllMarks(values, top, raw);
    OrderFromMarks(values, top, raw, DoubleRank(values, s[HighIndex(n - 1)]), DoubleRank(values, s[HighIndex(n)]),
        n - 1, n);
  }

  lemma TopFacts(values: seq<real>, top: real, raw: real) returns (a: nat, b: nat)
    requires |values| >= 2 && top in values && (forall i :: 0 <= i < |values| ==> values[i] <= top) && top < raw
    ensures InOrder(values, top, raw) <==> FractionLe(a, |values| - 1, b, |values|)
    ensures var s, h := SortReals(values), HighIndex(|values|);
            if s[HighIndex(|values| - 1)] < s[h] then a <= 2 * h - 2 && b >= 2 * h else a == b >= 1
  {
    var s, n := SortReals(values), |values|;
    a, b := DoubleRank(values, s[HighIndex(n - 1)]), DoubleRank(values, s[HighIndex(n)]);
    TopOrder(values, top, raw);
    HighStep(n);
    var lo, hi := s[HighIndex(n - 1)], s[HighIndex(n)];
    MarkSteps(values, HighIndex(n - 1), HighIndex(n), lo, hi);
    RankIsPositive(values, HighIndex(n), hi);
    if lo < hi {
      StepUp(values, HighIndex(n), lo, hi);
    }
  }

  /** It is no lower than the top member's exactly when the marks fall on different members with and without it. */
  lemma AboveAllExact(values: seq<real>, top: real, raw: real)
    requires |values| >= 2 && top in values && (forall i :: 0 <= i < |values| ==> values[i] <= top) && top < raw
    ensures var s, n := SortReals(values), |values|;
            InOrder(values, top, raw) <==> s[HighIndex(n - 1)] < s[HighIndex(n)]
  {
    var s, n := SortReals(values), |values|;
    var a, b := TopFacts(values, top, raw);
    HighStep(n);
    UpperDecides(a, b, HighIndex(n), n, s[HighIndex(n - 1)] < s[HighIndex(n)]);
  }

  /** The marks of a raw value below all members. */
  function RaisedMarks(values: seq<real>): nat {
    if |values| < 20 then 0 else DoubleRank(values, SortReals(values)[LowIndex(|values|) - 1]) + 2
  }

  lemma BelowAllMarks(values: seq<real>, bottom: real, raw: real)
    requires |values| >= 2 && bottom in values && (forall i :: 0 <= i < |values| ==>
        bottom <= values[i]) && raw < bottom
    ensures Marks(values, raw) == RaisedMarks(values)
    ensures Marks(values, bottom) == DoubleRank(values, SortReals(values)[LowIndex(|values| - 1)])
    ensures Steps(values, raw) == 2 * |values| && Steps(values, bottom) == 2 * (|values| - 1)
  {
    AllBelow(values, raw);
    BottomMemberClip(values, bottom);
    assert raw !in values;
  }

  /**
   * Every raw value below all members gets the same score: zero in a cohort of fewer than twenty, and otherwise that of
   * the member at 5% with the outsider itself counted below it.
   */
  lemma BelowAllScore(values: seq<real>, bottom: real, raw: real)
    requires |values| >= 2 && bottom in values && (forall i :: 0 <= i < |values| ==>
        bottom <= values[i]) && raw < bottom
    ensures Score(values, raw, false) == RaisedMarks(values) as real / (2 * |values|) as real
  {
    BelowAllMarks(values, bottom, raw);
    ScoreIsMarks(values, raw, false);
  }

  lemma StepsUp(a: nat, b: nat, l: nat, n: nat)
    requires a <= 2 * l && b >= 2 * l && n >= 1
    ensures FractionLe(a, n, b, n - 1)
  {
    Grow(a, 2 * l, n - 1);
    Grow(2 * l, b, n);
    Grow(0, l, 2);
    assert 2 * l * (n - 1) == 2 * l * n - 2 * l;
  }

  lemma RaisedAbove(d: nat, n: nat)
    requires n >= 1 && d < 2 * (n - 1)
    ensures !FractionLe(d + 2, n, d, n - 1)
  {
    assert (d + 2) * (n - 1) == d * n - d + 2 * (n - 1);
  }

  lemma LowRank(values: seq<real>, k: nat)
    requires k < |values|
    ensures DoubleRank(values, SortReals(values)[k]) <= |values| + k - 1
  {
    var s := SortReals(values);
    SortAscends(values);
    BelowByIndex(s, s[k], k);
    BelowSorted(values, s[k]);
    SortedBounds(values, k);
    Trichotomy(values, s[k]);
  }

  lemma LowStep(n: nat)
    requires n >= 2
    ensures LowIndex(n - 1) <= LowIndex(n) <= LowIndex(n - 1) + 1 && 2 * LowIndex(n) < n && LowIndex(n - 1) < n - 1
    ensures n < 20 <==> LowIndex(n) == 0
  {
  }

  lemma LowerDecides(a: nat, b: nat, g: nat, n: nat, moves: bool)
    requires n >= 1 && if moves then a <= 2 * g - 2 && b >= 2 * g else a == b < 2 * (n - 1)
    ensures FractionLe(a + 2, n, b, n - 1) <==> moves
  {
    if moves {
      StepsUp(a + 2, b, g, n);
    } else {
      RaisedAbove(a, n);
    }
  }

  lemma BottomMarks(values: seq<real>, bottom: real, raw: real) returns (a: nat, b: nat)
    requires |values| >= 20 && bottom in values && (forall i :: 0 <= i < |values| ==>
        bottom <= values[i]) && raw < bottom
    ensures Marks(values, raw) == a + 2 && Steps(values, raw) == 2 * |values|
    ensures Marks(values, bottom) == b && Steps(values, bottom) == 2 * (|values| - 1)
    ensures var s, g := SortReals(values), LowIndex(|values| - 1);
            if s[LowIndex(|values|) - 1] < s[g] then a <= 2 * g - 2 && b >= 2 * g else a == b < 2 * (|values| - 1)
  {
    var s, n := SortReals(values), |values|;
    a, b := DoubleRank(values, s[LowIndex(n) - 1]), DoubleRank(values, s[LowIndex(n - 1)]);
    BelowAllMarks(values, bottom, raw);
    LowStep(n);
    var lo, hi := s[LowIndex(n) - 1], s[LowIndex(n - 1)];
    MarkSteps(values, LowIndex(n) - 1, LowIndex(n - 1), lo, hi);
    LowRank(values, LowIndex(n) - 1);
    if lo < hi {
      StepUp(values, LowIndex(n - 1), lo, hi);
    }
  }

  lemma BottomOrder(values: seq<real>, bottom: real, raw: real, a: nat, b: nat, g: nat, moves: bool)
    requires |values| >= 20 && Marks(values, raw) == a + 2 && Steps(values, raw) == 2 * |values|
    requires Marks(values, bottom) == b && Steps(values, bottom) == 2 * (|values| - 1)
    requires if moves then a <= 2 * g - 2 && b >= 2 * g else a == b < 2 * (|values| - 1)
    ensures InOrder(values, raw, bottom) <==> moves
  {
    LowerDecides(a, b, g, |values|, moves);
    OrderFromMarks(values, raw, bottom, a + 2, b, |values|, |values| - 1);
  }

  lemma NoMarks(values: seq<real>, u: real, v: real)
    requires Marks(values, u) == 0
    ensures InOrder(values, u, v)
  {
    ScoreOrderExact(values, u, v);
    Grow(0, Marks(values, v), Steps(values, u));
  }

  /** It is no higher than the bottom member's exactly in a small cohort or when the marks fall on different members. */
  lemma BelowAllExact(values: seq<real>, bottom: real, raw: real)
    requires |values| >= 2 && bottom in values && (forall i :: 0 <= i < |values| ==>
        bottom <= values[i]) && raw < bottom
    ensures var s, n := SortReals(values), |values|;
            InOrder(values, raw, bottom) <==> n < 20 || s[LowIndex(n) - 1] < s[LowIndex(n - 1)]
  {
    var s, n := SortReals(values), |values|;
    if n < 20 {
      BelowAllMarks(values, bottom, raw);
      NoMarks(values, raw, bottom);
    } else {
      var a, b := BottomMarks(values, bottom, raw);
      BottomOrder(values, bottom, raw, a, b, LowIndex(n - 1), s[LowIndex(n) - 1] < s[LowIndex(n - 1)]);
    }
  }

  // ---- Twenty-five ones ----------------------------------------------------------------------

  function Ones(n: nat): (ones: seq<real>)
    ensures |ones| == n && forall i :: 0 <= i < n ==> ones[i] == 1.0
  {
    seq(n, _ => 1.0)
  }

  lemma {:induction false} OnesCounts(n: nat, v: real)
    ensures Below(Ones(n), v) == if 1.0 < v then n else 0
    ensures Equal(Ones(n), v) == if 1.0 == v then n else 0
  {
    if n > 0 {
      assert Ones(n)[..n - 1] == Ones(n - 1);
      OnesCounts(n - 1, v);
    }
  }

  lemma OnesSorted(n: nat, k: nat)
    requires k < n
    ensures SortReals(Ones(n))[k] == 1.0
  {
    SortedBounds(Ones(n), k);
  }

  lemma ScoreFromMarks(values: seq<real>, raw: real, marks: nat, steps: nat, score: real)
    requires Marks(values, raw) == marks && Steps(values, raw) == steps && steps >= 1
    requires marks as real == score * steps as real
    ensures Score(values, raw, false) == score
  {
    ScoreIsMarks(values, raw, false);
    Quotient(marks as real, steps as real, score);
  }

  lemma Quotient(a: real, b: real, q: real)
    requires b != 0.0 && a == q * b
    ensures a / b == q
  {
  }

  lemma OnesMarks(raw: real)
    ensures Marks(Ones(25), raw) == if raw < 1.0 then 26 else 24
    ensures Steps(Ones(25), raw) == if raw == 1.0 then 48 else 50
  {
    var ones := Ones(25);
    assert ones[0] == 1.0;
    OnesSorted(25, LowIndex(25) - 1);
    OnesSorted(25, HighIndex(25));
    OnesSorted(25, LowIndex(24));
    OnesCounts(25, 1.0);
    BottomMemberClip(ones, 1.0);
    if raw < 1.0 {
      BelowAllMarks(ones, 1.0, raw);
    } else if raw > 1.0 {
      AboveAllMarks(ones, 1.0, raw);
    }
  }

  lemma OnesScore(raw: real, score: real)
    requires score == if raw < 1.0 then 0.52 else if raw == 1.0 then 0.5 else 0.48
    ensures Score(Ones(25), raw, false) == score
  {
    OnesMarks(raw);
    ScoreFromMarks(Ones(25), raw, if raw < 1.0 then 26 else 24, if raw == 1.0 then 48 else 50, score);
  }

  /** Twenty-five ones: an outlier below scores 0.52, a member 0.5 and an outlier above 0.48. */
  lemma OutliersOfOnes()
    ensures Score(Ones(25), 0.0, false) == 0.52
    ensures Score(Ones(25), 1.0, false) == 0.5
    ensures Score(Ones(25), 2.0, false) == 0.48
  {
    OnesScore(0.0, 0.52);
    OnesScore(1.0, 0.5);
    OnesScore(2.0, 0.48);
  }

  // ---- Where scores follow the raw values, and that they never do everywhere -----------------

  ghost predicate AlwaysInOrder(values: seq<real>) {
    forall u, v :: u <= v ==> InOrder(values, u, v)
  }

  /** Just below a member no other value intervenes. */
  lemma {:induction false} JustBelow(values: seq<real>, m: real) returns (u: real)
    ensures u < m && u !in values && Below(values, u) == Below(values, m)
    ensures forall i :: 0 <= i < |values| ==> values[i] < u || values[i] >= m
  {
    if values == [] {
      u := m - 1.0;
    } else {
      var front, last := values[..|values| - 1], values[|values| - 1];
      var w := JustBelow(front, m);
      u := if last < m && w <= last then (last + m) / 2.0 else w;
      assert values == front + [last];
      forall i | 0 <= i < |values|
        ensures values[i] < u || values[i] >= m
      {
        assert i < |front| ==> values[i] == front[i];
      }
      SameBelow(values, u, m);
    }
  }

  lemma {:induction false} SameBelow(values: seq<real>, u: real, m: real)
    requires forall i :: 0 <= i < |values| ==> (values[i] < u <==> values[i] < m)
    ensures Below(values, u) == Below(values, m)
  {
    if values != [] {
      SameBelow(values[..|values| - 1], u, m);
    }
  }

  lemma StepOver(a: nat, k: nat, n: nat)
    requires a <= 2 * k - 2 && 1 <= k < n
    ensures !FractionLe(2 * k, n, a, n - 1)
  {
    Grow(a, 2 * k - 2, n);
    Expand(k, n);
  }

  /** The value just under the upper mark beats the largest member, when the marks fall on different members. */
  lemma BeatsTheTop(values: seq<real>, top: real) returns (u: real)
    requires |values| >= 2 && top in values && forall i :: 0 <= i < |values| ==> values[i] <= top
    requires SortReals(values)[HighIndex(|values| - 1)] < SortReals(values)[HighIndex(|values|)]
    ensures u < top && !InOrder(values, u, top)
  {
    var s, n, h := SortReals(values), |values|, HighIndex(|values|);
    HighStep(n);
    SortAscends(values);
    var lo, hi := s[HighIndex(n - 1)], s[h];
    assert HighIndex(n - 1) == h - 1;
    StepUp(values, h, lo, hi);
    u := JustBelow(values, hi);
    SortedBounds(values, h);
    TopMemberClip(values, top);
    StepOver(DoubleRank(values, lo), h, n);
    OrderFromMarks(values, u, top, 2 * h, DoubleRank(values, lo), n, n - 1);
  }

  lemma {:induction false} Largest(values: seq<real>) returns (top: real)
    requires values != []
    ensures top in values && forall i :: 0 <= i < |values| ==> values[i] <= top
  {
    top := values[|values| - 1];
    if |values| > 1 {
      var m := Largest(values[..|values| - 1]);
      top := if m < top then top else m;
    }
  }

  lemma LoneMember(m: real)
    ensures !InOrder([m], m, m + 1.0)
  {
    Trichotomy([m], m);
    AllBelow([m], m);
    AllBelow([m], m + 1.0);
    SortedBounds([m], 0);
    ScoreOrderExact([m], m, m + 1.0);
  }

  lemma LargeMisorders(values: seq<real>, top: real) returns (u: real, v: real)
    requires |values| >= 2 && top in values && forall i :: 0 <= i < |values| ==> values[i] <= top
    ensures u < v && !InOrder(values, u, v) && (u == top || v == top)
  {
    if SortReals(values)[HighIndex(|values| - 1)] < SortReals(values)[HighIndex(|values|)] {
      u := BeatsTheTop(values, top);
      v := top;
    } else {
      u, v := top, top + 1.0;
      AboveAllExact(values, u, v);
    }
  }

  /** Every cohort scores some value against its largest member in the wrong order. */
  lemma EveryCohortMisorders(values: seq<real>) returns (u: real, v: real, top: real)
    requires values != []
    ensures u < v && !InOrder(values, u, v) && (u == top || v == top)
    ensures top in values && forall i :: 0 <= i < |values| ==> values[i] <= top
  {
    top := Largest(values);
    if |values| == 1 {
      u, v := top, top + 1.0;
      LoneMember(top);
      assert values == [top];
    } else {
      u, v := LargeMisorders(values, top);
    }
  }

  /** All raw values are scored in order exactly against the empty cohort. */
  lemma AlwaysInOrderExact(values: seq<real>)
    ensures AlwaysInOrder(values) <==> values == []
  {
    if values != [] {
      var u, v, top := EveryCohortMisorders(values);
    }
  }

  /** The normaliser leaves the value as it is. */
  predicate Kept(values: seq<real>, raw: real) {
    Winsorize(raw, Cohort(values, raw)) == raw
  }

  lemma KeptOutsider(values: seq<real>, raw: real)
    requires values != [] && raw !in values && Kept(values, raw)
    ensures Marks(values, raw) == 2 * Below(values, raw) && Steps(values, raw) == 2 * |values|
    ensures |values| == 1 ==> Below(values, raw) == 0
  {
    ClipOfOutsider(values, raw);
    if OutsiderClip(values, Below(values, raw)).Some? {
      ClipSide(values, raw, OutsiderClip(values, Below(values, raw)).value);
    }
  }

  lemma MemberBelow(below: nat, equal: nat, b: nat, n: nat)
    requires equal >= 1 && below + equal <= b <= n && n >= 2
    ensures FractionLe(2 * below + equal - 1, n - 1, 2 * b, n)
  {
    Grow(2 * (below + equal), 2 * b, n - 1);
    Grow(2, equal + 1, n);
    assert (2 * below + equal - 1) * n == 2 * (below + equal) * n - (equal + 1) * n;
    assert 2 * (below + equal) * (n - 1) == 2 * (below + equal) * n - 2 * (below + equal);
  }

  lemma MemberAbove(b: nat, below: nat, equal: nat, n: nat)
    requires equal >= 1 && b <= below && n >= 2
    ensures FractionLe(2 * b, n, 2 * below + equal - 1, n - 1)
  {
    StepsUp(2 * b, 2 * below + equal - 1, b, n);
  }

  lemma KeptMemberFirst(values: seq<real>, u: real, v: real)
    requires |values| >= 2 && u < v && Kept(values, u) && Kept(values, v) && u in values && v !in values
    ensures InOrder(values, u, v)
  {
    var n := |values|;
    Trichotomy(values, u);
    Trichotomy(values, v);
    BelowGrows(values, u, v);
    KeptOutsider(values, v);
    MemberBelow(Below(values, u), Equal(values, u), Below(values, v), n);
    OrderFromMarks(values, u, v, DoubleRank(values, u), 2 * Below(values, v), n - 1, n);
  }

  lemma KeptMemberLast(values: seq<real>, u: real, v: real)
    requires |values| >= 2 && u < v && Kept(values, u) && Kept(values, v) && u !in values && v in values
    ensures InOrder(values, u, v)
  {
    var n := |values|;
    Trichotomy(values, v);
    BelowGrows(values, u, v);
    KeptOutsider(values, u);
    MemberAbove(Below(values, u), Below(values, v), Equal(values, v), n);
    OrderFromMarks(values, u, v, 2 * Below(values, u), DoubleRank(values, v), n, n - 1);
  }

  lemma KeptBesideOne(values: seq<real>, u: real, v: real)
    requires |values| == 1 && u < v && Kept(values, u) && Kept(values, v) && (u in values) != (v in values)
    ensures InOrder(values, u, v)
  {
    assert values[0] in values;
    Trichotomy(values, v);
    BelowGrows(values, u, v);
    if u in values {
      Trichotomy(values, u);
      KeptOutsider(values, v);
    } else {
      KeptOutsider(values, u);
      ScoreOrderExact(values, u, v);
    }
  }

  /** Two values the normaliser leaves alone are scored in order: a misordered pair has a clipped one. */
  lemma KeptInOrder(values: seq<real>, u: real, v: real)
    requires u <= v && Kept(values, u) && Kept(values, v)
    ensures InOrder(values, u, v)
  {
    if u < v && values != [] {
      if u in values && v in values {
        MembersMonotone(values, u, v);
      } else if u !in values && v !in values {
        KeptOutsider(values, u);
        KeptOutsider(values, v);
        BelowGrows(values, u, v);
        OrderFromMarks(values, u, v, 2 * Below(values, u), 2 * Below(values, v), |values|, |values|);
        Grow(2 * Below(values, u), 2 * Below(values, v), |values|);
      } else if |values| == 1 {
        KeptBesideOne(values, u, v);
      } else if u in values {
        KeptMemberFirst(values, u, v);
      } else {
        KeptMemberLast(values, u, v);
      }
    }
  }
}
