/** What a raw value that is not a cohort member scores, and when two raw values are scored in order. */
module Outsiders {
  import opened Wrappers
  import opened Normalize

  // ---- Where an outsider lands ---------------------------------------------------

  lemma CountSnoc(cohort: seq<real>, x: real, v: real)
    ensures Below(cohort + [x], v) == Below(cohort, v) + if x < v then 1 else 0
    ensures Equal(cohort + [x], v) == Equal(cohort, v) + if x == v then 1 else 0
  {
    assert (cohort + [x])[..|cohort|] == cohort;
  }

  lemma {:induction false} BelowInsert(xs: seq<real>, x: real, v: real)
    ensures Below(InsertReal(xs, x), v) == Below(xs, v) + if x < v then 1 else 0
  {
    if xs != [] {
      var front, last := xs[..|xs| - 1], xs[|xs| - 1];
      if last <= x {
        CountSnoc(xs, x, v);
      } else {
        BelowInsert(front, x, v);
        CountSnoc(InsertReal(front, x), last, v);
      }
    }
  }

  lemma {:induction false} BelowSorted(xs: seq<real>, v: real)
    ensures Below(SortReals(xs), v) == Below(xs, v)
  {
    if xs != [] {
      var front, last := xs[..|xs| - 1], xs[|xs| - 1];
      BelowSorted(front, v);
      BelowInsert(SortReals(front), last, v);
    }
  }

  lemma {:induction false} AllBelow(xs: seq<real>, v: real)
    ensures Below(xs, v) <= |xs|
    ensures (forall i :: 0 <= i < |xs| ==> xs[i] < v) <==> Below(xs, v) == |xs|
    ensures (forall i :: 0 <= i < |xs| ==> xs[i] >= v) <==> Below(xs, v) == 0
  {
    if xs != [] {
      var front, last := xs[..|xs| - 1], xs[|xs| - 1];
      AllBelow(front, v);
      assert xs == front + [last];
      assert forall i :: 0 <= i < |front| ==> front[i] == xs[i];
    }
  }

  /** A sorted member lies below the outsider exactly when its index does. */
  lemma {:induction false} BelowByIndex(s: seq<real>, raw: real, k: nat)
    requires Ascending(s) && k < |s|
    ensures s[k] < raw <==> k < Below(s, raw)
  {
    var front, last := s[..|s| - 1], s[|s| - 1];
    if k < |front| {
      BelowByIndex(front, raw, k);
      AllBelow(front, raw);
      if last < raw {
        assert forall i :: 0 <= i < |front| ==> front[i] < raw;
      }
    } else {
      AllBelow(front, raw);
      if last < raw {
        assert forall i :: 0 <= i < |front| ==> front[i] < raw;
      }
    }
  }

  /** Entry `k` of the sorted members with the outsider put in its place. */
  lemma {:induction false} InsertedAt(s: seq<real>, raw: real, k: nat)
    requires Ascending(s) && raw !in s && k <= |s|
    ensures Below(s, raw) <= |s|
    ensures InsertReal(s, raw)[k]
            == if k < Below(s, raw) then s[k] else if k == Below(s, raw) then raw else s[k - 1]
  {
    AllBelow(s, raw);
    if s != [] {
      var front, last := s[..|s| - 1], s[|s| - 1];
      AllBelow(front, raw);
      if last <= raw {
        assert forall i :: 0 <= i < |front| ==> front[i] < raw;
      } else if k < |s| {
        InsertedAt(front, raw, k);
      }
    }
  }

  // ---- The clip and the score of an outsider ---------------------------------------

  function LowIndex(n: nat): nat {
    5 * n / 100
  }

  function HighIndex(n: nat): (h: nat)
    ensures LowIndex(n) <= h && (n > 0 ==> h < n)
  {
    95 * n / 100
  }

  /** What an outsider with `below` members under it is clipped to; `None` if it is kept. */
  function OutsiderClip(values: seq<real>, below: nat): Option<real>
    requires values != []
  {
    var s, n := SortReals(values), |values|;
    if below > HighIndex(n) then Some(s[HighIndex(n)])
    else if below < LowIndex(n) then Some(s[LowIndex(n) - 1])
    else None
  }

  /** The outsider parts the sorted members at index `b`. */
  ghost predicate Parts(s: seq<real>, raw: real, b: nat) {
    b <= |s| && forall k :: 0 <= k < |s| ==> s[k] != raw && (s[k] < raw <==> k < b)
  }

  lemma OutsiderParts(values: seq<real>, raw: real)
    requires raw !in values
    ensures Ascending(SortReals(values)) && Parts(SortReals(values), raw, Below(values, raw))
  {
    var s := SortReals(values);
    SortAscends(values);
    BelowSorted(values, raw);
    AllBelow(values, raw);
    forall k | 0 <= k < |s|
      ensures s[k] != raw && (s[k] < raw <==> k < Below(values, raw))
    {
      BelowByIndex(s, raw, k);
      SortedMembers(values, s[k]);
    }
  }

  /** Entry `k` of `s` with `raw` put in at `b`. */
  function Placed(s: seq<real>, raw: real, b: nat, k: nat): real
    requires b <= |s| && k <= |s|
  {
    if k < b then s[k] else if k == b then raw else s[k - 1]
  }

  lemma ClipChoice(s: seq<real>, raw: real, b: nat, lo: nat, hi: nat, capped: real, clipped: real)
    requires Parts(s, raw, b) && Ascending(s) && lo <= hi < |s|
    requires capped == if raw < Placed(s, raw, b, hi) then raw else Placed(s, raw, b, hi)
    requires clipped == if capped < Placed(s, raw, b, lo) then Placed(s, raw, b, lo) else capped
    ensures clipped == if b > hi then s[hi] else if b < lo then s[lo - 1] else raw
  {
  }

  lemma PlacedAt(values: seq<real>, raw: real, k: nat)
    requires raw !in values && k <= |values|
    ensures Below(values, raw) <= |values| && |SortReals(values + [raw])| == |values| + 1
    ensures SortReals(values + [raw])[k] == Placed(SortReals(values), raw, Below(values, raw), k)
  {
    assert (values + [raw])[..|values|] == values;
    SortAscends(values);
    BelowSorted(values, raw);
    SortedMembers(values, raw);
    InsertedAt(SortReals(values), raw, k);
  }

  /** The clip against a cohort of `n` others, as a choice between its two marks. */
  lemma ClipIsChoice(value: real, cohort: seq<real>, n: nat)
    requires |cohort| == n + 1 >= 2
    ensures var lo, hi := SortReals(cohort)[LowIndex(n)], SortReals(cohort)[HighIndex(n)];
            var capped := if value < hi then value else hi;
            Winsorize(value, cohort) == if capped < lo then lo else capped
  {
  }

  lemma ClipOfOutsider(values: seq<real>, raw: real)
    requires values != [] && raw !in values
    ensures Winsorize(raw, values + [raw])
            == match OutsiderClip(values, Below(values, raw)) case Some(v) => v case None => raw
  {
    var s, b, lo, hi := SortReals(values), Below(values, raw), LowIndex(|values|), HighIndex(|values|);
    OutsiderParts(values, raw);
    PlacedAt(values, raw, lo);
    PlacedAt(values, raw, hi);
    ClipIsChoice(raw, values + [raw], |values|);
    var capped := if raw < Placed(s, raw, b, hi) then raw else Placed(s, raw, b, hi);
    ClipChoice(s, raw, b, lo, hi, capped, Winsorize(raw, values + [raw]));
  }

  lemma SortedMembers(values: seq<real>, v: real)
    ensures v in SortReals(values) <==> v in values
  {
    assert v in multiset(SortReals(values)) <==> v in multiset(values);
  }

  /** Twice the midrank of an outsider with `below` members under it, in the cohort it joins. */
  function OutsiderMarks(values: seq<real>, below: nat): nat
    requires values != []
  {
    match OutsiderClip(values, below)
    case Some(v) => DoubleRank(values, v) + if below < LowIndex(|values|) then 2 else 0
    case None => 2 * below
  }

  /** What the outsider's presence adds to the rank of a value. */
  lemma RankBeside(values: seq<real>, raw: real, v: real)
    requires raw !in values
    ensures v < raw ==> DoubleRank(values + [raw], v) == DoubleRank(values, v)
    ensures v > raw ==> DoubleRank(values + [raw], v) == DoubleRank(values, v) + 2
    ensures v == raw ==> DoubleRank(values + [raw], v) == 2 * Below(values, raw)
  {
    CountSnoc(values, raw, v);
    Trichotomy(values, raw);
  }

  /** An outsider clipped from above is above its clip, and one clipped from below is below it. */
  lemma ClipSide(values: seq<real>, raw: real, v: real)
    requires values != [] && raw !in values && OutsiderClip(values, Below(values, raw)) == Some(v)
    ensures if Below(values, raw) < LowIndex(|values|) then v > raw else v < raw
  {
    OutsiderParts(values, raw);
  }

  lemma RankOfOutsider(values: seq<real>, raw: real)
    requires values != [] && raw !in values
    ensures DoubleRank(values + [raw], Winsorize(raw, values + [raw])) == OutsiderMarks(values, Below(values, raw))
  {
    ClipOfOutsider(values, raw);
    match OutsiderClip(values, Below(values, raw))
    case Some(v) =>
      ClipSide(values, raw, v);
      RankBeside(values, raw, v);
    case None =>
      RankBeside(values, raw, raw);
  }

  // ---- Scores as fractions over the values alone --------------------------------------

  /** The numerator of a raw value's score: no cohort but the given one is sorted or counted. */
  function Marks(values: seq<real>, raw: real): nat {
    if |values| == 0 || (|values| == 1 && raw in values) then 1
    else if raw in values then DoubleRank(values, Winsorize(raw, values))
    else OutsiderMarks(values, Below(values, raw))
  }

  /** Its denominator. */
  function Steps(values: seq<real>, raw: real): (steps: nat)
    ensures steps >= 1
  {
    if |values| == 0 || (|values| == 1 && raw in values) then 2
    else if raw in values then 2 * (|values| - 1)
    else 2 * |values|
  }

  lemma OutsiderScore(values: seq<real>, raw: real, negative: bool)
    requires values != [] && raw !in values
    ensures Score(values, raw, negative)
            == ApplyDirection(OutsiderMarks(values, Below(values, raw)) as real / (2 * |values|) as real, negative)
  {
    RankOfOutsider(values, raw);
  }

  lemma MemberScore(values: seq<real>, raw: real, negative: bool)
    requires raw in values
    ensures Score(values, raw, negative)
            == ApplyDirection(if |values| == 1 then 0.5
                              else DoubleRank(values, Winsorize(raw, values)) as real / (2 * (|values| - 1)) as real,
                              negative)
  {
  }

  /** The score of a raw value is its marks over its steps, or what they lack of one for a negative metric. */
  lemma ScoreIsMarks(values: seq<real>, raw: real, negative: bool)
    ensures Score(values, raw, negative)
            == ApplyDirection(Marks(values, raw) as real / Steps(values, raw) as real, negative)
  {
    if values != [] {
      if raw in values {
        MemberScore(values, raw, negative);
      } else {
        OutsiderScore(values, raw, negative);
      }
    }
  }

  /** `a / b` is at most `c / d`. */
  predicate FractionLe(a: int, b: int, c: int, d: int) {
    a * d <= c * b
  }

  lemma FractionOrder(a: nat, b: nat, c: nat, d: nat)
    requires b >= 1 && d >= 1
    ensures a as real / b as real <= c as real / d as real <==> FractionLe(a, b, c, d)
  {
    var p, q := a as real / b as real, c as real / d as real;
    assert p * b as real == a as real && q * d as real == c as real;
    assert (a * d) as real == a as real * d as real && (c * b) as real == c as real * b as real;
    ScaledOrder(p, q, b as real * d as real);
    assert p * (b as real * d as real) == a as real * d as real;
    assert q * (b as real * d as real) == c as real * b as real;
  }

  lemma ScaledOrder(p: real, q: real, scale: real)
    requires scale > 0.0
    ensures p <= q <==> p * scale <= q * scale
  {
    if p <= q {
      assert (q - p) * scale >= 0.0;
    } else {
      assert (p - q) * scale > 0.0;
    }
  }

  /** The first value scores no higher than the second. */
  predicate InOrder(values: seq<real>, u: real, v: real) {
    Score(values, u, false) <= Score(values, v, false)
  }

  /** Two raw values are scored in order exactly when these fractions, read off the given cohort, are. */
  lemma ScoreOrderExact(values: seq<real>, u: real, v: real)
    ensures InOrder(values, u, v)
            <==> FractionLe(Marks(values, u), Steps(values, u), Marks(values, v), Steps(values, v))
  {
    ScoreIsMarks(values, u, false);
    ScoreIsMarks(values, v, false);
    FractionOrder(Marks(values, u), Steps(values, u), Marks(values, v), Steps(values, v));
  }
}
