/** Coverage read off the signals themselves: which lists are accepted, what opens the gate, and what is chosen. */
module CoverageSignals {
  import opened Ordering
  import opened Wrappers
  import opened Coverage
  import opened CoverageTheorems

  // ---- Which lists are accepted ------------------------------------------------------

  predicate KnownKind(kind: Kind) {
    kind.Demand? || kind.Growth? || kind.Pain? || kind.Competition? || kind.Content?
  }

  predicate KnownTier(tier: SourceTier) {
    tier.OpenTier? || tier.Defended? || tier.Hostile?
  }

  predicate SameNiche(niche: string, s: Signal) {
    s.niche.None? || s.niche.value == niche
  }

  predicate Acceptable(niche: string, s: Signal) {
    SameNiche(niche, s) && KnownKind(s.kind) && KnownTier(s.tier)
  }

  /** A signal with this error: the first of the four checks it fails. */
  predicate FailsWith(niche: string, s: Signal, e: CoverageError) {
    match e
    case BadNiche => !SameNiche(niche, s)
    case BadSource => SameNiche(niche, s) && s.tier.NoSource?
    case BadKind => SameNiche(niche, s) && !s.tier.NoSource? && !KnownKind(s.kind)
    case BadTier => SameNiche(niche, s) && !s.tier.NoSource? && KnownKind(s.kind) && !KnownTier(s.tier)
  }

  lemma RefusalExact(niche: string, s: Signal)
    ensures Refusal(niche, s).None? <==> Acceptable(niche, s)
    ensures forall e :: Refusal(niche, s) == Some(e) <==> FailsWith(niche, s, e)
  {
  }

  /** Signal `i` is the first that is not acceptable. */
  predicate FirstBad(niche: string, signals: seq<Signal>, i: nat) {
    i < |signals| && !Acceptable(niche, signals[i]) && forall k :: 0 <= k < i ==> Acceptable(niche, signals[k])
  }

  /** A list is accepted exactly when each signal is; otherwise the error is that of the first that is not. */
  lemma {:induction false} BuildExact(niche: string, signals: seq<Signal>, updatedAt: string)
    ensures Build(niche, signals, updatedAt).Ok?
            <==> forall i :: 0 <= i < |signals| ==> Acceptable(niche, signals[i])
    ensures forall i: nat, e :: FirstBad(niche, signals, i) ==>
                                  (Build(niche, signals, updatedAt) == Err(e) <==> FailsWith(niche, signals[i], e))
  {
    if signals != [] {
      var front, s := signals[..|signals| - 1], signals[|signals| - 1];
      BuildExact(niche, front, updatedAt);
      RefusalExact(niche, s);
      forall i: nat, e | FirstBad(niche, signals, i)
        ensures Build(niche, signals, updatedAt) == Err(e) <==> FailsWith(niche, signals[i], e)
      {
        if i < |front| {
          assert FirstBad(niche, front, i);
          assert !Acceptable(niche, front[i]);
        }
      }
    }
  }

  /** Every cell of a build carries the time of the build. */
  lemma {:induction false} CellsStamped(niche: string, signals: seq<Signal>, updatedAt: string)
    requires Build(niche, signals, updatedAt).Ok?
    ensures var cells := Build(niche, signals, updatedAt).value;
            forall k :: k in cells ==> cells[k].updatedAt == updatedAt
  {
    if signals != [] {
      CellsStamped(niche, signals[..|signals| - 1], updatedAt);
    }
  }

  /** The ids of a cell stand in string order, once each. */
  lemma IdsInOrder(niche: string, signals: seq<Signal>, updatedAt: string, k: CellKey, i: nat, j: nat)
    requires Build(niche, signals, updatedAt).Ok? && k in Build(niche, signals, updatedAt).value
    requires var ids := Build(niche, signals, updatedAt).value[k].ids; i < j < |ids|
    ensures var ids := Build(niche, signals, updatedAt).value[k].ids; StrLe(ids[i], ids[j]) && ids[i] != ids[j]
  {
    BuildIsDirect(niche, signals, updatedAt);
    var ids := Build(niche, signals, updatedAt).value[k].ids;
    assert KeyLe(IdKey(ids[i]), IdKey(ids[j]));
  }

  /** A stored cell is stamped anew exactly when a signal changes it. */
  lemma StampExact(cells: Cells, s: Signal, updatedAt: string)
    ensures var next := Improve(cells, s, updatedAt);
            && (forall k :: k != KeyOf(s) ==> (k in next <==> k in cells) && (k in cells ==> next[k] == cells[k]))
            && KeyOf(s) in next && next[KeyOf(s)].best >= s.confidence
            && (if KeyOf(s) in cells && s.confidence <= cells[KeyOf(s)].best
                   && (s.confidence < cells[KeyOf(s)].best || s.id in cells[KeyOf(s)].ids)
                then next == cells else next[KeyOf(s)].updatedAt == updatedAt && s.id in next[KeyOf(s)].ids)
  {
    if KeyOf(s) in cells {
      InsertMembers(IdKey, cells[KeyOf(s)].ids, s.id);
    }
  }

  // ---- What opens the gate ----------------------------------------------------------------

  /** Some signal of the kind from an open or defended source is confident enough. */
  predicate Reliable(signals: seq<Signal>, kind: Kind, least: real) {
    least <= 0.0 || exists i :: 0 <= i < |signals| && signals[i].kind == kind && signals[i].confidence >= least
                                && (signals[i].tier.OpenTier? || signals[i].tier.Defended?)
  }

  /** Some signal of the kind from any source is confident enough. */
  predicate Seen(signals: seq<Signal>, kind: Kind, least: real) {
    least <= 0.0 || exists i :: 0 <= i < |signals| && signals[i].kind == kind && signals[i].confidence >= least
  }

  lemma TierReaches(signals: seq<Signal>, cells: Cells, kind: Kind, tier: SourceTier, least: real)
    requires IsGridOf(signals, cells) && Confident(signals)
    ensures BestConfidence(cells, kind, tier) >= least
            <==> least <= 0.0 || exists i :: 0 <= i < |signals| && KeyOf(signals[i]) == (kind, tier)
                                             && signals[i].confidence >= least
  {
    var k := (kind, tier);
    if k in cells {
      assert cells[k].ids[0] in cells[k].ids;
      assert Present(signals, k, cells[k].best, cells[k].ids[0]);
    }
  }

  lemma ReliableExact(signals: seq<Signal>, cells: Cells, kind: Kind, least: real)
    requires IsGridOf(signals, cells) && Confident(signals)
    ensures BestReliable(cells, kind) >= least <==> Reliable(signals, kind, least)
  {
    TierReaches(signals, cells, kind, OpenTier, least);
    TierReaches(signals, cells, kind, Defended, least);
  }

  lemma SeenExact(signals: seq<Signal>, cells: Cells, kind: Kind, least: real)
    requires IsGridOf(signals, cells) && Confident(signals)
    requires forall i :: 0 <= i < |signals| ==> KnownTier(signals[i].tier)
    ensures BestAnyTier(cells, kind) >= least <==> Seen(signals, kind, least)
  {
    TierReaches(signals, cells, kind, OpenTier, least);
    TierReaches(signals, cells, kind, Defended, least);
    TierReaches(signals, cells, kind, Hostile, least);
  }

  /** The kind falls short: demand and pain need an open or defended source, the other three any. */
  predicate FallsShort(signals: seq<Signal>, kind: Kind, least: real) {
    match kind
    case Demand => !Reliable(signals, kind, least)
    case Pain => !Reliable(signals, kind, least)
    case OtherKind(_) => false
    case _ => !Seen(signals, kind, least)
  }

  lemma ShortExact(signals: seq<Signal>, cells: Cells, kind: Kind, least: real)
    requires IsGridOf(signals, cells) && Confident(signals)
    requires forall i :: 0 <= i < |signals| ==> KnownTier(signals[i].tier)
    ensures Short(cells, kind, least) <==> FallsShort(signals, kind, least)
  {
    ReliableExact(signals, cells, kind, least);
    SeenExact(signals, cells, kind, least);
    assert HARD_KINDS == [Demand, Pain] && SOFT_KINDS == [Growth, Competition, Content];
  }

  /** Nothing is lacking exactly when all five kinds reach the least confidence. */
  lemma NothingLacks(cells: Cells, least: real)
    ensures HardGaps(cells, least) == [] && SoftGaps(cells, least) == []
            <==> BestReliable(cells, Demand) >= least && BestReliable(cells, Pain) >= least
                 && BestAnyTier(cells, Growth) >= least && BestAnyTier(cells, Competition) >= least
                 && BestAnyTier(cells, Content) >= least
  {
    LackingNothing(HARD_KINDS, k => BestReliable(cells, k), least);
    LackingNothing(SOFT_KINDS, k => BestAnyTier(cells, k), least);
    assert HARD_KINDS[0] == Demand && HARD_KINDS[1] == Pain;
    assert SOFT_KINDS[0] == Growth && SOFT_KINDS[1] == Competition && SOFT_KINDS[2] == Content;
  }

  /** What the gate reports of itself. */
  lemma GateOnCells(cells: Cells, deadline: bool, least: real)
    ensures var g := EvaluateGate(cells, deadline, least);
            var open := BestReliable(cells, Demand) >= least && BestReliable(cells, Pain) >= least;
            && (g.admitted || g.scoresWithGaps <==> open) && g.hardMet == open && g.deadline == deadline
            && (g.admitted <==> open && BestAnyTier(cells, Growth) >= least && BestAnyTier(cells, Competition) >= least
                                && BestAnyTier(cells, Content) >= least)
  {
    GateOpensExact(cells, deadline, least);
    NothingLacks(cells, least);
  }

  /** The gate on an accepted list opens exactly when demand and pain are reliably covered. */
  lemma GateOnSignals(niche: string, signals: seq<Signal>, updatedAt: string, deadline: bool, least: real)
    requires Build(niche, signals, updatedAt).Ok? && Confident(signals)
    ensures var g := EvaluateGate(Build(niche, signals, updatedAt).value, deadline, least);
            var open := Reliable(signals, Demand, least) && Reliable(signals, Pain, least);
            && (g.admitted || g.scoresWithGaps <==> open) && g.hardMet == open && g.deadline == deadline
            && (g.admitted <==> open && Seen(signals, Growth, least) && Seen(signals, Competition, least)
                                && Seen(signals, Content, least))
  {
    var cells := Build(niche, signals, updatedAt).value;
    BuildIsDirect(niche, signals, updatedAt);
    BuildExact(niche, signals, updatedAt);
    GateOnCells(cells, deadline, least);
    ReliableExact(signals, cells, Demand, least);
    ReliableExact(signals, cells, Pain, least);
    SeenExact(signals, cells, Growth, least);
    SeenExact(signals, cells, Competition, least);
    SeenExact(signals, cells, Content, least);
  }

  /** It names exactly what falls short, once it is open or the deadline is reached. */
  lemma GapsOnSignals(niche: string, signals: seq<Signal>, updatedAt: string, deadline: bool, least: real, kind: Kind)
    requires Build(niche, signals, updatedAt).Ok? && Confident(signals)
    ensures var g := EvaluateGate(Build(niche, signals, updatedAt).value, deadline, least);
            kind in g.gaps <==> (g.admitted || g.scoresWithGaps || deadline) && FallsShort(signals, kind, least)
  {
    var cells := Build(niche, signals, updatedAt).value;
    BuildIsDirect(niche, signals, updatedAt);
    BuildExact(niche, signals, updatedAt);
    GateOpensExact(cells, deadline, least);
    GapsReportedExact(cells, deadline, least, kind);
    ShortExact(signals, cells, kind, least);
  }

  // ---- Hostile signals and the choice of the best -----------------------------------------------

  /** Dropping the hostile tier drops exactly the hostile signals. */
  lemma {:induction false} WithoutHostileExact(signals: seq<Signal>, s: Signal)
    ensures multiset(WithoutHostile(signals))[s] == if s.tier.Hostile? then 0 else multiset(signals)[s]
  {
    if signals != [] {
      WithoutHostileExact(signals[..|signals| - 1], s);
      assert signals == signals[..|signals| - 1] + [signals[|signals| - 1]];
    }
  }

  /** The chosen signal of a kind is the most confident one, and of those the one with the smallest id. */
  lemma ChosenExact(signals: seq<Signal>, selected: map<Kind, Signal>, kind: Kind, i: nat)
    requires IsSelection(signals, selected) && kind in selected
    requires i < |signals| && signals[i].kind == kind
    ensures selected[kind] in signals && selected[kind].kind == kind && KnownKind(kind)
    ensures signals[i].confidence < selected[kind].confidence
            || (signals[i].confidence == selected[kind].confidence && StrLe(selected[kind].id, signals[i].id))
  {
    assert !Beats(signals[i], selected[kind]);
    StrTotal(signals[i].id, selected[kind].id);
    StrTotal(selected[kind].id, selected[kind].id);
  }
}
