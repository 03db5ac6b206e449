/** The grid against its direct definition, the coverage gate, hostile dependence and signal selection. */
module CoverageTheorems {
  import opened Ordering
  import opened Wrappers
  import opened Coverage

  // ---- The grid is the direct maximum ------------------------------------------

  lemma CellKept(signals: seq<Signal>, s: Signal, k: CellKey, cell: Cell)
    requires IsCellOf(signals, k, cell) && KeyOf(s) != k
    ensures IsCellOf(signals + [s], k, cell)
  {
    var more := signals + [s];
    forall i | 0 <= i < |more| && KeyOf(more[i]) == k
      ensures more[i].confidence <= cell.best
    {
      assert more[i] == signals[i];
    }
    forall id
      ensures id in cell.ids <==> Present(more, k, cell.best, id)
    {
      PresentSnoc(signals, s, k, cell.best, id);
    }
  }

  ghost predicate HasKey(signals: seq<Signal>, k: CellKey) {
    exists i :: 0 <= i < |signals| && KeyOf(signals[i]) == k
  }

  lemma HasKeySnoc(signals: seq<Signal>, s: Signal, k: CellKey)
    ensures HasKey(signals + [s], k) <==> HasKey(signals, k) || KeyOf(s) == k
  {
    assert (signals + [s])[|signals|] == s;
    if HasKey(signals, k) {
      var i :| 0 <= i < |signals| && KeyOf(signals[i]) == k;
      assert (signals + [s])[i] == signals[i];
    }
  }

  lemma ImproveKeepsGrid(signals: seq<Signal>, s: Signal, cells: Cells, updatedAt: string)
    requires IsGridOf(signals, cells)
    ensures IsGridOf(signals + [s], Improve(cells, s, updatedAt))
  {
    var next, more := Improve(cells, s, updatedAt), signals + [s];
    forall k
      ensures k in next <==> HasKey(more, k)
      ensures k in next ==> IsCellOf(more, k, next[k])
    {
      assert k in cells <==> HasKey(signals, k);
      HasKeySnoc(signals, s, k);
      if k == KeyOf(s) {
        ImprovedCell(signals, s, if k in cells then Some(cells[k]) else None, next[k]);
      } else if k in next {
        CellKept(signals, s, k, cells[k]);
      }
    }
  }

  /**
   * Building the grid signal by signal gives, in every cell, the maximum confidence and exactly the ids attaining it.
   */
  lemma {:induction false} BuildIsDirect(niche: string, signals: seq<Signal>, updatedAt: string)
    requires Build(niche, signals, updatedAt).Ok?
    ensures IsGridOf(signals, Build(niche, signals, updatedAt).value)
  {
    if signals != [] {
      var front, s := signals[..|signals| - 1], signals[|signals| - 1];
      BuildIsDirect(niche, front, updatedAt);
      ImproveKeepsGrid(front, s, Build(niche, front, updatedAt).value, updatedAt);
      assert signals == front + [s];
    }
  }

  /** Two lists with the same signals, in any order and however often repeated. */
  ghost predicate SameSignals(a: seq<Signal>, b: seq<Signal>) {
    forall s :: s in a <==> s in b
  }

  lemma SamePresent(a: seq<Signal>, b: seq<Signal>, k: CellKey, confidence: real, id: string)
    requires SameSignals(a, b) && Present(a, k, confidence, id)
    ensures Present(b, k, confidence, id)
  {
    var i :| 0 <= i < |a| && KeyOf(a[i]) == k && a[i].confidence == confidence && a[i].id == id;
    assert a[i] in b;
  }

  lemma BestNotBelow(a: seq<Signal>, b: seq<Signal>, k: CellKey, c: Cell, d: Cell)
    requires SameSignals(a, b) && IsCellOf(a, k, c) && IsCellOf(b, k, d)
    ensures c.best <= d.best
  {
    assert c.ids[0] in c.ids;
    SamePresent(a, b, k, c.best, c.ids[0]);
  }

  /** A cell does not depend on the order or repetition of the signals. */
  lemma CellIsOrderFree(a: seq<Signal>, b: seq<Signal>, k: CellKey, c: Cell, d: Cell)
    requires SameSignals(a, b) && IsCellOf(a, k, c) && IsCellOf(b, k, d)
    ensures c.best == d.best && c.ids == d.ids
  {
    BestNotBelow(a, b, k, c, d);
    BestNotBelow(b, a, k, d, c);
    forall id
      ensures multiset(c.ids)[id] == multiset(d.ids)[id]
    {
      if Present(a, k, c.best, id) {
        SamePresent(a, b, k, c.best, id);
      }
      if Present(b, k, c.best, id) {
        SamePresent(b, a, k, c.best, id);
      }
      DistinctCount(c.ids, id);
      DistinctCount(d.ids, id);
    }
    assert multiset(c.ids) == multiset(d.ids);
    SortedUnique(IdKey, c.ids, d.ids);
  }

  // ---- The gate -----------------------------------------------------------------

  function BestConfidence(cells: Cells, kind: Kind, tier: SourceTier): real {
    if (kind, tier) in cells then cells[(kind, tier)].best else 0.0
  }

  function Larger(a: real, b: real): real {
    if a >= b then a else b
  }

  /** Best confidence over the open and defended tiers. */
  function BestReliable(cells: Cells, kind: Kind): real {
    Larger(BestConfidence(cells, kind, OpenTier), BestConfidence(cells, kind, Defended))
  }

  function BestAnyTier(cells: Cells, kind: Kind): real {
    Larger(BestReliable(cells, kind), BestConfidence(cells, kind, Hostile))
  }

  predicate HardRequiredMet(cells: Cells, least: real) {
    BestReliable(cells, Demand) >= least && BestReliable(cells, Pain) >= least
  }

  const HARD_KINDS: seq<Kind> := [Demand, Pain]
  const SOFT_KINDS: seq<Kind> := [Growth, Competition, Content]

  /** The kinds of a list whose best confidence is too low. */
  function Lacking(kinds: seq<Kind>, best: Kind -> real, least: real): seq<Kind> {
    if kinds == [] then []
    else (if best(kinds[0]) < least then [kinds[0]] else []) + Lacking(kinds[1..], best, least)
  }

  function HardGaps(cells: Cells, least: real): seq<Kind> {
    Lacking(HARD_KINDS, k => BestReliable(cells, k), least)
  }

  function SoftGaps(cells: Cells, least: real): seq<Kind> {
    Lacking(SOFT_KINDS, k => BestAnyTier(cells, k), least)
  }

  datatype GateResult = GateResult(admitted: bool, scoresWithGaps: bool, gaps: seq<Kind>, hardMet: bool, deadline: bool)

  /** `evaluate_coverage_gate`, branch by branch; `deadline` says whether the dossier deadline was reached. */
  function EvaluateGate(cells: Cells, deadline: bool, least: real): GateResult {
    var hardMet := HardRequiredMet(cells, least);
    var gaps := HardGaps(cells, least) + SoftGaps(cells, least);
    if hardMet && gaps == [] then GateResult(true, false, [], true, deadline)
    else if hardMet && SoftGaps(cells, least) != [] then GateResult(false, true, SoftGaps(cells, least), true, deadline)
    else if !hardMet && deadline then GateResult(false, false, gaps, false, true)
    else GateResult(false, false, [], hardMet, deadline)
  }

  lemma {:induction false} LackingNothing(kinds: seq<Kind>, best: Kind -> real, least: real)
    ensures Lacking(kinds, best, least) == [] <==> forall i :: 0 <= i < |kinds| ==> best(kinds[i]) >= least
  {
    if kinds != [] {
      LackingNothing(kinds[1..], best, least);
      assert forall i :: 0 < i < |kinds| ==> kinds[i] == kinds[1..][i - 1];
    }
  }

  lemma HardGapsExact(cells: Cells, least: real)
    ensures HardGaps(cells, least) == [] <==> HardRequiredMet(cells, least)
  {
    LackingNothing(HARD_KINDS, k => BestReliable(cells, k), least);
    assert HARD_KINDS[0] == Demand && HARD_KINDS[1] == Pain;
  }

  /** Scoring opens exactly when the hard coverage is met, and fully exactly when nothing at all is lacking. */
  lemma GateOpensExact(cells: Cells, deadline: bool, least: real)
    ensures var g := EvaluateGate(cells, deadline, least);
            && (g.admitted || g.scoresWithGaps <==> HardRequiredMet(cells, least))
            && (g.admitted <==> HardGaps(cells, least) == [] && SoftGaps(cells, least) == [])
            && !(g.admitted && g.scoresWithGaps)
  {
    HardGapsExact(cells, least);
  }

  lemma {:induction false} LackingMembers(kinds: seq<Kind>, best: Kind -> real, least: real, kind: Kind)
    ensures kind in Lacking(kinds, best, least) <==> kind in kinds && best(kind) < least
  {
    if kinds != [] {
      LackingMembers(kinds[1..], best, least, kind);
      assert kinds == [kinds[0]] + kinds[1..];
    }
  }

  /** The kind falls short: a hard one over the reliable tiers, a soft one over all tiers. */
  predicate Short(cells: Cells, kind: Kind, least: real) {
    (kind in HARD_KINDS && BestReliable(cells, kind) < least) || (kind in SOFT_KINDS
        && BestAnyTier(cells, kind) < least)
  }

  /**
   * The gate reports exactly the kinds that fall short, except when it stays closed ahead of the deadline: then none.
   */
  lemma GapsReportedExact(cells: Cells, deadline: bool, least: real, kind: Kind)
    ensures kind in EvaluateGate(cells, deadline, least).gaps
            <==> (HardRequiredMet(cells, least) || deadline) && Short(cells, kind, least)
  {
    HardGapsExact(cells, least);
    LackingMembers(HARD_KINDS, k => BestReliable(cells, k), least, kind);
    LackingMembers(SOFT_KINDS, k => BestAnyTier(cells, k), least, kind);
  }

  // ---- More signals -----------------------------------------------------------------

  /** Every signal of `a` is among those of `b`. */
  ghost predicate Among(a: seq<Signal>, b: seq<Signal>) {
    forall s :: s in a ==> s in b
  }

  predicate Confident(signals: seq<Signal>) {
    forall i :: 0 <= i < |signals| ==> 0.0 <= signals[i].confidence <= 1.0
  }

  lemma CellBestGrows(a: seq<Signal>, b: seq<Signal>, x: Cells, y: Cells, kind: Kind, tier: SourceTier)
    requires Among(a, b) && Confident(b) && IsGridOf(a, x) && IsGridOf(b, y)
    ensures BestConfidence(x, kind, tier) <= BestConfidence(y, kind, tier)
  {
    var k := (kind, tier);
    if k in x {
      assert x[k].ids[0] in x[k].ids;
      assert Present(a, k, x[k].best, x[k].ids[0]);
      var i :| 0 <= i < |a| && KeyOf(a[i]) == k && a[i].confidence == x[k].best && a[i].id == x[k].ids[0];
      assert a[i] in b;
      var j :| 0 <= j < |b| && b[j] == a[i];
      assert HasKey(b, k);
    } else if k in y {
      assert HasKey(b, k);
    }
  }

  lemma {:induction false} LackingShrinks(kinds: seq<Kind>, f: Kind -> real, g: Kind -> real, least: real)
    requires forall k :: f(k) <= g(k)
    ensures Lacking(kinds, f, least) == [] ==> Lacking(kinds, g, least) == []
  {
    LackingNothing(kinds, f, least);
    LackingNothing(kinds, g, least);
  }

  function Level(g: GateResult): nat {
    if g.admitted then 2 else if g.scoresWithGaps then 1 else 0
  }

  /** Adding signals never lowers the gate: not open, open with gaps, fully open. */
  lemma MoreSignalsNeverClose(a: seq<Signal>, b: seq<Signal>, x: Cells, y: Cells, deadline: bool, least: real)
    requires Among(a, b) && Confident(b) && IsGridOf(a, x) && IsGridOf(b, y)
    ensures Level(EvaluateGate(x, deadline, least)) <= Level(EvaluateGate(y, deadline, least))
  {
    forall kind
      ensures BestReliable(x, kind) <= BestReliable(y, kind) && BestAnyTier(x, kind) <= BestAnyTier(y, kind)
    {
      CellBestGrows(a, b, x, y, kind, OpenTier);
      CellBestGrows(a, b, x, y, kind, Defended);
      CellBestGrows(a, b, x, y, kind, Hostile);
    }
    GateOpensExact(x, deadline, least);
    GateOpensExact(y, deadline, least);
    HardGapsExact(x, least);
    HardGapsExact(y, least);
    LackingShrinks(SOFT_KINDS, k => BestAnyTier(x, k), k => BestAnyTier(y, k), least);
  }

  // ---- Hostile dependence --------------------------------------------------------------

  /** `filter_signals_without_tiers` for the hostile tier. */
  function WithoutHostile(signals: seq<Signal>): seq<Signal> {
    if signals == [] then []
    else
      var s := signals[|signals| - 1];
      WithoutHostile(signals[..|signals| - 1]) + if s.tier.Hostile? then [] else [s]
  }

  /** `compute_hostile_dependent`. */
  function HostileDependent(niche: string, signals: seq<Signal>, asOf: string, least: real): Result<bool> {
    match Build(niche, signals, asOf)
    case Err(e) => Err(e)
    case Ok(full) =>
      if !HardRequiredMet(full, least) then Ok(false)
      else
        match Build(niche, WithoutHostile(signals), asOf)
        case Err(e) => Err(e)
        case Ok(reduced) => Ok(!HardRequiredMet(reduced, least))
  }

  /** The cells outside the hostile tier agree. */
  ghost predicate SameReliable(x: Cells, y: Cells) {
    forall k: CellKey :: !k.1.Hostile? ==> ((k in x <==> k in y) && (k in x ==> x[k] == y[k]))
  }

  lemma HostileImproves(x: Cells, y: Cells, s: Signal, asOf: string)
    requires SameReliable(x, y)
    ensures s.tier.Hostile? ==> SameReliable(Improve(x, s, asOf), y)
    ensures !s.tier.Hostile? ==> SameReliable(Improve(x, s, asOf), Improve(y, s, asOf))
  {
    if !s.tier.Hostile? {
      assert KeyOf(s) in x <==> KeyOf(s) in y;
    }
  }

  lemma BuildSnoc(niche: string, signals: seq<Signal>, s: Signal, asOf: string)
    requires Build(niche, signals, asOf).Ok?
    ensures Build(niche, signals + [s], asOf)
            == match Refusal(niche, s)
               case Some(e) => Err(e)
               case None => Ok(Improve(Build(niche, signals, asOf).value, s, asOf))
  {
    assert (signals + [s])[..|signals|] == signals;
  }

  lemma {:induction false} HostileTouchesHostile(niche: string, signals: seq<Signal>, asOf: string)
    requires Build(niche, signals, asOf).Ok?
    ensures Build(niche, WithoutHostile(signals), asOf).Ok?
    ensures SameReliable(Build(niche, signals, asOf).value, Build(niche, WithoutHostile(signals), asOf).value)
  {
    if signals != [] {
      var front, s := signals[..|signals| - 1], signals[|signals| - 1];
      HostileTouchesHostile(niche, front, asOf);
      var x, y := Build(niche, front, asOf).value, Build(niche, WithoutHostile(front), asOf).value;
      HostileImproves(x, y, s, asOf);
      if s.tier.Hostile? {
        assert WithoutHostile(signals) == WithoutHostile(front);
      } else {
        BuildSnoc(niche, WithoutHostile(front), s, asOf);
      }
    }
  }

  /** Dropping the hostile tier never changes the hard coverage, so no dossier is ever found hostile-dependent. */
  lemma NeverHostileDependent(niche: string, signals: seq<Signal>, asOf: string, least: real)
    ensures match Build(niche, signals, asOf)
            case Ok(_) => HostileDependent(niche, signals, asOf, least) == Ok(false)
            case Err(e) => HostileDependent(niche, signals, asOf, least) == Err(e)
  {
    if Build(niche, signals, asOf).Ok? {
      HostileTouchesHostile(niche, signals, asOf);
      var x, y := Build(niche, signals, asOf).value, Build(niche, WithoutHostile(signals), asOf).value;
      forall kind
        ensures BestReliable(x, kind) == BestReliable(y, kind)
      {
        assert (kind, OpenTier) in x <==> (kind, OpenTier) in y;
        assert (kind, Defended) in x <==> (kind, Defended) in y;
      }
    }
  }

  // ---- The best signal of each kind ---------------------------------------------------------

  /** The new signal replaces the chosen one: more confident, or as confident with a smaller id. */
  predicate Beats(s: Signal, chosen: Signal) {
    s.confidence > chosen.confidence
    || (s.confidence == chosen.confidence && StrLe(s.id, chosen.id) && s.id != chosen.id)
  }

  /** The chosen signal of a kind: no signal of that kind beats it. */
  ghost predicate IsBestOf(signals: seq<Signal>, kind: Kind, chosen: Signal) {
    && chosen in signals && chosen.kind == kind
    && forall i :: 0 <= i < |signals| && signals[i].kind == kind ==> !Beats(signals[i], chosen)
  }

  ghost predicate IsSelection(signals: seq<Signal>, selected: map<Kind, Signal>) {
    forall kind ::
      && (kind in selected <==> !kind.OtherKind? && exists i :: 0 <= i < |signals| && signals[i].kind == kind)
      && (kind in selected ==> IsBestOf(signals, kind, selected[kind]))
  }

  lemma BeatsTransitive(a: Signal, b: Signal, c: Signal)
    requires Beats(a, b) && !Beats(c, b)
    ensures !Beats(c, a)
  {
    StrTotal(a.id, c.id);
    StrTotal(b.id, c.id);
    if Beats(c, a) {
      StrTransitive(c.id, a.id, b.id);
      if c.id == b.id {
        StrAntisymmetric(a.id, b.id);
      }
    }
  }

  lemma NeverBeatsItself(s: Signal)
    ensures !Beats(s, s)
  {
  }

  method SelectBestSignals(signals: seq<Signal>) returns (selected: map<Kind, Signal>)
    ensures IsSelection(signals, selected)
  {
    selected := map[];
    for n := 0 to |signals|
      invariant IsSelection(signals[..n], selected)
    {
      var s := signals[n];
      ghost var before := selected;
      if !s.kind.OtherKind? {
        if s.kind !in selected || Beats(s, selected[s.kind]) {
          selected := selected[s.kind := s];
        }
      }
      SelectStep(signals[..n], s, before, selected);
      assert signals[..n + 1] == signals[..n] + [s];
    }
    assert signals[..|signals|] == signals;
  }

  lemma SelectStep(signals: seq<Signal>, s: Signal, before: map<Kind, Signal>, after: map<Kind, Signal>)
    requires IsSelection(signals, before)
    requires after == if !s.kind.OtherKind? && (s.kind !in before || Beats(s, before[s.kind])) then before[s.kind := s]
                      else before
    ensures IsSelection(signals + [s], after)
  {
    var more := signals + [s];
    assert more[|signals|] == s;
    forall kind
      ensures kind in after <==> !kind.OtherKind? && exists i :: 0 <= i < |more| && more[i].kind == kind
      ensures kind in after ==> IsBestOf(more, kind, after[kind])
    {
      if exists i :: 0 <= i < |signals| && signals[i].kind == kind {
        var i :| 0 <= i < |signals| && signals[i].kind == kind;
        assert more[i].kind == kind;
      }
      if kind in after {
        BestStep(signals, s, kind, before, after[kind]);
      }
    }
  }

  lemma BestStep(signals: seq<Signal>, s: Signal, kind: Kind, before: map<Kind, Signal>, chosen: Signal)
    requires IsSelection(signals, before) && !kind.OtherKind?
    requires if kind == s.kind && (kind !in before || Beats(s, before[kind])) then chosen == s
             else kind in before && chosen == before[kind]
    ensures IsBestOf(signals + [s], kind, chosen)
  {
    var more := signals + [s];
    assert more[|signals|] == s;
    NeverBeatsItself(s);
    forall i | 0 <= i < |more| && more[i].kind == kind
      ensures !Beats(more[i], chosen)
    {
      if i < |signals| {
        assert more[i] == signals[i];
        assert kind in before;
        if chosen == s && kind == s.kind && Beats(s, before[kind]) {
          BeatsTransitive(s, before[kind], signals[i]);
        }
      }
    }
  }

  /**
   * The chosen signal of a kind is as confident as the grid's best over all tiers, which is zero when none is chosen.
   */
  lemma SelectionMatchesGrid(signals: seq<Signal>, cells: Cells, selected: map<Kind, Signal>, kind: Kind)
    requires IsGridOf(signals, cells) && IsSelection(signals, selected) && Confident(signals)
    requires !kind.OtherKind? && forall i :: 0 <= i < |signals| ==> Check(signals[i]).None?
    ensures BestAnyTier(cells, kind) == if kind in selected then selected[kind].confidence else 0.0
  {
    TierWithin(signals, cells, selected, kind, OpenTier);
    TierWithin(signals, cells, selected, kind, Defended);
    TierWithin(signals, cells, selected, kind, Hostile);
    if kind in selected {
      SelectedInGrid(signals, cells, selected, kind);
    }
  }

  lemma SelectedInGrid(signals: seq<Signal>, cells: Cells, selected: map<Kind, Signal>, kind: Kind)
    requires IsGridOf(signals, cells) && IsSelection(signals, selected) && kind in selected
    requires forall i :: 0 <= i < |signals| ==> Check(signals[i]).None?
    ensures var tier := selected[kind].tier;
            (tier.OpenTier? || tier.Defended? || tier.Hostile?)
            && selected[kind].confidence <= BestConfidence(cells, kind, tier)
  {
    var s := selected[kind];
    assert IsBestOf(signals, kind, s);
    var i :| 0 <= i < |signals| && signals[i] == s;
    assert Check(signals[i]).None?;
    assert HasKey(signals, KeyOf(s));
    assert KeyOf(s) in cells;
    assert IsCellOf(signals, KeyOf(s), cells[KeyOf(s)]);
  }

  lemma TierWithin(signals: seq<Signal>, cells: Cells, selected: map<Kind, Signal>, kind: Kind, tier: SourceTier)
    requires IsGridOf(signals, cells) && IsSelection(signals, selected) && Confident(signals) && !kind.OtherKind?
    ensures BestConfidence(cells, kind, tier) <= if kind in selected then selected[kind].confidence else 0.0
    ensures BestConfidence(cells, kind, tier) >= 0.0
  {
    var k := (kind, tier);
    if k in cells {
      assert cells[k].ids[0] in cells[k].ids;
      assert Present(signals, k, cells[k].best, cells[k].ids[0]);
      var i :| 0 <= i < |signals| && KeyOf(signals[i]) == k && signals[i].confidence == cells[k].best
               && signals[i].id == cells[k].ids[0];
      assert signals[i].kind == kind;
      assert !Beats(signals[i], selected[kind]);
    } else if kind in selected {
      assert IsBestOf(signals, kind, selected[kind]);
    }
  }
}
