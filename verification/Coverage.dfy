/** The coverage grid, its gate, the hostile-dependence test and the choice of the best signals. */
module Coverage {
  import opened Ordering
  import opened Wrappers

  datatype Kind = Demand | Growth | Pain | Competition | Content | OtherKind(name: string)

  /** A source tier; `NoSource` stands for a signal whose source is not an object. */
  datatype SourceTier = OpenTier | Defended | Hostile | OtherTier(name: string) | NoSource

  datatype Signal = Signal(niche: Option<string>, kind: Kind, tier: SourceTier, confidence: real, id: string)

  datatype CoverageError = BadSource | BadKind | BadTier | BadNiche

  datatype Result<+T> = Ok(value: T) | Err(error: CoverageError)

  type CellKey = (Kind, SourceTier)

  datatype Cell = Cell(best: real, ids: seq<string>, updatedAt: string)

  type Cells = map<CellKey, Cell>

  function IdKey(id: string): Key {
    Key(0, 0, id)
  }

  function KeyOf(s: Signal): CellKey {
    (s.kind, s.tier)
  }

  /** The checks of `upsert_signal`, in order. */
  function Check(s: Signal): Option<CoverageError> {
    if s.tier.NoSource? then Some(BadSource)
    else if s.kind.OtherKind? then Some(BadKind)
    else if s.tier.OtherTier? then Some(BadTier)
    else None
  }

  /** The cell after one more accepted signal. */
  function Improve(cells: Cells, s: Signal, updatedAt: string): Cells {
    var k := KeyOf(s);
    if k !in cells || s.confidence > cells[k].best then cells[k := Cell(s.confidence, [s.id], updatedAt)]
    else if s.confidence == cells[k].best && s.id !in cells[k].ids then
      cells[k := Cell(s.confidence, Insert(IdKey, cells[k].ids, s.id), updatedAt)]
    else cells
  }

  /** The in-memory grid of best confidences. */
  class CoverageGrid {
    const niche: string
    var cells: Cells

    constructor (niche: string)
      ensures this.niche == niche && cells == map[]
    {
      this.niche := niche;
      cells := map[];
    }

    method UpsertSignal(s: Signal, updatedAt: string) returns (changed: Result<bool>)
      modifies this
      ensures match Check(s)
              case Some(e) => changed == Err(e) && cells == old(cells)
              case None => cells == Improve(old(cells), s, updatedAt) && changed.Ok?
                           && (!changed.value ==> cells == old(cells))
                           && (changed.value <==> KeyOf(s) !in old(cells) || s.confidence > old(cells)[KeyOf(s)].best
                                                  || (s.confidence == old(cells)[KeyOf(s)].best
                                                      && s.id !in old(cells)[KeyOf(s)].ids))
    {
      if s.tier.NoSource? {
        return Err(BadSource);
      }
      if s.kind.OtherKind? {
        return Err(BadKind);
      }
      if s.tier.OtherTier? {
        return Err(BadTier);
      }
      var k := KeyOf(s);
      if k !in cells {
        cells := cells[k := Cell(s.confidence, [s.id], updatedAt)];
        return Ok(true);
      }
      var existing := cells[k];
      if s.confidence > existing.best {
        cells := cells[k := Cell(s.confidence, [s.id], updatedAt)];
        return Ok(true);
      }
      if s.confidence == existing.best && s.id !in existing.ids {
        cells := cells[k := Cell(s.confidence, Insert(IdKey, existing.ids, s.id), updatedAt)];
        return Ok(true);
      }
      changed := Ok(false);
    }
  }

  function Refusal(niche: string, s: Signal): Option<CoverageError> {
    if s.niche.Some? && s.niche.value != niche then Some(BadNiche) else Check(s)
  }

  /** `build_grid_from_signals`: the cells, or the error of the first refused signal. */
  function Build(niche: string, signals: seq<Signal>, updatedAt: string): Result<Cells> {
    if signals == [] then Ok(map[])
    else
      match Build(niche, signals[..|signals| - 1], updatedAt)
      case Err(e) => Err(e)
      case Ok(cells) =>
        var s := signals[|signals| - 1];
        match Refusal(niche, s)
        case Some(e) => Err(e)
        case None => Ok(Improve(cells, s, updatedAt))
  }

  method BuildGridFromSignals(niche: string, signals: seq<Signal>, updatedAt: string)
    returns (grid: CoverageGrid, outcome: Result<()>)
    ensures match Build(niche, signals, updatedAt)
            case Ok(cells) => outcome == Ok(()) && grid.cells == cells
            case Err(e) => outcome == Err(e)
  {
    grid := new CoverageGrid(niche);
    for i := 0 to |signals|
      invariant Build(niche, signals[..i], updatedAt) == Ok(grid.cells)
    {
      var s := signals[i];
      assert signals[..i + 1][..i] == signals[..i];
      if s.niche.Some? && s.niche.value != niche {
        BuildStops(niche, signals, i + 1, updatedAt);
        return grid, Err(BadNiche);
      }
      var changed := grid.UpsertSignal(s, updatedAt);
      if changed.Err? {
        BuildStops(niche, signals, i + 1, updatedAt);
        return grid, Err(changed.error);
      }
    }
    assert signals[..|signals|] == signals;
    outcome := Ok(());
  }

  /** The first error is the result whatever follows. */
  lemma {:induction false} BuildStops(niche: string, signals: seq<Signal>, n: nat, updatedAt: string)
    requires n <= |signals| && Build(niche, signals[..n], updatedAt).Err?
    ensures Build(niche, signals, updatedAt) == Build(niche, signals[..n], updatedAt)
    decreases |signals|
  {
    if n < |signals| {
      var front := signals[..|signals| - 1];
      assert front[..n] == signals[..n];
      BuildStops(niche, front, n, updatedAt);
    } else {
      assert signals[..n] == signals;
    }
  }

  // ---- The direct definition of a cell -----------------------------------------

  /** Some signal of that cell has that confidence and id. */
  predicate Present(signals: seq<Signal>, k: CellKey, confidence: real, id: string) {
    exists i :: 0 <= i < |signals| && KeyOf(signals[i]) == k && signals[i].confidence == confidence
        && signals[i].id == id
  }

  /** The cell holds the largest confidence of its signals and, sorted and once each, the ids attaining it. */
  ghost predicate IsCellOf(signals: seq<Signal>, k: CellKey, cell: Cell) {
    && (forall i :: 0 <= i < |signals| && KeyOf(signals[i]) == k ==> signals[i].confidence <= cell.best)
    && cell.ids != [] && Sorted(IdKey, cell.ids)
    && (forall i, j :: 0 <= i < j < |cell.ids| ==> cell.ids[i] != cell.ids[j])
    && (forall id :: id in cell.ids <==> Present(signals, k, cell.best, id))
  }

  ghost predicate IsGridOf(signals: seq<Signal>, cells: Cells) {
    forall k ::
      && (k in cells <==> exists i :: 0 <= i < |signals| && KeyOf(signals[i]) == k)
      && (k in cells ==> IsCellOf(signals, k, cells[k]))
  }

  lemma PresentSnoc(signals: seq<Signal>, s: Signal, k: CellKey, confidence: real, id: string)
    ensures Present(signals + [s], k, confidence, id)
            <==> Present(signals, k, confidence, id) || (KeyOf(s) == k && s.confidence == confidence && s.id == id)
  {
    var more := signals + [s];
    if Present(signals, k, confidence, id) {
      var i :| 0 <= i < |signals| && KeyOf(signals[i]) == k && signals[i].confidence == confidence
          && signals[i].id == id;
      assert more[i] == signals[i];
    }
    assert more[|signals|] == s;
  }

  lemma {:induction false} InsertNewId(ids: seq<string>, id: string)
    requires forall i, j :: 0 <= i < j < |ids| ==> ids[i] != ids[j]
    requires id !in ids
    ensures var r := Insert(IdKey, ids, id);
            && (forall x :: x in r <==> x in ids || x == id)
            && forall i, j :: 0 <= i < j < |r| ==> r[i] != r[j]
  {
    InsertMembers(IdKey, ids, id);
    if ids != [] {
      var front, last := ids[..|ids| - 1], ids[|ids| - 1];
      assert last !in front;
      InsertNewId(front, id);
      assert last !in Insert(IdKey, front, id);
    }
  }

  lemma ImprovedCell(signals: seq<Signal>, s: Signal, cell: Option<Cell>, next: Cell)
    requires match cell
             case Some(c) => IsCellOf(signals, KeyOf(s), c)
             case None => forall i :: 0 <= i < |signals| ==> KeyOf(signals[i]) != KeyOf(s)
    requires if cell.None? || s.confidence > cell.value.best then next.best == s.confidence && next.ids == [s.id]
             else if s.confidence == cell.value.best && s.id !in cell.value.ids then
               next.best == s.confidence && next.ids == Insert(IdKey, cell.value.ids, s.id)
             else next == cell.value
    ensures IsCellOf(signals + [s], KeyOf(s), next)
  {
    var more, k := signals + [s], KeyOf(s);
    forall i | 0 <= i < |more| && KeyOf(more[i]) == k
      ensures more[i].confidence <= next.best
    {
      if i < |signals| {
        assert more[i] == signals[i];
      }
    }
    if cell.Some? && s.confidence == cell.value.best && s.id !in cell.value.ids {
      InsertNewId(cell.value.ids, s.id);
    }
    forall id
      ensures id in next.ids <==> Present(more, k, next.best, id)
    {
      PresentSnoc(signals, s, k, next.best, id);
    }
  }
}
