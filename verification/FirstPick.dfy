/** Exactly when a job of a fair batch gets no pick: for every nonempty batch, of every length. */
module FirstPick {
  import opened Wrappers
  import opened Ordering
  import opened Fairness
  import opened FairnessTheorems
  import opened Starvation

  /** All other jobs of the batch, each once. */
  ghost predicate Rivals(book: Book, js: seq<JobId>, i: JobId) {
    i in book.weight && i in book.priority && Distinct(js) && i !in js
    && (forall j :: j in js ==> j in book.weight && j in book.priority)
    && forall j :: j in book.weight && j != i ==> j in js
  }

  /** With equal credit, `j` is served before `i`. */
  predicate WinsTie(book: Book, i: JobId, j: JobId)
    requires i in book.priority && j in book.priority
  {
    KeyLe(Key(0, book.priority[j], j), Key(0, book.priority[i], i))
  }

  /** In round `r`, `j` with `m` picks behind it is served before `i` with none. */
  predicate Precedes(book: Book, i: JobId, j: JobId, r: nat, m: nat)
    requires i in book.weight && j in book.weight && i in book.priority && j in book.priority
  {
    KeyLe(Key(-(r * book.weight[j] - m * book.maxWeight), book.priority[j], j),
          Key(-(r * book.weight[i]), book.priority[i], i))
  }

  /** How many picks of `j` come before the first pick of `i` if that has not come by round `r`. */
  function DemandOf(book: Book, i: JobId, j: JobId, r: nat): int
    requires i in book.weight && j in book.weight && i in book.priority && j in book.priority && book.maxWeight >= 1
  {
    var surplus := r * (book.weight[j] - book.weight[i]);
    if surplus < 0 || r == 0 then 0
    else if WinsTie(book, i, j) then surplus / book.maxWeight + 1
    else (surplus + book.maxWeight - 1) / book.maxWeight
  }

  lemma QuotientBounds(d: int, price: int, m: nat)
    requires d >= 0 && price >= 1
    ensures m * price <= d <==> m <= d / price
    ensures m * price < d <==> m < (d + price - 1) / price
  {
    QuotientExact(d, price, m);
    if m > 0 {
      QuotientExact(d + price - 1, price, m + 1);
    } else {
      QuotientExact(d + price - 1, price, 1);
    }
  }

  lemma QuotientExact(d: int, price: int, m: nat)
    requires d >= 0 && price >= 1
    ensures m * price <= d <==> m <= d / price
  {
    var q := d / price;
    assert d == q * price + d % price;
    if m <= q {
      Product(q, m, price);
    } else {
      Product(m, q + 1, price);
      OneMore(q, price);
    }
  }

  lemma PrecedesExact(book: Book, i: JobId, j: JobId, r: nat, m: nat)
    requires i in book.weight && j in book.weight && i in book.priority && j in book.priority
    requires book.maxWeight >= 1 && r >= 1
    ensures Precedes(book, i, j, r, m) <==> m < DemandOf(book, i, j, r)
  {
    var surplus := r * (book.weight[j] - book.weight[i]);
    assert surplus == r * book.weight[j] - r * book.weight[i];
    Product(m, 0, book.maxWeight);
    if surplus >= 0 {
      QuotientBounds(surplus, book.maxWeight, m);
    }
  }

  lemma DemandGrows(book: Book, i: JobId, j: JobId, r: nat)
    requires i in book.weight && j in book.weight && i in book.priority && j in book.priority && book.maxWeight >= 1
    ensures 0 <= DemandOf(book, i, j, r) <= DemandOf(book, i, j, r + 1)
  {
    var gap := book.weight[j] - book.weight[i];
    OneMore(r, gap);
    if gap >= 0 {
      Product(r, 0, gap);
      QuotientGrows(r * gap, r * gap + gap, book.maxWeight);
      QuotientGrows(r * gap + book.maxWeight - 1, r * gap + gap + book.maxWeight - 1, book.maxWeight);
    } else if r > 0 {
      Product(r, 1, -gap);
      assert r * gap == -(r * -gap);
    }
  }

  lemma QuotientGrows(a: int, b: int, price: int)
    requires 0 <= a <= b && price >= 1
    ensures 0 <= a / price <= b / price
  {
    QuotientExact(a, price, 0);
    QuotientExact(a, price, a / price);
    QuotientExact(b, price, a / price);
  }

  /** The served job comes first in the pick order among all jobs with work left. */
  ghost predicate ServedFirst(book: Book, s: Rounds, served: JobId)
    requires Fits(book, s)
  {
    Backlogged(s, served) && forall j :: Backlogged(s, j) ==>
      KeyLe(Key(-Accrued(book, s, served), book.priority[served], served),
            Key(-Accrued(book, s, j), book.priority[j], j))
  }

  lemma ServedIsFirst(book: Book, s: Rounds)
    requires Fits(book, s) && Served(book, s).Some?
    ensures ServedFirst(book, s, Served(book, s).value)
  {
    var b, credits := Served(book, s).value, Accrue(book, s);
    forall j | Backlogged(s, j)
      ensures KeyLe(Key(-Accrued(book, s, b), book.priority[b], b), Key(-Accrued(book, s, j), book.priority[j], j))
    {
      ServedHoldsMost(book, s, b, j);
      if j in Eligible(book, s, credits) {
        assert KeyLe(PickKey(book, credits, b), PickKey(book, credits, j));
      }
    }
  }

  // ---- Sums over jobs ------------------------------------------------------------

  function Total(js: seq<JobId>, v: map<JobId, int>): int
    requires forall j :: j in js ==> j in v
  {
    if js == [] then 0 else v[js[0]] + Total(js[1..], v)
  }

  function TotalWith(js: seq<JobId>, i: JobId, v: map<JobId, int>): int
    requires i in v && forall j :: j in js ==> j in v
  {
    v[i] + Total(js, v)
  }

  lemma {:induction false} TotalLe(js: seq<JobId>, u: map<JobId, int>, v: map<JobId, int>)
    requires forall j :: j in js ==> j in u && j in v && u[j] <= v[j]
    ensures Total(js, u) <= Total(js, v)
  {
    if js != [] {
      TotalLe(js[1..], u, v);
    }
  }

  lemma {:induction false} TotalLt(js: seq<JobId>, u: map<JobId, int>, v: map<JobId, int>, b: JobId)
    requires forall j :: j in js ==> j in u && j in v && u[j] <= v[j]
    requires b in js && u[b] < v[b]
    ensures Total(js, u) < Total(js, v)
  {
    if js[0] == b {
      TotalLe(js[1..], u, v);
    } else {
      TotalLt(js[1..], u, v, b);
    }
  }

  lemma {:induction false} TotalBump(js: seq<JobId>, u: map<JobId, int>, v: map<JobId, int>, b: JobId)
    requires Distinct(js)
    requires forall j :: j in js ==> j in u && j in v && v[j] == u[j] + if j == b then 1 else 0
    ensures Total(js, v) == Total(js, u) + if b in js then 1 else 0
  {
    if js != [] {
      TotalBump(js[1..], u, v, b);
    }
  }

  lemma {:induction false} TotalHolds(js: seq<JobId>, v: map<JobId, int>, b: JobId)
    requires b in js && forall j :: j in js ==> j in v && v[j] >= 0
    ensures v[b] <= Total(js, v)
  {
    if js[0] == b {
      TotalNonNegative(js[1..], v);
    } else {
      TotalHolds(js[1..], v, b);
    }
  }

  lemma {:induction false} TotalNonNegative(js: seq<JobId>, v: map<JobId, int>)
    requires forall j :: j in js ==> j in v && v[j] >= 0
    ensures Total(js, v) >= 0
  {
    if js != [] {
      TotalNonNegative(js[1..], v);
    }
  }

  // ---- What the batch alone says ---------------------------------------------------

  /** Weights between one and the largest, for the jobs that have priorities. */
  predicate BookOk(book: Book) {
    book.weight.Keys == book.priority.Keys && book.maxWeight >= 1
    && forall j :: j in book.weight ==> 1 <= book.weight[j] <= book.maxWeight
  }

  function Size(cs: seq<Candidate>, j: JobId): nat {
    |QueueOf(cs, j)|
  }

  /** The picks of `j` that precede the first pick of `i`, as far as its queue goes. */
  function CapOf(book: Book, cs: seq<Candidate>, i: JobId, j: JobId, r: nat): int
    requires BookOk(book) && i in book.weight && j in book.weight
  {
    Min(DemandOf(book, i, j, r), Size(cs, j))
  }

  /** The picks that `j` can have paid for by round `r`, as far as its queue goes. */
  function AffordOf(book: Book, cs: seq<Candidate>, j: JobId, r: nat): int
    requires BookOk(book) && j in book.weight
  {
    Min(r * book.weight[j] / book.maxWeight, Size(cs, j))
  }

  function CapTable(book: Book, cs: seq<Candidate>, i: JobId, r: nat): map<JobId, int>
    requires BookOk(book) && i in book.weight
  {
    map j | j in book.weight :: CapOf(book, cs, i, j, r)
  }

  function AffordTable(book: Book, cs: seq<Candidate>, r: nat): map<JobId, int>
    requires BookOk(book)
  {
    map j | j in book.weight :: AffordOf(book, cs, j, r)
  }

  /** The picks that all jobs together can have paid for, round by round. */
  function TotalAfford(book: Book, cs: seq<Candidate>, js: seq<JobId>, i: JobId): nat -> int
    requires BookOk(book) && i in book.weight && forall j :: j in js ==> j in book.weight
  {
    (r: nat) => TotalWith(js, i, AffordTable(book, cs, r))
  }

  /** How many of the first `r` rounds make a pick: each in which more can have been paid for than was picked. */
  function Busy(afford: nat -> int, r: nat): nat {
    if r == 0 then 0
    else
      var before := Busy(afford, r - 1);
      if before < afford(r) then before + 1 else before
  }

  /** In round `r`, if not before, it is the turn of `i`: it can pay, and all picks that precede its first are made. */
  predicate Turn(book: Book, cs: seq<Candidate>, js: seq<JobId>, i: JobId, r: nat)
    requires BookOk(book) && i in book.weight && forall j :: j in js ==> j in book.weight
  {
    r >= 1 && r * book.weight[i] >= book.maxWeight
    && Busy(TotalAfford(book, cs, js, i), r - 1) >= Total(js, CapTable(book, cs, i, r))
  }

  /** The batch reaches its limit before the turn of `i` comes. */
  ghost predicate Passed(book: Book, cs: seq<Candidate>, js: seq<JobId>, i: JobId, limit: nat)
    requires BookOk(book) && i in book.weight && forall j :: j in js ==> j in book.weight
  {
    forall r: nat :: Turn(book, cs, js, i, r) ==> Busy(TotalAfford(book, cs, js, i), r - 1) >= limit
  }

  lemma {:induction false} BusyGrows(afford: nat -> int, m: nat, n: nat)
    requires m <= n
    ensures Busy(afford, m) <= Busy(afford, n) <= Busy(afford, m) + (n - m)
    decreases n
  {
    if m < n {
      BusyGrows(afford, m, n - 1);
    }
  }

  lemma AffordGrows(book: Book, cs: seq<Candidate>, j: JobId, r: nat)
    requires BookOk(book) && j in book.weight
    ensures 0 <= AffordOf(book, cs, j, r) <= AffordOf(book, cs, j, r + 1)
  {
    OneMore(r, book.weight[j]);
    Product(r, 0, book.weight[j]);
    QuotientGrows(r * book.weight[j], r * book.weight[j] + book.weight[j], book.maxWeight);
  }

  // ---- The run against the batch ------------------------------------------------------

  function PickTable(book: Book, s: Rounds): map<JobId, int> {
    map j | j in book.weight :: Picks(s, j)
  }

  lemma QueueSize(cs: seq<Candidate>, s: Rounds, j: JobId)
    requires Conserved(cs, s) && j in s.queues
    ensures Picks(s, j) <= Size(cs, j) && (Backlogged(s, j) <==> Picks(s, j) < Size(cs, j))
  {
    assert |QueueOf(s.picked, j) + s.queues[j]| == Size(cs, j);
  }

  /** What every job with work left has earned is its weight times the rounds. */
  ghost predicate EarnedSoFar(book: Book, s: Rounds, r: nat)
    requires Fits(book, s)
  {
    forall j :: Backlogged(s, j) ==> Earned(book, s, j) == r * book.weight[j]
  }

  lemma AccruedByPicks(book: Book, s: Rounds, r: nat, j: JobId)
    requires Fits(book, s) && EarnedSoFar(book, s, r) && Backlogged(s, j)
    ensures Accrued(book, s, j) == (r + 1) * book.weight[j] - Picks(s, j) * book.maxWeight
  {
    OneMore(r, book.weight[j]);
  }

  lemma EarnedGoesOn(book: Book, s: Rounds, t: Rounds, served: Option<JobId>, r: nat)
    requires Step(book, s, t, served) && EarnedSoFar(book, s, r)
    ensures EarnedSoFar(book, t, r + 1)
  {
    forall j | Backlogged(t, j)
      ensures Earned(book, t, j) == (r + 1) * book.weight[j]
    {
      EarnedStep(book, s, t, served, j);
      OneMore(r, book.weight[j]);
    }
  }

  /** A further pick of `j` can be paid for next exactly when it has work left and the credit. */
  lemma CanAfford(book: Book, cs: seq<Candidate>, s: Rounds, r: nat, j: JobId)
    requires BookOk(book) && Fits(book, s) && Conserved(cs, s) && EarnedSoFar(book, s, r) && j in book.weight
    ensures Picks(s, j) < AffordOf(book, cs, j, r + 1) <==> Backlogged(s, j) && Accrued(book, s, j) >= book.maxWeight
  {
    QueueSize(cs, s, j);
    if Backlogged(s, j) {
      AccruedByPicks(book, s, r, j);
      Product(r + 1, 0, book.weight[j]);
      QuotientExact((r + 1) * book.weight[j], book.maxWeight, Picks(s, j) + 1);
      OneMore(Picks(s, j), book.maxWeight);
    }
  }

  /** A further pick of `j` precedes the first of `i` next exactly when it has work left and comes first. */
  lemma ComesFirst(book: Book, cs: seq<Candidate>, s: Rounds, r: nat, i: JobId, j: JobId)
    requires BookOk(book) && Fits(book, s) && Conserved(cs, s) && EarnedSoFar(book, s, r)
    requires j in book.weight && Backlogged(s, i) && Picks(s, i) == 0
    ensures Picks(s, j) < CapOf(book, cs, i, j, r + 1)
            <==> Backlogged(s, j) && KeyLe(Key(-Accrued(book, s, j), book.priority[j], j),
                                           Key(-Accrued(book, s, i), book.priority[i], i))
  {
    QueueSize(cs, s, j);
    AccruedByPicks(book, s, r, i);
    PrecedesExact(book, i, j, r + 1, Picks(s, j));
    if Backlogged(s, j) {
      AccruedByPicks(book, s, r, j);
    }
  }

  /** No rival has had more picks than precede the first of `i`, and nobody more than it can have paid for. */
  ghost predicate WithinBounds(book: Book, cs: seq<Candidate>, s: Rounds, i: JobId, r: nat)
    requires BookOk(book) && i in book.weight
  {
    forall j :: j in book.weight ==>
      Picks(s, j) <= AffordOf(book, cs, j, r) && (j != i ==> Picks(s, j) <= CapOf(book, cs, i, j, r))
  }

  /** The number of picks so far is that of busy rounds, and all of them were rivals'. */
  ghost predicate Counted(book: Book, cs: seq<Candidate>, s: Rounds, js: seq<JobId>, i: JobId, r: nat)
    requires BookOk(book) && Rivals(book, js, i)
  {
    |s.picked| == Busy(TotalAfford(book, cs, js, i), r) == Total(js, PickTable(book, s))
  }

  ghost predicate NoTurnYet(book: Book, cs: seq<Candidate>, js: seq<JobId>, i: JobId, r: nat)
    requires BookOk(book) && Rivals(book, js, i)
  {
    forall q: nat :: q <= r ==> !Turn(book, cs, js, i, q)
  }

  /** `i` waits for its turn. */
  ghost predicate Waits(book: Book, cs: seq<Candidate>, s: Rounds, js: seq<JobId>, i: JobId, r: nat)
    requires BookOk(book) && Rivals(book, js, i) && Fits(book, s)
  {
    Picks(s, i) == 0 && EarnedSoFar(book, s, r) && WithinBounds(book, cs, s, i, r)
    && Counted(book, cs, s, js, i, r)
  }

  lemma AllTotal(book: Book, cs: seq<Candidate>, s: Rounds, js: seq<JobId>, i: JobId, r: nat)
    requires BookOk(book) && Rivals(book, js, i) && Fits(book, s) && Waits(book, cs, s, js, i, r)
    ensures TotalWith(js, i, PickTable(book, s)) == |s.picked| == Busy(TotalAfford(book, cs, js, i), r)
  {
  }

  lemma BusyIdles(afford: nat -> int, r: nat)
    requires afford(r + 1) <= Busy(afford, r)
    ensures Busy(afford, r + 1) == Busy(afford, r)
  {
  }

  lemma BusyServes(afford: nat -> int, r: nat)
    requires afford(r + 1) > Busy(afford, r)
    ensures Busy(afford, r + 1) == Busy(afford, r) + 1
  {
  }

  /** Entry by entry one table is no larger, and smaller at `b` if it is given. */
  predicate Below(u: map<JobId, int>, v: map<JobId, int>, b: Option<JobId>) {
    u.Keys == v.Keys && (forall j :: j in u ==> u[j] <= v[j]) && (b.Some? ==> b.value in u && u[b.value] < v[b.value])
  }

  lemma TotalWithBelow(js: seq<JobId>, i: JobId, u: map<JobId, int>, v: map<JobId, int>, b: Option<JobId>)
    requires i in u && (forall j :: j in js ==> j in u) && (forall j :: j in u && j != i ==> j in js)
    requires Below(u, v, b)
    ensures TotalWith(js, i, u) <= TotalWith(js, i, v) && (b.Some? ==> TotalWith(js, i, u) < TotalWith(js, i, v))
  {
    TotalLe(js, u, v);
    if b.Some? && b.value != i {
      TotalLt(js, u, v, b.value);
    }
  }

  lemma NobodyCanPay(book: Book, cs: seq<Candidate>, s: Rounds, t: Rounds, r: nat)
    requires BookOk(book) && Step(book, s, t, None) && Conserved(cs, s) && EarnedSoFar(book, s, r)
    ensures Below(AffordTable(book, cs, r + 1), PickTable(book, s), None)
  {
    forall j | j in book.weight
      ensures AffordOf(book, cs, j, r + 1) <= Picks(s, j)
    {
      CanAfford(book, cs, s, r, j);
    }
  }

  lemma StillAffordable(book: Book, cs: seq<Candidate>, s: Rounds, i: JobId, r: nat, b: JobId)
    requires BookOk(book) && i in book.weight && WithinBounds(book, cs, s, i, r)
    requires b in book.weight && Picks(s, b) < AffordOf(book, cs, b, r + 1)
    ensures Below(PickTable(book, s), AffordTable(book, cs, r + 1), Some(b))
  {
    forall j | j in book.weight
      ensures Picks(s, j) <= AffordOf(book, cs, j, r + 1)
    {
      AffordGrows(book, cs, j, r);
    }
  }

  lemma IdleCount(book: Book, cs: seq<Candidate>, js: seq<JobId>, i: JobId, r: nat, picks: map<JobId, int>)
    requires BookOk(book) && Rivals(book, js, i) && Below(AffordTable(book, cs, r + 1), picks, None)
    requires TotalWith(js, i, picks) == Busy(TotalAfford(book, cs, js, i), r)
    ensures Busy(TotalAfford(book, cs, js, i), r + 1) == Busy(TotalAfford(book, cs, js, i), r)
  {
    TotalWithBelow(js, i, AffordTable(book, cs, r + 1), picks, None);
    BusyIdles(TotalAfford(book, cs, js, i), r);
  }

  lemma BusyCount(book: Book, cs: seq<Candidate>, js: seq<JobId>, i: JobId, r: nat, picks: map<JobId, int>, b: JobId)
    requires BookOk(book) && Rivals(book, js, i) && Below(picks, AffordTable(book, cs, r + 1), Some(b))
    requires TotalWith(js, i, picks) == Busy(TotalAfford(book, cs, js, i), r)
    ensures Busy(TotalAfford(book, cs, js, i), r + 1) == Busy(TotalAfford(book, cs, js, i), r) + 1
  {
    TotalWithBelow(js, i, picks, AffordTable(book, cs, r + 1), Some(b));
    BusyServes(TotalAfford(book, cs, js, i), r);
  }

  lemma ServedWasPaid(book: Book, cs: seq<Candidate>, s: Rounds, t: Rounds, b: JobId, i: JobId, r: nat)
    requires BookOk(book) && i in book.weight && Step(book, s, t, Some(b)) && Conserved(cs, s)
    requires EarnedSoFar(book, s, r) && WithinBounds(book, cs, s, i, r)
    ensures Below(PickTable(book, s), AffordTable(book, cs, r + 1), Some(b))
  {
    CanAfford(book, cs, s, r, b);
    StillAffordable(book, cs, s, i, r, b);
  }

  /** A round makes a pick exactly when more can have been paid for than is picked. */
  lemma IdleExact(book: Book, cs: seq<Candidate>, s: Rounds, t: Rounds, served: Option<JobId>, js: seq<JobId>,
                  i: JobId, r: nat)
    requires BookOk(book) && Rivals(book, js, i) && Step(book, s, t, served) && Conserved(cs, s)
    requires Waits(book, cs, s, js, i, r)
    ensures |t.picked| == Busy(TotalAfford(book, cs, js, i), r + 1)
  {
    AllTotal(book, cs, s, js, i, r);
    match served
    case None =>
      NobodyCanPay(book, cs, s, t, r);
      IdleCount(book, cs, js, i, r, PickTable(book, s));
    case Some(b) =>
      ServedWasPaid(book, cs, s, t, b, i, r);
      BusyCount(book, cs, js, i, r, PickTable(book, s), b);
  }

  /** If the first pick goes to `i`, it was its turn. */
  lemma ServedInTurn(book: Book, cs: seq<Candidate>, s: Rounds, t: Rounds, js: seq<JobId>, i: JobId, r: nat)
    requires BookOk(book) && Rivals(book, js, i) && Step(book, s, t, Some(i)) && Conserved(cs, s)
    requires Waits(book, cs, s, js, i, r) && ServedFirst(book, s, i)
    ensures Turn(book, cs, js, i, r + 1)
  {
    var picks, cap := PickTable(book, s), CapTable(book, cs, i, r + 1);
    AccruedByPicks(book, s, r, i);
    forall j | j in js
      ensures j in picks && j in cap && cap[j] <= picks[j]
    {
      ComesFirst(book, cs, s, r, i, j);
      if picks[j] < cap[j] {
        KeyAntisymmetric(Key(-Accrued(book, s, i), book.priority[i], i),
                         Key(-Accrued(book, s, j), book.priority[j], j));
      }
    }
    TotalLe(js, cap, picks);
  }

  /** If another job is served, it preceded `i`. */
  lemma ServedAhead(book: Book, cs: seq<Candidate>, s: Rounds, t: Rounds, b: JobId, js: seq<JobId>, i: JobId, r: nat)
    requires BookOk(book) && Rivals(book, js, i) && Step(book, s, t, Some(b)) && Conserved(cs, s) && b != i
    requires Waits(book, cs, s, js, i, r) && ServedFirst(book, s, b) && Backlogged(s, i)
    ensures b in js && Picks(s, b) < CapOf(book, cs, i, b, r + 1) && Picks(s, b) < AffordOf(book, cs, b, r + 1)
  {
    ComesFirst(book, cs, s, r, i, b);
    CanAfford(book, cs, s, r, b);
  }

  lemma CapGrows(book: Book, cs: seq<Candidate>, i: JobId, j: JobId, r: nat)
    requires BookOk(book) && i in book.weight && j in book.weight
    ensures CapOf(book, cs, i, j, r) <= CapOf(book, cs, i, j, r + 1)
  {
    DemandGrows(book, i, j, r);
  }

  lemma BoundsGoOn(book: Book, cs: seq<Candidate>, s: Rounds, t: Rounds, served: Option<JobId>, i: JobId, r: nat)
    requires BookOk(book) && i in book.weight && WithinBounds(book, cs, s, i, r)
    requires forall j :: Picks(t, j) == Picks(s, j) + if served == Some(j) then 1 else 0
    requires match served
             case None => true
             case Some(b) => b in book.weight && b != i && Picks(s, b) < CapOf(book, cs, i, b, r + 1)
                             && Picks(s, b) < AffordOf(book, cs, b, r + 1)
    ensures WithinBounds(book, cs, t, i, r + 1)
  {
    forall j | j in book.weight
      ensures Picks(t, j) <= AffordOf(book, cs, j, r + 1) && (j != i ==> Picks(t, j) <= CapOf(book, cs, i, j, r + 1))
    {
      CapGrows(book, cs, i, j, r);
      AffordGrows(book, cs, j, r);
    }
  }

  lemma CapNotCovered(book: Book, cs: seq<Candidate>, js: seq<JobId>, i: JobId, r: nat, picks: map<JobId, int>,
                      b: JobId)
    requires BookOk(book) && Rivals(book, js, i) && picks.Keys == book.weight.Keys
    requires Total(js, picks) == Busy(TotalAfford(book, cs, js, i), r)
    requires forall j :: j in js ==> picks[j] <= CapOf(book, cs, i, j, r + 1)
    requires b in js && picks[b] < CapOf(book, cs, i, b, r + 1)
    ensures !Turn(book, cs, js, i, r + 1)
  {
    TotalLt(js, picks, CapTable(book, cs, i, r + 1), b);
  }

  lemma StillWithinCap(book: Book, cs: seq<Candidate>, s: Rounds, i: JobId, r: nat)
    requires BookOk(book) && i in book.weight && WithinBounds(book, cs, s, i, r)
    ensures forall j :: j in book.weight && j != i ==> Picks(s, j) <= CapOf(book, cs, i, j, r + 1)
  {
    forall j | j in book.weight && j != i
      ensures Picks(s, j) <= CapOf(book, cs, i, j, r + 1)
    {
      CapGrows(book, cs, i, j, r);
    }
  }

  lemma IdleIsNoTurn(book: Book, cs: seq<Candidate>, s: Rounds, t: Rounds, js: seq<JobId>, i: JobId, r: nat)
    requires BookOk(book) && Rivals(book, js, i) && Step(book, s, t, None) && EarnedSoFar(book, s, r)
    requires Backlogged(s, i) && Picks(s, i) == 0
    ensures !Turn(book, cs, js, i, r + 1)
  {
    AccruedByPicks(book, s, r, i);
  }

  lemma AheadIsNoTurn(book: Book, cs: seq<Candidate>, s: Rounds, b: JobId, js: seq<JobId>, i: JobId, r: nat)
    requires BookOk(book) && Rivals(book, js, i) && WithinBounds(book, cs, s, i, r) && Counted(book, cs, s, js, i, r)
    requires b in js && Picks(s, b) < CapOf(book, cs, i, b, r + 1)
    ensures !Turn(book, cs, js, i, r + 1)
  {
    StillWithinCap(book, cs, s, i, r);
    CapNotCovered(book, cs, js, i, r, PickTable(book, s), b);
  }

  lemma NotItsTurn(book: Book, cs: seq<Candidate>, s: Rounds, t: Rounds, served: Option<JobId>, js: seq<JobId>,
                   i: JobId, r: nat)
    requires BookOk(book) && Rivals(book, js, i) && Step(book, s, t, served) && Conserved(cs, s)
    requires Waits(book, cs, s, js, i, r) && Backlogged(s, i) && served != Some(i)
    requires served.Some? ==> ServedFirst(book, s, served.value)
    ensures !Turn(book, cs, js, i, r + 1)
  {
    match served
    case None =>
      IdleIsNoTurn(book, cs, s, t, js, i, r);
    case Some(b) =>
      ServedAhead(book, cs, s, t, b, js, i, r);
      AheadIsNoTurn(book, cs, s, b, js, i, r);
  }

  lemma CountGoesOn(book: Book, s: Rounds, t: Rounds, served: Option<JobId>, js: seq<JobId>, i: JobId)
    requires Rivals(book, js, i) && Step(book, s, t, served) && served != Some(i)
    ensures Total(js, PickTable(book, t)) == Total(js, PickTable(book, s)) + if served.Some? then 1 else 0
  {
    match served
    case None =>
      TotalLe(js, PickTable(book, s), PickTable(book, t));
      TotalLe(js, PickTable(book, t), PickTable(book, s));
    case Some(b) =>
      TotalBump(js, PickTable(book, s), PickTable(book, t), b);
  }

  lemma StepKeepsBounds(book: Book, cs: seq<Candidate>, s: Rounds, t: Rounds, served: Option<JobId>, js: seq<JobId>,
                        i: JobId, r: nat)
    requires BookOk(book) && Rivals(book, js, i) && Step(book, s, t, served) && Conserved(cs, s)
    requires Waits(book, cs, s, js, i, r) && Backlogged(s, i) && served != Some(i)
    requires served.Some? ==> ServedFirst(book, s, served.value)
    ensures WithinBounds(book, cs, t, i, r + 1)
  {
    if served.Some? {
      ServedAhead(book, cs, s, t, served.value, js, i, r);
    }
    BoundsGoOn(book, cs, s, t, served, i, r);
  }

  lemma StepKeepsWaiting(book: Book, cs: seq<Candidate>, s: Rounds, t: Rounds, served: Option<JobId>, js: seq<JobId>,
                         i: JobId, r: nat)
    requires BookOk(book) && Rivals(book, js, i) && Step(book, s, t, served) && Conserved(cs, s)
    requires Waits(book, cs, s, js, i, r) && Backlogged(s, i) && served != Some(i)
    requires served.Some? ==> ServedFirst(book, s, served.value)
    ensures Waits(book, cs, t, js, i, r + 1)
  {
    StepKeepsBounds(book, cs, s, t, served, js, i, r);
    IdleExact(book, cs, s, t, served, js, i, r);
    EarnedGoesOn(book, s, t, served, r);
    CountGoesOn(book, s, t, served, js, i);
  }

  /** Served at last, in its turn and before the limit. */
  ghost predicate HadTurn(book: Book, cs: seq<Candidate>, s: Rounds, js: seq<JobId>, i: JobId, limit: nat)
    requires BookOk(book) && Rivals(book, js, i)
  {
    Picks(s, i) > 0 && !Passed(book, cs, js, i, limit)
  }

  ghost predicate Standing(book: Book, cs: seq<Candidate>, s: Rounds, js: seq<JobId>, i: JobId, r: nat, limit: nat)
    requires BookOk(book) && Rivals(book, js, i) && Fits(book, s)
  {
    HadTurn(book, cs, s, js, i, limit) || (Waits(book, cs, s, js, i, r) && NoTurnYet(book, cs, js, i, r))
  }

  lemma TurnTaken(book: Book, cs: seq<Candidate>, t: Rounds, js: seq<JobId>, i: JobId, r: nat, limit: nat)
    requires BookOk(book) && Rivals(book, js, i) && Picks(t, i) > 0
    requires Turn(book, cs, js, i, r + 1) && Busy(TotalAfford(book, cs, js, i), r) < limit
    ensures HadTurn(book, cs, t, js, i, limit)
  {
    assert Turn(book, cs, js, i, r + 1) && Busy(TotalAfford(book, cs, js, i), r + 1 - 1) < limit;
  }

  lemma NoTurnStill(book: Book, cs: seq<Candidate>, js: seq<JobId>, i: JobId, r: nat)
    requires BookOk(book) && Rivals(book, js, i) && NoTurnYet(book, cs, js, i, r) && !Turn(book, cs, js, i, r + 1)
    ensures NoTurnYet(book, cs, js, i, r + 1)
  {
    forall q: nat | q <= r + 1
      ensures !Turn(book, cs, js, i, q)
    {
      assert q <= r || q == r + 1;
    }
  }

  lemma StepKeepsStanding(book: Book, cs: seq<Candidate>, s: Rounds, t: Rounds, served: Option<JobId>, js: seq<JobId>,
                          i: JobId, r: nat, limit: nat)
    requires BookOk(book) && Rivals(book, js, i) && Step(book, s, t, served) && Conserved(cs, s)
    requires served.Some? ==> ServedFirst(book, s, served.value)
    requires |s.picked| < limit && Backlogged(s, i) && Waits(book, cs, s, js, i, r) && NoTurnYet(book, cs, js, i, r)
    ensures Standing(book, cs, t, js, i, r + 1, limit)
  {
    if served == Some(i) {
      ServedInTurn(book, cs, s, t, js, i, r);
      TurnTaken(book, cs, t, js, i, r, limit);
    } else {
      StepKeepsWaiting(book, cs, s, t, served, js, i, r);
      NotItsTurn(book, cs, s, t, served, js, i, r);
      NoTurnStill(book, cs, js, i, r);
    }
  }

  lemma RoundKeepsStanding(book: Book, cs: seq<Candidate>, s: Rounds, js: seq<JobId>, i: JobId, r: nat, limit: nat)
    requires BookOk(book) && Rivals(book, js, i) && Fits(book, s) && Conserved(cs, s) && |s.picked| < limit
    requires i in s.queues && Size(cs, i) > 0
    requires Standing(book, cs, s, js, i, r, limit)
    ensures Standing(book, cs, NextRound(book, s), js, i, r + 1, limit)
  {
    var t, served := NextRound(book, s), Served(book, s);
    RoundIsStep(book, cs, s);
    if HadTurn(book, cs, s, js, i, limit) {
      assert Picks(t, i) >= Picks(s, i);
    } else {
      if served.Some? {
        ServedIsFirst(book, s);
      }
      QueueSize(cs, s, i);
      StepKeepsStanding(book, cs, s, t, served, js, i, r, limit);
    }
  }

  lemma {:induction false} RunKeepsStanding(book: Book, cs: seq<Candidate>, s: Rounds, limit: nat, idle: nat,
                                            js: seq<JobId>, i: JobId, r: nat) returns (n: nat)
    requires Running(book, s, idle) && BookOk(book) && Rivals(book, js, i) && Conserved(cs, s)
    requires i in s.queues && Size(cs, i) > 0
    requires Standing(book, cs, s, js, i, r, limit)
    ensures Fits(book, Run(book, s, limit, idle)) && Standing(book, cs, Run(book, s, limit, idle), js, i, n, limit)
    decreases limit - |s.picked|, book.maxWeight - idle
  {
    n := r;
    if |s.picked| < limit && WorkLeft(s) {
      RoundKeepsRunning(book, s, idle);
      RoundPicks(book, cs, s);
      RoundKeepsStanding(book, cs, s, js, i, r, limit);
      n := RunKeepsStanding(book, cs, NextRound(book, s), limit, NextIdle(book, s, idle), js, i, r + 1);
    }
  }

  lemma {:induction false} NoPicksYet(book: Book, s: Rounds, js: seq<JobId>)
    requires s.picked == [] && forall j :: j in js ==> j in book.weight
    ensures Total(js, PickTable(book, s)) == 0
  {
    if js != [] {
      NoPicksYet(book, s, js[1..]);
    }
  }

  lemma StartBounds(book: Book, cs: seq<Candidate>, s: Rounds, i: JobId)
    requires BookOk(book) && i in book.weight && s.picked == []
    ensures WithinBounds(book, cs, s, i, 0)
  {
    forall j | j in book.weight
      ensures 0 <= AffordOf(book, cs, j, 0) && 0 <= CapOf(book, cs, i, j, 0)
    {
      AffordGrows(book, cs, j, 0);
      DemandGrows(book, i, j, 0);
    }
  }

  lemma StartEarned(book: Book, cs: seq<Candidate>)
    requires Fits(book, Start(cs))
    ensures EarnedSoFar(book, Start(cs), 0)
  {
  }

  lemma StartStanding(book: Book, cs: seq<Candidate>, js: seq<JobId>, i: JobId, limit: nat)
    requires BookOk(book) && Fits(book, Start(cs)) && Rivals(book, js, i)
    ensures Standing(book, cs, Start(cs), js, i, 0, limit)
  {
    NoPicksYet(book, Start(cs), js);
    StartBounds(book, cs, Start(cs), i);
    StartEarned(book, cs);
  }

  lemma HeaviestJob(weights: PollWeights, candidates: seq<Candidate>) returns (top: JobId)
    requires weights.Positive() && candidates != []
    ensures var book := BatchBook(weights, candidates);
            top in book.weight && book.weight[top] == book.maxWeight >= 1
  {
    assert |Arrivals(candidates)| == |candidates|;
    var cs := Arrivals(candidates);
    var book := BatchBook(weights, candidates);
    top :| top in JobsOf(cs) && book.weight[top] == book.maxWeight;
    assert book.weight[top] == weights.Of(JobPriority(cs, top));
  }

  lemma BatchBookOk(weights: PollWeights, candidates: seq<Candidate>)
    requires weights.Positive() && candidates != []
    ensures BookOk(BatchBook(weights, candidates))
  {
    var cs := Arrivals(candidates);
    assert |cs| == |candidates|;
    StartRuns(weights, cs);
    var top := HeaviestJob(weights, candidates);
  }

  /** After how many rounds the batch ends if `i` gets nothing: its limit is reached before the turn of `i`. */
  lemma BatchRounds(weights: PollWeights, candidates: seq<Candidate>, limit: nat, js: seq<JobId>, i: JobId)
    returns (n: nat)
    requires weights.Positive() && candidates != [] && limit > 0
    requires Rivals(BatchBook(weights, candidates), js, i)
    ensures var book, cs := BatchBook(weights, candidates), Arrivals(candidates);
            && BookOk(book)
            && if PickCount(weights, candidates, limit, i) > 0 then !Passed(book, cs, js, i, limit)
               else Busy(TotalAfford(book, cs, js, i), n) == limit && NoTurnYet(book, cs, js, i, n)
  {
    var cs, book := Arrivals(candidates), BatchBook(weights, candidates);
    BatchBookOk(weights, candidates);
    Setup(weights, candidates, limit);
    QueueHoldsJob(cs, i);
    StartStanding(book, cs, js, i, limit);
    n := RunKeepsStanding(book, cs, Start(cs), limit, 0, js, i, 0);
    FinalConserved(weights, candidates, limit);
    var r := Final(weights, candidates, limit);
    if PickCount(weights, candidates, limit, i) == 0 {
      UnpickedIsBacklogged(cs, r, i);
      assert WorkLeft(r);
    }
  }

  /**
   * Exactly when a job gets nothing, in every batch and at every limit: `i` goes without a pick if and only if the
   * picks of the busy rounds reach the limit before they cover all that precede its first one. Both are counted from
   * the weights, priorities, ids and queue lengths of the batch alone.
   */
  lemma StarvationExact(weights: PollWeights, candidates: seq<Candidate>, limit: nat, js: seq<JobId>, i: JobId)
    requires weights.Positive() && candidates != [] && Rivals(BatchBook(weights, candidates), js, i)
    ensures BookOk(BatchBook(weights, candidates))
    ensures PickCount(weights, candidates, limit, i) == 0
            <==> Passed(BatchBook(weights, candidates), Arrivals(candidates), js, i, limit)
  {
    var cs, book := Arrivals(candidates), BatchBook(weights, candidates);
    BatchBookOk(weights, candidates);
    if limit > 0 {
      var n := BatchRounds(weights, candidates, limit, js, i);
      if PickCount(weights, candidates, limit, i) == 0 {
        LimitReached(book, cs, js, i, limit, n);
      }
    }
  }

  lemma TurnComesLater(book: Book, cs: seq<Candidate>, js: seq<JobId>, i: JobId, n: nat, r: nat)
    requires BookOk(book) && Rivals(book, js, i) && NoTurnYet(book, cs, js, i, n) && Turn(book, cs, js, i, r)
    ensures n < r
  {
  }

  lemma BusyPast(afford: nat -> int, limit: nat, n: nat, r: nat)
    requires n < r && Busy(afford, n) == limit
    ensures Busy(afford, r - 1) >= limit
  {
    BusyGrows(afford, n, r - 1);
  }

  lemma LimitReached(book: Book, cs: seq<Candidate>, js: seq<JobId>, i: JobId, limit: nat, n: nat)
    requires BookOk(book) && Rivals(book, js, i)
    requires Busy(TotalAfford(book, cs, js, i), n) == limit && NoTurnYet(book, cs, js, i, n)
    ensures Passed(book, cs, js, i, limit)
  {
    forall r: nat | Turn(book, cs, js, i, r)
      ensures Busy(TotalAfford(book, cs, js, i), r - 1) >= limit
    {
      TurnComesLater(book, cs, js, i, n, r);
      BusyPast(TotalAfford(book, cs, js, i), limit, n, r);
    }
  }
}
