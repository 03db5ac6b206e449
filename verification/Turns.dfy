/** When the turn of a job comes: over deep queues, and in every batch long enough for the surplus of its rivals. */
module Turns {
  import opened Fairness
  import opened FairnessTheorems
  import opened Starvation
  import opened FirstPick

  // ---- Deep queues ---------------------------------------------------------------

  function DemandTable(book: Book, i: JobId, r: nat): map<JobId, int>
    requires BookOk(book) && i in book.weight
  {
    map j | j in book.weight :: DemandOf(book, i, j, r)
  }

  /** In each of the first `n` rounds there was someone to serve before `i`. */
  predicate Outlasts(book: Book, js: seq<JobId>, i: JobId, n: nat)
    requires BookOk(book) && i in book.weight && forall j :: j in js ==> j in book.weight
  {
    forall r: nat :: 1 <= r <= n ==> Total(js, DemandTable(book, i, r)) >= r
  }

  lemma TopAffords(book: Book, cs: seq<Candidate>, top: JobId, r: nat)
    requires BookOk(book) && top in book.weight && book.weight[top] == book.maxWeight
    ensures AffordOf(book, cs, top, r) == Min(r, Size(cs, top))
  {
    QuotientExact(r * book.maxWeight, book.maxWeight, r);
    QuotientExact(r * book.maxWeight, book.maxWeight, r + 1);
    OneMore(r, book.maxWeight);
    Product(r, 0, book.maxWeight);
  }

  lemma AffordNonNegative(book: Book, cs: seq<Candidate>, r: nat)
    requires BookOk(book)
    ensures forall j :: j in book.weight ==> AffordTable(book, cs, r)[j] >= 0
  {
    forall j | j in book.weight
      ensures AffordOf(book, cs, j, r) >= 0
    {
      AffordGrows(book, cs, j, r);
    }
  }

  lemma CapNonNegative(book: Book, cs: seq<Candidate>, i: JobId, r: nat)
    requires BookOk(book) && i in book.weight
    ensures forall j :: j in book.weight ==> CapTable(book, cs, i, r)[j] >= 0 && DemandTable(book, i, r)[j] >= 0
  {
    forall j | j in book.weight
      ensures DemandOf(book, i, j, r) >= 0
    {
      DemandGrows(book, i, j, r);
    }
  }

  lemma TopHolds(book: Book, cs: seq<Candidate>, js: seq<JobId>, i: JobId, top: JobId, r: nat)
    requires BookOk(book) && i in book.weight && (forall j :: j in js ==> j in book.weight) && (top == i || top in js)
    requires book.weight[top] == book.maxWeight
    ensures TotalWith(js, i, AffordTable(book, cs, r)) >= Min(r, Size(cs, top))
  {
    TopAffords(book, cs, top, r);
    AffordNonNegative(book, cs, r);
    if top == i {
      TotalNonNegative(js, AffordTable(book, cs, r));
    } else {
      TotalHolds(js, AffordTable(book, cs, r), top);
    }
  }

  lemma NextBusy(book: Book, cs: seq<Candidate>, js: seq<JobId>, i: JobId, top: JobId, r: nat)
    requires BookOk(book) && i in book.weight && (forall j :: j in js ==> j in book.weight) && (top == i || top in js)
    requires book.weight[top] == book.maxWeight && 1 <= r <= Size(cs, top)
    requires Busy(TotalAfford(book, cs, js, i), r - 1) == r - 1
    ensures Busy(TotalAfford(book, cs, js, i), r) == r
  {
    TopHolds(book, cs, js, i, top, r);
  }

  /** While the heaviest job has work, no round idles. */
  lemma {:induction false} DeepBusy(book: Book, cs: seq<Candidate>, js: seq<JobId>, i: JobId, top: JobId, r: nat)
    requires BookOk(book) && i in book.weight && (forall j :: j in js ==> j in book.weight) && (top == i || top in js)
    requires book.weight[top] == book.maxWeight && r <= Size(cs, top)
    ensures Busy(TotalAfford(book, cs, js, i), r) == r
  {
    if r > 0 {
      DeepBusy(book, cs, js, i, top, r - 1);
      NextBusy(book, cs, js, i, top, r);
    }
  }

  /** A job that cannot pay is preceded by the heaviest in every round. */
  lemma PoorIsPreceded(book: Book, i: JobId, top: JobId, r: nat)
    requires BookOk(book) && i in book.weight && top in book.weight && book.weight[top] == book.maxWeight
    requires r >= 1 && r * book.weight[i] < book.maxWeight
    ensures DemandOf(book, i, top, r) >= r
  {
    OneMore(r - 1, book.maxWeight);
    PrecedesExact(book, i, top, r, r - 1);
  }

  lemma CapIsDemand(book: Book, cs: seq<Candidate>, js: seq<JobId>, i: JobId, r: nat)
    requires BookOk(book) && Rivals(book, js, i) && forall j :: j in js ==> Size(cs, j) >= r
    ensures Total(js, CapTable(book, cs, i, r)) < r <==> Total(js, DemandTable(book, i, r)) < r
  {
    var cap, demand := CapTable(book, cs, i, r), DemandTable(book, i, r);
    TotalLe(js, cap, demand);
    if Total(js, cap) < r {
      CapNonNegative(book, cs, i, r);
      forall j | j in js
        ensures demand[j] <= cap[j]
      {
        TotalHolds(js, cap, j);
      }
      TotalLe(js, demand, cap);
    }
  }

  lemma DeepPoor(book: Book, js: seq<JobId>, i: JobId, top: JobId, r: nat)
    requires BookOk(book) && Rivals(book, js, i) && r >= 1
    requires top in book.weight && book.weight[top] == book.maxWeight && r * book.weight[i] < book.maxWeight
    ensures Total(js, DemandTable(book, i, r)) >= r
  {
    Product(r, 1, book.weight[i]);
    PoorIsPreceded(book, i, top, r);
    CapNonNegative(book, [], i, r);
    TotalHolds(js, DemandTable(book, i, r), top);
  }

  /** None of the first `limit` rounds idles. */
  ghost predicate Brisk(afford: nat -> int, limit: nat) {
    forall r: nat :: r <= limit ==> Busy(afford, r) == r
  }

  /** Every queue holds at least `limit` candidates. */
  ghost predicate AllDeep(book: Book, cs: seq<Candidate>, limit: nat) {
    forall j :: j in book.weight ==> Size(cs, j) >= limit
  }

  /** While no queue is exhausted, the heaviest job keeps every round busy. */
  lemma DeepIsBrisk(book: Book, cs: seq<Candidate>, js: seq<JobId>, i: JobId, top: JobId, limit: nat)
    requires BookOk(book) && Rivals(book, js, i) && AllDeep(book, cs, limit)
    requires top in book.weight && book.weight[top] == book.maxWeight
    ensures Brisk(TotalAfford(book, cs, js, i), limit)
  {
    forall r: nat | r <= limit
      ensures Busy(TotalAfford(book, cs, js, i), r) == r
    {
      DeepBusy(book, cs, js, i, top, r);
    }
  }

  lemma CameBelowCap(book: Book, cs: seq<Candidate>, js: seq<JobId>, i: JobId, limit: nat, r: nat)
    requires BookOk(book) && Rivals(book, js, i) && Brisk(TotalAfford(book, cs, js, i), limit)
    requires Turn(book, cs, js, i, r) && r <= limit
    ensures Total(js, CapTable(book, cs, i, r)) < r
  {
  }

  lemma CameBelow(book: Book, cs: seq<Candidate>, js: seq<JobId>, i: JobId, limit: nat, r: nat)
    requires BookOk(book) && Rivals(book, js, i) && AllDeep(book, cs, limit) && r <= limit
    requires Total(js, CapTable(book, cs, i, r)) < r
    ensures Total(js, DemandTable(book, i, r)) < r
  {
    CapIsDemand(book, cs, js, i, r);
  }

  lemma CapBelow(book: Book, cs: seq<Candidate>, js: seq<JobId>, i: JobId, r: nat)
    requires BookOk(book) && Rivals(book, js, i)
    requires Total(js, DemandTable(book, i, r)) < r
    ensures Total(js, CapTable(book, cs, i, r)) < r
  {
    TotalLe(js, CapTable(book, cs, i, r), DemandTable(book, i, r));
  }

  lemma DeepPays(book: Book, js: seq<JobId>, i: JobId, top: JobId, r: nat)
    requires BookOk(book) && Rivals(book, js, i) && r >= 1
    requires top in book.weight && book.weight[top] == book.maxWeight && Total(js, DemandTable(book, i, r)) < r
    ensures r * book.weight[i] >= book.maxWeight
  {
    if r * book.weight[i] < book.maxWeight {
      DeepPoor(book, js, i, top, r);
    }
  }

  lemma MustCome(book: Book, cs: seq<Candidate>, js: seq<JobId>, i: JobId, limit: nat, r: nat)
    requires BookOk(book) && Rivals(book, js, i) && Brisk(TotalAfford(book, cs, js, i), limit) && 1 <= r <= limit
    requires Total(js, CapTable(book, cs, i, r)) < r && r * book.weight[i] >= book.maxWeight
    ensures Turn(book, cs, js, i, r)
  {
  }

  /** The turn of a job the batch passes comes after its limit. */
  lemma PassedTurn(book: Book, cs: seq<Candidate>, js: seq<JobId>, i: JobId, limit: nat, r: nat)
    requires BookOk(book) && Rivals(book, js, i) && Passed(book, cs, js, i, limit) && Turn(book, cs, js, i, r)
    requires Brisk(TotalAfford(book, cs, js, i), limit)
    ensures limit < r
  {
  }

  lemma DeepNotYet(book: Book, cs: seq<Candidate>, js: seq<JobId>, i: JobId, top: JobId, limit: nat, r: nat)
    requires BookOk(book) && Rivals(book, js, i) && Passed(book, cs, js, i, limit) && 1 <= r <= limit
    requires top in book.weight && book.weight[top] == book.maxWeight && Brisk(TotalAfford(book, cs, js, i), limit)
    ensures Total(js, DemandTable(book, i, r)) >= r
  {
    if Total(js, DemandTable(book, i, r)) < r {
      CapBelow(book, cs, js, i, r);
      DeepPays(book, js, i, top, r);
      MustCome(book, cs, js, i, limit, r);
      PassedTurn(book, cs, js, i, limit, r);
    }
  }

  lemma DeepTooEarly(book: Book, cs: seq<Candidate>, js: seq<JobId>, i: JobId, limit: nat, r: nat)
    requires BookOk(book) && Rivals(book, js, i) && Outlasts(book, js, i, limit) && Turn(book, cs, js, i, r)
    requires AllDeep(book, cs, limit) && Brisk(TotalAfford(book, cs, js, i), limit)
    ensures limit < r
  {
    if r <= limit {
      CameBelowCap(book, cs, js, i, limit, r);
      CameBelow(book, cs, js, i, limit, r);
    }
  }

  lemma OutlastsPasses(book: Book, cs: seq<Candidate>, js: seq<JobId>, i: JobId, limit: nat)
    requires BookOk(book) && Rivals(book, js, i) && Outlasts(book, js, i, limit)
    requires AllDeep(book, cs, limit) && Brisk(TotalAfford(book, cs, js, i), limit)
    ensures Passed(book, cs, js, i, limit)
  {
    forall r: nat | Turn(book, cs, js, i, r)
      ensures Busy(TotalAfford(book, cs, js, i), r - 1) >= limit
    {
      DeepTooEarly(book, cs, js, i, limit, r);
      BusyPast(TotalAfford(book, cs, js, i), limit, limit, r);
    }
  }

  lemma DeepPassed(book: Book, cs: seq<Candidate>, js: seq<JobId>, i: JobId, top: JobId, limit: nat)
    requires BookOk(book) && Rivals(book, js, i) && AllDeep(book, cs, limit)
    requires top in book.weight && book.weight[top] == book.maxWeight && Brisk(TotalAfford(book, cs, js, i), limit)
    ensures Passed(book, cs, js, i, limit) <==> Outlasts(book, js, i, limit)
  {
    if Passed(book, cs, js, i, limit) {
      forall r: nat | 1 <= r <= limit
        ensures Total(js, DemandTable(book, i, r)) >= r
      {
        DeepNotYet(book, cs, js, i, top, limit, r);
      }
    } else if Outlasts(book, js, i, limit) {
      OutlastsPasses(book, cs, js, i, limit);
    }
  }

  // ---- The surplus of heavier rivals --------------------------------------------------

  /** What `j` weighs beyond `i`. */
  function Gap(book: Book, i: JobId, j: JobId): (gap: nat)
    requires i in book.weight && j in book.weight
  {
    if book.weight[j] > book.weight[i] then book.weight[j] - book.weight[i] else 0
  }

  /** What the rivals heavier than `i` weigh beyond it in total. */
  function Surplus(book: Book, js: seq<JobId>, i: JobId): nat
    requires i in book.weight && forall j :: j in js ==> j in book.weight
  {
    if js == [] then 0 else Gap(book, i, js[0]) + Surplus(book, js[1..], i)
  }

  /** `demand` picks cost no more than one pick for each of `n` rivals and `pressure` a round. */
  predicate Covered(demand: int, price: int, n: nat, r: nat, pressure: int) {
    demand * price <= n * price + r * pressure
  }

  lemma CeilingCovered(d: int, price: int, r: nat, gap: nat)
    requires 0 <= d <= r * gap && price >= 1
    ensures Covered(d / price + 1, price, 1, r, gap) && Covered((d + price - 1) / price, price, 1, r, gap)
  {
    QuotientExact(d, price, d / price);
    OneMore(d / price, price);
    QuotientExact(d + price - 1, price, (d + price - 1) / price);
  }

  lemma OneDemandCovered(book: Book, i: JobId, j: JobId, r: nat)
    requires i in book.weight && j in book.weight && i in book.priority && j in book.priority && book.maxWeight >= 1
    ensures Covered(DemandOf(book, i, j, r), book.maxWeight, 1, r, Gap(book, i, j))
  {
    var d, price := r * (book.weight[j] - book.weight[i]), book.maxWeight;
    Product(r, 0, Gap(book, i, j));
    if d >= 0 && r > 0 {
      if book.weight[j] < book.weight[i] {
        Product(r, 1, book.weight[i] - book.weight[j]);
        assert false;
      }
      CeilingCovered(d, price, r, Gap(book, i, j));
    }
  }

  lemma NothingCovered(price: int, r: nat)
    ensures Covered(0, price, 0, r, 0)
  {
  }

  lemma CoveredAdds(a: int, b: int, price: int, m: nat, n: nat, r: nat, p: int, q: int)
    requires Covered(a, price, m, r, p) && Covered(b, price, n, r, q)
    ensures Covered(a + b, price, m + n, r, p + q)
  {
    assert (a + b) * price == a * price + b * price;
    assert (m + n) * price == m * price + n * price;
    assert r * (p + q) == r * p + r * q;
  }

  lemma {:induction false} DemandCovered(book: Book, js: seq<JobId>, i: JobId, r: nat)
    requires BookOk(book) && i in book.weight && forall j :: j in js ==> j in book.weight
    ensures Covered(Total(js, DemandTable(book, i, r)), book.maxWeight, |js|, r, Surplus(book, js, i))
  {
    if js == [] {
      NothingCovered(book.maxWeight, r);
    } else {
      DemandCovered(book, js[1..], i, r);
      OneDemandCovered(book, i, js[0], r);
      CoveredAdds(DemandOf(book, i, js[0], r), Total(js[1..], DemandTable(book, i, r)), book.maxWeight, 1, |js| - 1, r,
                  Gap(book, i, js[0]), Surplus(book, js[1..], i));
    }
  }

  /** A batch long enough for every rival to have a turn on top of what the heavier ones earn. */
  predicate LongEnough(limit: nat, price: int, pressure: int, rivals: nat) {
    limit * (price - pressure) > price * rivals
  }

  lemma RoomInBatch(demand: int, limit: nat, price: int, pressure: int, rivals: nat)
    requires price >= 1 && Covered(demand, price, rivals, limit, pressure) && LongEnough(limit, price, pressure, rivals)
    ensures demand < limit
  {
    assert limit * (price - pressure) == limit * price - limit * pressure;
    if demand >= limit {
      Product(demand, limit, price);
    }
  }

  lemma SomeRoom(limit: nat, price: int, pressure: int, rivals: nat)
    requires price >= 1 && LongEnough(limit, price, pressure, rivals)
    ensures limit >= 1
  {
    Product(rivals, 0, price);
  }

  // ---- A batch in which the heaviest job runs out ---------------------------------------

  /** The surplus without one job, and the picks the others can have ahead beside the `p` of that job. */
  function SurplusBut(book: Book, js: seq<JobId>, i: JobId, top: JobId): nat
    requires i in book.weight && forall j :: j in js ==> j in book.weight
  {
    if js == [] then 0
    else (if js[0] == top then 0 else Gap(book, i, js[0])) + SurplusBut(book, js[1..], i, top)
  }

  function Slots(js: seq<JobId>, top: JobId, p: nat): nat {
    if js == [] then 0 else (if js[0] == top then p else 1) + Slots(js[1..], top, p)
  }

  lemma {:induction false} SlotsCount(book: Book, js: seq<JobId>, i: JobId, top: JobId, p: nat)
    requires i in book.weight && (forall j :: j in js ==> j in book.weight) && Distinct(js)
    ensures Slots(js, top, p) == |js| + if top in js then p - 1 else 0
    ensures Surplus(book, js, i) == SurplusBut(book, js, i, top) + if top in js then Gap(book, i, top) else 0
  {
    if js != [] {
      SlotsCount(book, js[1..], i, top, p);
    }
  }

  function PaidTable(book: Book, i: JobId, r: nat, top: JobId, p: nat): map<JobId, int>
    requires BookOk(book) && i in book.weight
  {
    map j | j in book.weight :: if j == top then p else DemandOf(book, i, j, r)
  }

  lemma PaidSlot(price: int, p: nat, r: nat)
    ensures Covered(p, price, p, r, 0)
  {
  }

  lemma {:induction false} PaidCovered(book: Book, js: seq<JobId>, i: JobId, r: nat, top: JobId, p: nat)
    requires BookOk(book) && i in book.weight && forall j :: j in js ==> j in book.weight
    ensures Covered(Total(js, PaidTable(book, i, r, top, p)), book.maxWeight, Slots(js, top, p), r,
                    SurplusBut(book, js, i, top))
  {
    if js == [] {
      NothingCovered(book.maxWeight, r);
    } else {
      PaidCovered(book, js[1..], i, r, top, p);
      var rest := Total(js[1..], PaidTable(book, i, r, top, p));
      if js[0] == top {
        PaidSlot(book.maxWeight, p, r);
        CoveredAdds(p, rest, book.maxWeight, p, Slots(js[1..], top, p), r, 0, SurplusBut(book, js[1..], i, top));
      } else {
        OneDemandCovered(book, i, js[0], r);
        CoveredAdds(DemandOf(book, i, js[0], r), rest, book.maxWeight, 1, Slots(js[1..], top, p), r,
                    Gap(book, i, js[0]), SurplusBut(book, js[1..], i, top));
      }
    }
  }

  /** Round by round, one more or the same. */
  predicate Climbs(b: seq<nat>) {
    b != [] && b[0] == 0 && forall j, k :: 0 <= j && k == j + 1 < |b| ==> b[j] <= b[k] <= b[j] + 1
  }

  /** The busy rounds so far, round by round. */
  lemma {:induction false} BusyTrace(afford: nat -> int, n: nat) returns (b: seq<nat>)
    ensures Climbs(b) && |b| == n + 1 && forall k :: 0 <= k <= n ==> b[k] == Busy(afford, k)
  {
    if n == 0 {
      b := [0];
    } else {
      b := BusyTrace(afford, n - 1);
      BusyGrows(afford, n - 1, n);
      b := b + [Busy(afford, n)];
    }
  }

  lemma {:induction false} FirstReach(b: seq<nat>) returns (r: nat)
    requires Climbs(b) && b[|b| - 1] >= 1
    ensures 1 <= r < |b| && b[r] == b[|b| - 1] && b[r - 1] == b[r] - 1
  {
    r := |b| - 1;
    if b[r - 1] == b[r] {
      r := FirstReach(b[..r]);
    }
  }

  lemma {:induction false} LastFlat(b: seq<nat>) returns (r: nat)
    requires Climbs(b) && b[|b| - 1] < |b| - 1
    ensures 1 <= r < |b| && b[r] == b[r - 1] && b[|b| - 1] + r == b[r] + |b| - 1
  {
    r := |b| - 1;
    if b[r - 1] != b[r] {
      r := LastFlat(b[..r]);
    }
  }

  /** Round `r` makes no pick. */
  predicate Idles(afford: nat -> int, r: nat) {
    r >= 1 && Busy(afford, r) == Busy(afford, r - 1)
  }

  lemma ReachRound(afford: nat -> int, limit: nat, n: nat) returns (r: nat)
    requires Busy(afford, n) == limit >= 1
    ensures 1 <= r <= n && Busy(afford, r) == limit && Busy(afford, r - 1) == limit - 1
  {
    var b := BusyTrace(afford, n);
    r := FirstReach(b);
  }

  lemma LastIdle(afford: nat -> int, n: nat) returns (r: nat)
    requires Busy(afford, n) < n
    ensures r <= n && Idles(afford, r) && Busy(afford, n) + r == Busy(afford, r) + n
  {
    var b := BusyTrace(afford, n);
    r := LastFlat(b);
  }

  lemma IdleIsPaid(afford: nat -> int, r: nat)
    requires Idles(afford, r)
    ensures afford(r) <= Busy(afford, r - 1) == Busy(afford, r) < r
  {
    BusyGrows(afford, 0, r - 1);
  }

  lemma CapAffordable(book: Book, cs: seq<Candidate>, i: JobId, j: JobId, r: nat)
    requires BookOk(book) && i in book.weight && j in book.weight
    requires r >= 1 && r * book.weight[i] >= book.maxWeight
    ensures CapOf(book, cs, i, j, r) <= AffordOf(book, cs, j, r)
  {
    var demand := DemandOf(book, i, j, r);
    Product(r, 0, book.weight[j]);
    if demand >= 1 {
      PrecedesExact(book, i, j, r, demand - 1);
      OneMore(demand - 1, book.maxWeight);
      QuotientExact(r * book.weight[j], book.maxWeight, demand);
    } else {
      QuotientExact(r * book.weight[j], book.maxWeight, 0);
    }
  }

  lemma CapTotalAffordable(book: Book, cs: seq<Candidate>, js: seq<JobId>, i: JobId, r: nat)
    requires BookOk(book) && Rivals(book, js, i) && r >= 1 && r * book.weight[i] >= book.maxWeight
    ensures Total(js, CapTable(book, cs, i, r)) <= TotalWith(js, i, AffordTable(book, cs, r))
  {
    forall j | j in js
      ensures CapTable(book, cs, i, r)[j] <= AffordTable(book, cs, r)[j]
    {
      CapAffordable(book, cs, i, j, r);
    }
    TotalLe(js, CapTable(book, cs, i, r), AffordTable(book, cs, r));
    AffordNonNegative(book, cs, r);
  }

  /** A job that could pay in an idle round would have had its turn in it. */
  lemma IdleTooPoor(book: Book, cs: seq<Candidate>, js: seq<JobId>, i: JobId, r: nat)
    requires BookOk(book) && Rivals(book, js, i) && Idles(TotalAfford(book, cs, js, i), r) && !Turn(book, cs, js, i, r)
    ensures r * book.weight[i] < book.maxWeight
  {
    if r * book.weight[i] >= book.maxWeight {
      CapTotalAffordable(book, cs, js, i, r);
      IdleIsPaid(TotalAfford(book, cs, js, i), r);
    }
  }

  /** The heaviest job is exhausted by an idle round. */
  lemma IdleExhausts(book: Book, cs: seq<Candidate>, js: seq<JobId>, i: JobId, top: JobId, r: nat)
    requires BookOk(book) && i in book.weight && forall j :: j in js ==> j in book.weight
    requires Idles(TotalAfford(book, cs, js, i), r)
    requires (top == i || top in js) && book.weight[top] == book.maxWeight
    ensures Size(cs, top) <= Busy(TotalAfford(book, cs, js, i), r) < r
  {
    TopHolds(book, cs, js, i, top, r);
    IdleIsPaid(TotalAfford(book, cs, js, i), r);
  }

  lemma ShareOfLimit(limit: nat, weight: int, price: int, others: nat, rivals: nat)
    requires price >= 1 && LongEnough(limit, price, others + price - weight, rivals)
    ensures limit * weight > limit * others + rivals * price
    ensures others <= weight
  {
    assert limit * (price - (others + price - weight)) == limit * weight - limit * others;
    Product(rivals, 0, price);
    OthersBelow(limit, weight, others, price * rivals);
  }

  lemma IdleShare(n: nat, limit: nat, idle: nat, p: nat, price: int, weight: int, others: nat)
    requires others <= weight && n <= limit + idle - p && p < idle && idle * weight < price
    ensures n * others < limit * others + price - p * weight
  {
    Product(limit + idle - p, n, others);
    assert (limit + idle - p) * others == limit * others + (idle - p) * others;
    Product(weight, others, idle - p);
    assert (idle - p) * weight == idle * weight - p * weight;
  }

  lemma CancelPrice(total: int, limit: int, price: int)
    requires price >= 1 && total * price < limit * price
    ensures total < limit
  {
    if total >= limit {
      Product(total, limit, price);
    }
  }

  lemma SlotCost(rivals: nat, p: nat, price: int)
    ensures (rivals + p - 1) * price == rivals * price + p * price - price
  {
  }

  lemma LimitCost(limit: nat, p: nat, price: int, weight: int)
    requires p <= limit && weight <= price
    ensures limit * price - limit * weight >= p * price - p * weight
  {
    Product(limit, p, price - weight);
    assert limit * (price - weight) == limit * price - limit * weight;
    assert p * (price - weight) == p * price - p * weight;
  }

  lemma NoRoomLeft(limit: nat, n: nat, idle: nat, p: nat, rivals: nat, slots: nat, price: int, weight: int, others: nat,
                   surplus: nat, total: int)
    requires 1 <= weight <= price && rivals >= 1 && slots == rivals + p - 1 && Covered(total, price, slots, n, others)
    requires n <= limit + idle - p && p <= limit && p < idle && idle * weight < price
    requires surplus == others + price - weight && LongEnough(limit, price, surplus, rivals)
    ensures total < limit
  {
    ShareOfLimit(limit, weight, price, others, rivals);
    IdleShare(n, limit, idle, p, price, weight, others);
    SlotCost(rivals, p, price);
    LimitCost(limit, p, price, weight);
    CostChain(total * price, slots * price, rivals * price, p * price, n * others, limit * others, limit * weight,
              limit * price, p * weight, price);
    CancelPrice(total, limit, price);
  }

  lemma CostChain(total: int, slots: int, rivals: int, paid: int, earned: int, others: int, share: int, limit: int,
                  paidShare: int, price: int)
    requires total <= slots + earned && slots == rivals + paid - price && earned < others + price - paidShare
    requires limit - share >= paid - paidShare && share > others + rivals
    ensures total < limit
  {
  }

  lemma OthersBelow(limit: nat, weight: int, others: nat, floor: int)
    requires limit * weight - limit * others > floor >= 0
    ensures others <= weight
  {
    if others > weight {
      Product(others, weight, limit);
    }
  }

  /** With no idle round before the limit, the picks ahead of `i` leave room for it. */
  lemma BusyBatchServes(book: Book, cs: seq<Candidate>, js: seq<JobId>, i: JobId, limit: nat)
    requires BookOk(book) && Rivals(book, js, i)
    requires LongEnough(limit, book.maxWeight, Surplus(book, js, i), |js|)
    ensures Total(js, CapTable(book, cs, i, limit)) < limit
  {
    TotalLe(js, CapTable(book, cs, i, limit), DemandTable(book, i, limit));
    DemandCovered(book, js, i, limit);
    RoomInBatch(Total(js, DemandTable(book, i, limit)), limit, book.maxWeight, Surplus(book, js, i), |js|);
  }

  /** What is ahead of `i` once the heaviest job, which is one of its rivals, is exhausted. */
  lemma PaidBounds(book: Book, cs: seq<Candidate>, js: seq<JobId>, i: JobId, top: JobId, n: nat)
    returns (total: int, slots: nat, others: nat)
    requires BookOk(book) && Rivals(book, js, i) && top in js && book.weight[top] == book.maxWeight
    ensures Total(js, CapTable(book, cs, i, n)) <= total
    ensures |js| >= 1 && slots == |js| + Size(cs, top) - 1 && Covered(total, book.maxWeight, slots, n, others)
    ensures Surplus(book, js, i) == others + book.maxWeight - book.weight[i]
  {
    var p := Size(cs, top);
    total, slots, others := Total(js, PaidTable(book, i, n, top, p)), Slots(js, top, p), SurplusBut(book, js, i, top);
    TotalLe(js, CapTable(book, cs, i, n), PaidTable(book, i, n, top, p));
    PaidCovered(book, js, i, n, top, p);
    SlotsCount(book, js, i, top, p);
  }

  /** Nor do they with idle rounds: those come only once the heaviest job is exhausted. */
  lemma IdleBatchServes(book: Book, cs: seq<Candidate>, js: seq<JobId>, i: JobId, limit: nat, top: JobId, n: nat,
                        idle: nat, served: nat)
    requires BookOk(book) && Rivals(book, js, i) && top in js && book.weight[top] == book.maxWeight
    requires LongEnough(limit, book.maxWeight, Surplus(book, js, i), |js|)
    requires Size(cs, top) <= served < idle && served <= limit && limit - served == n - idle
    requires idle * book.weight[i] < book.maxWeight
    ensures Total(js, CapTable(book, cs, i, n)) < limit
  {
    var total, slots, others := PaidBounds(book, cs, js, i, top, n);
    NoRoomLeft(limit, n, idle, Size(cs, top), |js|, slots, book.maxWeight, book.weight[i], others,
               Surplus(book, js, i), total);
  }

  lemma PaysInTime(limit: nat, weight: int, price: int, surplus: nat, others: nat, rivals: nat)
    requires 1 <= weight <= price && rivals >= 1 && surplus == others + price - weight
    requires LongEnough(limit, price, surplus, rivals)
    ensures limit * weight >= price
  {
    Product(rivals, 1, price);
    Product(weight, price - surplus, limit);
  }

  /** A long enough batch can pay for a pick of every job in it. */
  lemma LongEnoughPays(book: Book, js: seq<JobId>, i: JobId, top: JobId, limit: nat)
    requires BookOk(book) && Rivals(book, js, i) && top in book.weight && book.weight[top] == book.maxWeight
    requires LongEnough(limit, book.maxWeight, Surplus(book, js, i), |js|)
    ensures limit * book.weight[i] >= book.maxWeight
  {
    SomeRoom(limit, book.maxWeight, Surplus(book, js, i), |js|);
    if top == i {
      Product(limit, 1, book.maxWeight);
    } else {
      SlotsCount(book, js, i, top, 0);
      PaysInTime(limit, book.weight[i], book.maxWeight, Surplus(book, js, i), SurplusBut(book, js, i, top), |js|);
    }
  }

  lemma IdleRoundServes(book: Book, cs: seq<Candidate>, js: seq<JobId>, i: JobId, top: JobId, limit: nat, n: nat)
    requires BookOk(book) && Rivals(book, js, i) && top in book.weight && book.weight[top] == book.maxWeight
    requires LongEnough(limit, book.maxWeight, Surplus(book, js, i), |js|)
    requires Busy(TotalAfford(book, cs, js, i), n) == limit < n && NoTurnYet(book, cs, js, i, n)
    ensures Total(js, CapTable(book, cs, i, n)) < limit
  {
    var idle := LastIdle(TotalAfford(book, cs, js, i), n);
    IdleTooPoor(book, cs, js, i, idle);
    Product(idle, 1, book.weight[i]);
    IdleExhausts(book, cs, js, i, top, idle);
    BusyGrows(TotalAfford(book, cs, js, i), idle, n);
    IdleBatchServes(book, cs, js, i, limit, top, n, idle, Busy(TotalAfford(book, cs, js, i), idle));
  }

  lemma TurnInTime(book: Book, cs: seq<Candidate>, js: seq<JobId>, i: JobId, top: JobId, limit: nat, n: nat)
    requires BookOk(book) && Rivals(book, js, i) && top in book.weight && book.weight[top] == book.maxWeight
    requires LongEnough(limit, book.maxWeight, Surplus(book, js, i), |js|)
    requires n >= 1 && Busy(TotalAfford(book, cs, js, i), n) == limit
    requires Busy(TotalAfford(book, cs, js, i), n - 1) == limit - 1
    ensures !NoTurnYet(book, cs, js, i, n)
  {
    if NoTurnYet(book, cs, js, i, n) {
      BusyGrows(TotalAfford(book, cs, js, i), 0, n);
      LongEnoughPays(book, js, i, top, limit);
      Product(n, limit, book.weight[i]);
      if n == limit {
        BusyBatchServes(book, cs, js, i, limit);
      } else {
        IdleRoundServes(book, cs, js, i, top, limit, n);
      }
      assert Turn(book, cs, js, i, n);
    }
  }
}
