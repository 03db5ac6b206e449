/** How the picks of a batch are shared: at most by weight, and exactly when a job falls behind the heaviest. */
module Shares {
  import opened Wrappers
  import opened Fairness
  import opened FairnessTheorems
  import opened Starvation
  import opened FirstPick

  /** `p` picks at weight `light` are at most the share by weight of `q` picks and one more at weight `heavy`. */
  predicate InShare(p: int, light: int, q: int, heavy: int) {
    p * heavy <= (q + 1) * light
  }

  /** While `j` has work left, a job no heavier has had at most its share by weight of one pick more than `j` has. */
  ghost predicate Shared(book: Book, s: Rounds, i: JobId, j: JobId)
    requires i in book.weight && j in book.weight
  {
    Backlogged(s, j) ==> InShare(Picks(s, i), book.weight[i], Picks(s, j), book.weight[j])
  }

  lemma CancelScale(price: int, a: int, b: int)
    requires price >= 1 && a * price <= b * price
    ensures a <= b
  {
    if a > b {
      Product(a, b + 1, price);
      OneMore(b, price);
    }
  }

  lemma Swap(a: int, b: int, c: int)
    ensures a * b * c == a * c * b
  {
  }

  lemma Cross(a: int, b: nat, r: nat, price: int, gap: int, light: int)
    requires price >= 1 && gap >= 0 && light >= 0 && a * price >= r * gap && r * light >= b * price
    ensures a * light >= b * gap
  {
    Product(a * price, r * gap, light);
    Swap(r, gap, light);
    Product(r * light, b * price, gap);
    Swap(b, price, gap);
    Swap(a, price, light);
    CancelScale(price, b * gap, a * light);
  }

  lemma Split(a: int, light: int, gap: int)
    ensures a * (light + gap) == a * light + a * gap
  {
  }

  lemma ShareArithmetic(r: nat, light: int, heavy: int, price: int, p: nat, q: nat)
    requires 1 <= light <= heavy && price >= 1
    requires r * light - p * price >= r * heavy - q * price && r * light - p * price >= price
    ensures InShare(p + 1, light, q, heavy)
  {
    Split(r, light, heavy - light);
    Split(price, p, q - p);
    OneMore(p, price);
    Cross(q - p, p + 1, r, price, heavy - light, light);
    Split(p + 1, light, heavy - light);
    Split(light, q - p, p + 1);
  }

  lemma StepKeepsShared(book: Book, s: Rounds, t: Rounds, served: Option<JobId>, i: JobId, j: JobId, r: nat)
    requires BookOk(book) && Step(book, s, t, served) && EarnedSoFar(book, s, r)
    requires i in book.weight && j in book.weight && i != j && book.weight[i] <= book.weight[j]
    requires Shared(book, s, i, j)
    ensures Shared(book, t, i, j)
  {
    if Backlogged(t, j) {
      if served == Some(i) {
        AccruedByPicks(book, s, r, i);
        AccruedByPicks(book, s, r, j);
        ShareArithmetic(r + 1, book.weight[i], book.weight[j], book.maxWeight, Picks(s, i), Picks(s, j));
      } else {
        Product(Picks(t, j) + 1, Picks(s, j) + 1, book.weight[i]);
      }
    }
  }

  lemma {:induction false} RunKeepsShared(book: Book, cs: seq<Candidate>, s: Rounds, limit: nat, idle: nat,
                                          i: JobId, j: JobId, r: nat)
    requires Running(book, s, idle) && BookOk(book) && Conserved(cs, s) && EarnedSoFar(book, s, r)
    requires i in book.weight && j in book.weight && i != j && book.weight[i] <= book.weight[j]
    requires Shared(book, s, i, j)
    ensures Fits(book, Run(book, s, limit, idle)) && Shared(book, Run(book, s, limit, idle), i, j)
    decreases limit - |s.picked|, book.maxWeight - idle
  {
    if |s.picked| < limit && WorkLeft(s) {
      RoundKeepsRunning(book, s, idle);
      RoundPicks(book, cs, s);
      RoundIsStep(book, cs, s);
      StepKeepsShared(book, s, NextRound(book, s), Served(book, s), i, j, r);
      EarnedGoesOn(book, s, NextRound(book, s), Served(book, s), r);
      RunKeepsShared(book, cs, NextRound(book, s), limit, NextIdle(book, s, idle), i, j, r + 1);
    }
  }

  lemma BatchShared(weights: PollWeights, candidates: seq<Candidate>, limit: nat, i: JobId, j: JobId)
    requires weights.Positive() && candidates != [] && limit > 0 && i != j
    requires i in BatchBook(weights, candidates).weight && j in BatchBook(weights, candidates).weight
    requires BatchBook(weights, candidates).weight[i] <= BatchBook(weights, candidates).weight[j]
    ensures Shared(BatchBook(weights, candidates), Final(weights, candidates, limit), i, j)
  {
    var cs, book := Arrivals(candidates), BatchBook(weights, candidates);
    BatchBookOk(weights, candidates);
    Setup(weights, candidates, limit);
    StartEarned(book, cs);
    StartShared(book, cs, i, j);
    RunKeepsShared(book, cs, Start(cs), limit, 0, i, j, 0);
  }

  lemma StartShared(book: Book, cs: seq<Candidate>, i: JobId, j: JobId)
    requires BookOk(book) && i in book.weight && j in book.weight
    ensures Shared(book, Start(cs), i, j)
  {
    Product(1, 0, book.weight[i]);
  }

  /** In any batch a job no heavier than one that still has work gets no more than its share of that one's picks. */
  lemma ShareBound(weights: PollWeights, candidates: seq<Candidate>, limit: nat, i: JobId, j: JobId)
    requires weights.Positive()
    requires i in JobsOf(Arrivals(candidates)) && j in JobsOf(Arrivals(candidates))
    requires WeightOf(weights, candidates, i) <= WeightOf(weights, candidates, j)
    requires LeftOver(weights, candidates, limit, j)
    ensures InShare(PickCount(weights, candidates, limit, i), WeightOf(weights, candidates, i),
                    PickCount(weights, candidates, limit, j), WeightOf(weights, candidates, j))
  {
    assert |Arrivals(candidates)| == |candidates|;
    PositiveWeight(weights, candidates, i);
    if i == j {
      OneMore(PickCount(weights, candidates, limit, j), WeightOf(weights, candidates, i));
    } else if limit > 0 {
      BatchShared(weights, candidates, limit, i, j);
      LeftOverIsBacklogged(weights, candidates, limit, j);
    }
  }

  lemma PositiveWeight(weights: PollWeights, candidates: seq<Candidate>, i: JobId)
    requires weights.Positive() && i in JobsOf(Arrivals(candidates))
    ensures WeightOf(weights, candidates, i) >= 1
  {
    assert WeightOf(weights, candidates, i) == weights.Of(JobPriority(Arrivals(candidates), i));
  }

  // ---- Falling behind the heaviest ---------------------------------------------------

  function QueueTable(book: Book, xs: seq<Candidate>): map<JobId, int> {
    map j | j in book.weight :: |QueueOf(xs, j)|
  }

  /** The picks of a batch are those of its jobs. */
  lemma {:induction false} CountByJob(book: Book, js: seq<JobId>, j: JobId, xs: seq<Candidate>)
    requires Rivals(book, js, j) && forall k :: 0 <= k < |xs| ==> xs[k].job in book.weight
    ensures TotalWith(js, j, QueueTable(book, xs)) == |xs|
  {
    if xs == [] {
      AllZero(js, QueueTable(book, xs));
    } else {
      var front, last := xs[..|xs| - 1], xs[|xs| - 1];
      CountByJob(book, js, j, front);
      TotalBump(js, QueueTable(book, front), QueueTable(book, xs), last.job);
    }
  }

  lemma {:induction false} AllZero(js: seq<JobId>, v: map<JobId, int>)
    requires forall j :: j in js ==> j in v && v[j] == 0
    ensures Total(js, v) == 0
  {
    if js != [] {
      AllZero(js[1..], v);
    }
  }

  lemma {:induction false} TotalAtMost(js: seq<JobId>, v: map<JobId, int>, most: nat)
    requires forall j :: j in js ==> j in v && v[j] <= most
    ensures Total(js, v) <= |js| * most
  {
    if js != [] {
      TotalAtMost(js[1..], v, most);
      OneMore(|js| - 1, most);
    }
  }

  lemma BatchJobs(weights: PollWeights, candidates: seq<Candidate>, limit: nat)
    requires weights.Positive() && candidates != []
    ensures var batch := FairBatch(weights, candidates, limit);
            forall k :: 0 <= k < |batch| ==> batch[k].job in JobsOf(Arrivals(candidates))
  {
    var batch, cs := FairBatch(weights, candidates, limit), Arrivals(candidates);
    BatchIsComplete(weights, candidates, limit);
    forall k | 0 <= k < |batch|
      ensures batch[k].job in JobsOf(cs)
    {
      assert batch[k] in multiset(batch);
      QueueKeepsCounts(cs, batch[k]);
      QueueHoldsJob(cs, batch[k].job);
      assert batch[k] in multiset(cs);
    }
  }

  /** A job with more candidates than the batch takes is not exhausted, and the batch is full. */
  lemma DeepJob(weights: PollWeights, candidates: seq<Candidate>, limit: nat, j: JobId)
    requires weights.Positive() && candidates != [] && |QueueOf(Arrivals(candidates), j)| > limit
    ensures LeftOver(weights, candidates, limit, j) && |FairBatch(weights, candidates, limit)| == limit
  {
    BatchIsComplete(weights, candidates, limit);
    QueueFits(FairBatch(weights, candidates, limit), j);
    QueueFits(Arrivals(candidates), j);
    assert |Arrivals(candidates)| == |candidates|;
  }

  lemma OthersWithinOne(weights: PollWeights, candidates: seq<Candidate>, limit: nat, js: seq<JobId>, j: JobId)
    requires weights.Positive() && candidates != [] && Rivals(BatchBook(weights, candidates), js, j)
    requires BatchBook(weights, candidates).weight[j] == BatchBook(weights, candidates).maxWeight
    requires LeftOver(weights, candidates, limit, j)
    ensures var picks := QueueTable(BatchBook(weights, candidates), FairBatch(weights, candidates, limit));
            Total(js, picks) <= |js| * (PickCount(weights, candidates, limit, j) + 1)
  {
    var book, batch := BatchBook(weights, candidates), FairBatch(weights, candidates, limit);
    BatchBookOk(weights, candidates);
    forall k | k in js
      ensures QueueTable(book, batch)[k] <= PickCount(weights, candidates, limit, j) + 1
    {
      WeightDominance(weights, candidates, limit, j, k);
    }
    TotalAtMost(js, QueueTable(book, batch), PickCount(weights, candidates, limit, j) + 1);
  }

  /** The heaviest job of a batch has at least an even share of its picks, but for one. */
  lemma HeaviestShare(weights: PollWeights, candidates: seq<Candidate>, limit: nat, js: seq<JobId>, j: JobId)
    requires weights.Positive() && candidates != [] && Rivals(BatchBook(weights, candidates), js, j)
    requires BatchBook(weights, candidates).weight[j] == BatchBook(weights, candidates).maxWeight
    requires |QueueOf(Arrivals(candidates), j)| > limit
    ensures LeftOver(weights, candidates, limit, j)
    ensures limit <= (|js| + 1) * (PickCount(weights, candidates, limit, j) + 1)
  {
    DeepJob(weights, candidates, limit, j);
    BatchJobs(weights, candidates, limit);
    CountByJob(BatchBook(weights, candidates), js, j, FairBatch(weights, candidates, limit));
    OthersWithinOne(weights, candidates, limit, js, j);
    OneMore(|js|, PickCount(weights, candidates, limit, j) + 1);
  }

  /** A batch long enough for a job of weight `light` to fall two picks behind one of weight `heavy` among `n` jobs. */
  predicate TellsApart(limit: nat, light: int, heavy: int, n: nat) {
    limit * (heavy - light) >= 3 * heavy * n
  }

  lemma SpreadOut(limit: nat, gap: nat, heavy: int, n: nat, x: nat)
    requires n >= 1 && limit * gap >= 3 * heavy * n && limit <= n * x
    ensures x * gap >= 3 * heavy
  {
    Product(n * x, limit, gap);
    Swap(x, n, gap);
    assert n * x == x * n;
    CancelScale(n, 3 * heavy, x * gap);
  }

  lemma FallsBehind(light: int, heavy: int, p: nat, q: nat)
    requires 1 <= light < heavy && (q + 1) * (heavy - light) >= 3 * heavy && InShare(p, light, q, heavy)
    ensures q >= p + 2
  {
    Split(q + 1, light, heavy - light);
    Split(heavy, p, 3);
    CancelScale(heavy, p + 3, q + 1);
  }

  lemma HeaviestSpread(weights: PollWeights, candidates: seq<Candidate>, limit: nat, js: seq<JobId>, j: JobId,
                       light: int, heavy: int)
    requires weights.Positive() && candidates != [] && Rivals(BatchBook(weights, candidates), js, j)
    requires heavy == BatchBook(weights, candidates).weight[j] == BatchBook(weights, candidates).maxWeight
    requires |QueueOf(Arrivals(candidates), j)| > limit
    requires light < heavy && TellsApart(limit, light, heavy, |js| + 1)
    ensures (PickCount(weights, candidates, limit, j) + 1) * (heavy - light) >= 3 * heavy
  {
    HeaviestShare(weights, candidates, limit, js, j);
    SpreadOut(limit, heavy - light, heavy, |js| + 1, PickCount(weights, candidates, limit, j) + 1);
  }

  lemma Outpaced(weights: PollWeights, candidates: seq<Candidate>, limit: nat, i: JobId, j: JobId, light: int,
                 heavy: int)
    requires weights.Positive() && i in JobsOf(Arrivals(candidates)) && j in JobsOf(Arrivals(candidates))
    requires light == WeightOf(weights, candidates, i) && heavy == WeightOf(weights, candidates, j)
    requires 1 <= light < heavy && LeftOver(weights, candidates, limit, j)
    requires (PickCount(weights, candidates, limit, j) + 1) * (heavy - light) >= 3 * heavy
    ensures PickCount(weights, candidates, limit, j) >= PickCount(weights, candidates, limit, i) + 2
  {
    ShareBound(weights, candidates, limit, i, j);
    FallsBehind(light, heavy, PickCount(weights, candidates, limit, i), PickCount(weights, candidates, limit, j));
  }

  lemma LagsBehind(weights: PollWeights, candidates: seq<Candidate>, limit: nat, js: seq<JobId>, i: JobId, j: JobId,
                   light: int, heavy: int)
    requires weights.Positive() && candidates != [] && Rivals(BatchBook(weights, candidates), js, j) && i in js
    requires light == BatchBook(weights, candidates).weight[i] && heavy == BatchBook(weights, candidates).weight[j]
    requires heavy == BatchBook(weights, candidates).maxWeight
    requires light < heavy && TellsApart(limit, light, heavy, |js| + 1)
    requires |QueueOf(Arrivals(candidates), j)| > limit
    ensures PickCount(weights, candidates, limit, j) >= PickCount(weights, candidates, limit, i) + 2
  {
    BooksWeight(weights, candidates, i);
    BooksWeight(weights, candidates, j);
    DeepJob(weights, candidates, limit, j);
    HeaviestSpread(weights, candidates, limit, js, j, light, heavy);
    Outpaced(weights, candidates, limit, i, j, light, heavy);
  }

  lemma BooksWeight(weights: PollWeights, candidates: seq<Candidate>, i: JobId)
    requires weights.Positive() && candidates != [] && i in BatchBook(weights, candidates).weight
    ensures i in JobsOf(Arrivals(candidates))
    ensures BatchBook(weights, candidates).weight[i] == WeightOf(weights, candidates, i) >= 1
  {
    BatchBookOk(weights, candidates);
    PositiveWeight(weights, candidates, i);
  }

  /** In a long enough batch a strictly lighter job is at least two picks behind the heaviest. */
  lemma LighterFallsBehind(weights: PollWeights, candidates: seq<Candidate>, limit: nat, js: seq<JobId>, i: JobId,
                           j: JobId)
    requires weights.Positive() && candidates != [] && Rivals(BatchBook(weights, candidates), js, j) && i in js
    requires var book := BatchBook(weights, candidates);
             book.weight[i] < book.weight[j] == book.maxWeight
             && TellsApart(limit, book.weight[i], book.weight[j], |js| + 1)
    requires |QueueOf(Arrivals(candidates), j)| > limit
    ensures PickCount(weights, candidates, limit, j) >= PickCount(weights, candidates, limit, i) + 2
  {
    var book := BatchBook(weights, candidates);
    LagsBehind(weights, candidates, limit, js, i, j, book.weight[i], book.weight[j]);
  }

  /** The heaviest job gets at most one pick ahead of another exactly when that one is as heavy. */
  lemma DominanceExact(weights: PollWeights, candidates: seq<Candidate>, limit: nat, js: seq<JobId>, i: JobId, j: JobId)
    requires weights.Positive() && candidates != [] && Rivals(BatchBook(weights, candidates), js, j) && i in js
    requires var book := BatchBook(weights, candidates);
             book.weight[j] == book.maxWeight
             && (book.weight[i] < book.weight[j] ==> TellsApart(limit, book.weight[i], book.weight[j], |js| + 1))
    requires |QueueOf(Arrivals(candidates), i)| > limit && |QueueOf(Arrivals(candidates), j)| > limit
    ensures var book := BatchBook(weights, candidates);
            PickCount(weights, candidates, limit, j) <= PickCount(weights, candidates, limit, i) + 1
            <==> book.weight[i] == book.weight[j]
  {
    var book := BatchBook(weights, candidates);
    BatchBookOk(weights, candidates);
    if book.weight[i] < book.weight[j] {
      LighterFallsBehind(weights, candidates, limit, js, i, j);
    } else {
      DeepJob(weights, candidates, limit, i);
      WeightDominance(weights, candidates, limit, i, j);
    }
  }
}
