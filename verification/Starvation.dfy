/** How heavier jobs starve a job of a fair batch, and how far a lighter job falls behind. */
module Starvation {
  import opened Fairness
  import opened FairnessTheorems
  import opened Wrappers
  import opened Lanes

  predicate Distinct(js: seq<JobId>) {
    forall a, b :: 0 <= a < b < |js| ==> js[a] != js[b]
  }

  /** The total by which the listed jobs exceed a level, per job value `v`. */
  function Excess(js: seq<JobId>, v: map<JobId, int>, level: int): int
    requires forall j :: j in js ==> j in v
  {
    if js == [] then 0 else v[js[0]] - level + Excess(js[1..], v, level)
  }

  lemma {:induction false} ExcessAdds(js: seq<JobId>, u: map<JobId, int>, ulevel: int,
                                      v: map<JobId, int>, vlevel: int, w: map<JobId, int>)
    requires forall j :: j in js ==> j in u && j in v && j in w && w[j] == u[j] + v[j]
    ensures Excess(js, w, ulevel + vlevel) == Excess(js, u, ulevel) + Excess(js, v, vlevel)
  {
    if js != [] {
      ExcessAdds(js[1..], u, ulevel, v, vlevel, w);
    }
  }

  lemma {:induction false} ExcessPays(js: seq<JobId>, v: map<JobId, int>, level: int, b: JobId, cost: int)
    requires Distinct(js) && b in v && forall j :: j in js ==> j in v
    ensures Excess(js, v[b := v[b] - cost], level) == Excess(js, v, level) - if b in js then cost else 0
  {
    if js != [] {
      ExcessPays(js[1..], v, level, b, cost);
    }
  }

  lemma {:induction false} ExcessHasLeader(js: seq<JobId>, v: map<JobId, int>, level: int) returns (lead: JobId)
    requires forall j :: j in js ==> j in v
    requires Excess(js, v, level) > 0
    ensures lead in js && v[lead] > level
  {
    lead := js[0];
    if v[lead] <= level {
      lead := ExcessHasLeader(js[1..], v, level);
    }
  }

  /** Distinct jobs of the batch, each heavier than `i`. */
  ghost predicate Heavier(book: Book, hs: seq<JobId>, i: JobId) {
    i in book.weight && Distinct(hs) && forall h :: h in hs ==> h in book.weight && book.weight[h] > book.weight[i]
  }

  /** The weight the heavier jobs earn each round beyond what `i` earns. */
  function Pressure(book: Book, hs: seq<JobId>, i: JobId): int
    requires i in book.weight && forall h :: h in hs ==> h in book.weight
  {
    Excess(hs, book.weight, book.weight[i])
  }

  /** The credit of the heavier jobs beyond that of `i`. */
  function Lead(s: Rounds, hs: seq<JobId>, i: JobId): int
    requires i in s.credits && forall h :: h in hs ==> h in s.credits
  {
    Excess(hs, s.credits, s.credits[i])
  }

  predicate Meets(js: seq<JobId>, served: Option<JobId>) {
    served.Some? && served.value in js
  }

  /** One round adds the pressure to the lead, and a pick by a heavier job takes the price off again. */
  lemma LeadStep(book: Book, s: Rounds, t: Rounds, served: Option<JobId>, hs: seq<JobId>, i: JobId)
    requires Step(book, s, t, served) && Heavier(book, hs, i) && Backlogged(s, i) && served != Some(i)
    requires forall h :: h in hs ==> Backlogged(s, h)
    ensures Lead(t, hs, i) == Lead(s, hs, i) + Pressure(book, hs, i)
                              - if Meets(hs, served) then book.maxWeight else 0
  {
    var credits := AccruedTable(book, s);
    ExcessAdds(hs, s.credits, s.credits[i], book.weight, book.weight[i], credits);
    LeadPays(book, s, t, served, hs, i, credits);
  }

  /** Every job's credit before the round's payment. */
  function AccruedTable(book: Book, s: Rounds): map<JobId, int>
    requires Fits(book, s)
  {
    map j | j in s.credits :: Accrued(book, s, j)
  }

  /** The credits after the round: those before it, less the price of the pick. */
  lemma CreditsPaid(book: Book, s: Rounds, t: Rounds, served: Option<JobId>)
    requires Step(book, s, t, served)
    ensures match served
            case None => t.credits == AccruedTable(book, s)
            case Some(b) => b in s.credits
                            && t.credits == AccruedTable(book, s)[b := AccruedTable(book, s)[b] - book.maxWeight]
  {
    assert t.credits.Keys == s.credits.Keys;
  }

  lemma LeadPays(book: Book, s: Rounds, t: Rounds, served: Option<JobId>, hs: seq<JobId>, i: JobId,
                 credits: map<JobId, int>)
    requires Step(book, s, t, served) && Heavier(book, hs, i) && served != Some(i)
    requires credits == AccruedTable(book, s)
    ensures Lead(t, hs, i) == Excess(hs, credits, credits[i]) - if Meets(hs, served) then book.maxWeight else 0
  {
    CreditsPaid(book, s, t, served);
    if served.Some? {
      ExcessPays(hs, credits, credits[i], served.value, book.maxWeight);
    }
  }

  /** Never picked, and the heavier jobs hold no less credit in total than `i` for each of them. */
  ghost predicate Starving(s: Rounds, hs: seq<JobId>, i: JobId) {
    (forall h :: h in hs ==> Backlogged(s, h)) && i in s.credits && (forall h :: h in hs ==> h in s.credits) ==>
      Picks(s, i) == 0 && Lead(s, hs, i) >= 0
  }

  lemma StarvedRound(book: Book, s: Rounds, t: Rounds, served: Option<JobId>, hs: seq<JobId>, i: JobId)
    requires Step(book, s, t, served) && Heavier(book, hs, i) && Backlogged(s, i)
    requires forall h :: h in hs ==> Backlogged(s, h)
    requires Lead(s, hs, i) + Pressure(book, hs, i) > 0
    ensures served != Some(i)
  {
    var credits := AccruedTable(book, s);
    ExcessAdds(hs, s.credits, s.credits[i], book.weight, book.weight[i], credits);
    var lead := ExcessHasLeader(hs, credits, credits[i]);
    assert Accrued(book, s, lead) > Accrued(book, s, i);
  }

  lemma StepKeepsStarving(book: Book, s: Rounds, t: Rounds, served: Option<JobId>, hs: seq<JobId>, i: JobId)
    requires Step(book, s, t, served) && Heavier(book, hs, i) && book.maxWeight >= 1
    requires Pressure(book, hs, i) >= book.maxWeight
    requires Picks(s, i) == 0 ==> Backlogged(s, i)
    requires Starving(s, hs, i)
    ensures Starving(t, hs, i)
  {
    if forall h :: h in hs ==> Backlogged(t, h) {
      StarvedRound(book, s, t, served, hs, i);
      LeadStep(book, s, t, served, hs, i);
    }
  }

  lemma UnpickedIsBacklogged(cs: seq<Candidate>, s: Rounds, i: JobId)
    requires Conserved(cs, s) && i in s.queues && Picks(s, i) == 0
    ensures Backlogged(s, i)
  {
    QueueHoldsJob(cs, i);
    assert QueueOf(s.picked, i) == [];
    assert s.queues[i] == QueueOf(s.picked, i) + s.queues[i];
  }

  lemma {:induction false} RunKeepsStarving(book: Book, cs: seq<Candidate>, s: Rounds, limit: nat, idle: nat,
                                            hs: seq<JobId>, i: JobId)
    requires Running(book, s, idle) && Conserved(cs, s) && Heavier(book, hs, i)
    requires Pressure(book, hs, i) >= book.maxWeight
    requires Starving(s, hs, i)
    ensures Starving(Run(book, s, limit, idle), hs, i)
    ensures Fits(book, Run(book, s, limit, idle))
    decreases limit - |s.picked|, book.maxWeight - idle
  {
    if |s.picked| < limit && WorkLeft(s) {
      RoundKeepsRunning(book, s, idle);
      RoundPicks(book, cs, s);
      RoundIsStep(book, cs, s);
      if Picks(s, i) == 0 {
        UnpickedIsBacklogged(cs, s, i);
      }
      StepKeepsStarving(book, s, NextRound(book, s), Served(book, s), hs, i);
      RunKeepsStarving(book, cs, NextRound(book, s), limit, NextIdle(book, s, idle), hs, i);
    }
  }

  lemma {:induction false} ExcessOfZeros(js: seq<JobId>, v: map<JobId, int>)
    requires forall j :: j in js ==> j in v && v[j] == 0
    ensures Excess(js, v, 0) == 0
  {
    if js != [] {
      ExcessOfZeros(js[1..], v);
    }
  }

  lemma StartStarving(cs: seq<Candidate>, book: Book, hs: seq<JobId>, i: JobId)
    requires Fits(book, Start(cs)) && Heavier(book, hs, i)
    ensures Starving(Start(cs), hs, i) && Lead(Start(cs), hs, i) == 0
  {
    ExcessOfZeros(hs, Start(cs).credits);
  }

  lemma Setup(weights: PollWeights, candidates: seq<Candidate>, limit: int)
    requires weights.Positive() && candidates != [] && limit > 0
    ensures var cs := Arrivals(candidates);
            && cs != [] && Running(BookOf(weights, cs), Start(cs), 0) && Conserved(cs, Start(cs))
            && Final(weights, candidates, limit) == Run(BookOf(weights, cs), Start(cs), limit, 0)
  {
    var cs := Arrivals(candidates);
    assert |cs| == |candidates|;
    StartRuns(weights, cs);
    StartConserved(cs);
  }

  ghost function BatchBook(weights: PollWeights, candidates: seq<Candidate>): Book
    requires candidates != []
  {
    assert |Arrivals(candidates)| == |candidates|;
    BookOf(weights, Arrivals(candidates))
  }

  /** Heavier jobs whose surplus weight covers the cost of a pick shut `i` out for as long as they have work. */
  lemma HeavyJobsStarve(weights: PollWeights, candidates: seq<Candidate>, limit: int, hs: seq<JobId>, i: JobId)
    requires weights.Positive() && candidates != []
    requires Heavier(BatchBook(weights, candidates), hs, i)
    requires Pressure(BatchBook(weights, candidates), hs, i) >= BatchBook(weights, candidates).maxWeight
    requires forall h :: h in hs ==> LeftOver(weights, candidates, limit, h)
    ensures PickCount(weights, candidates, limit, i) == 0
  {
    if limit > 0 {
      var cs, book := Arrivals(candidates), BatchBook(weights, candidates);
      Setup(weights, candidates, limit);
      StartStarving(cs, book, hs, i);
      RunKeepsStarving(book, cs, Start(cs), limit, 0, hs, i);
      forall h | h in hs
        ensures Backlogged(Final(weights, candidates, limit), h)
      {
        LeftOverIsBacklogged(weights, candidates, limit, h);
      }
    }
  }

  /** More than `limit` candidates queued for every job of the batch. */
  ghost predicate Deep(candidates: seq<Candidate>, limit: nat) {
    forall j :: j in JobsOf(Arrivals(candidates)) ==> |QueueOf(Arrivals(candidates), j)| > limit
  }

  lemma DeepLeavesWork(weights: PollWeights, candidates: seq<Candidate>, limit: nat)
    requires weights.Positive() && candidates != [] && Deep(candidates, limit)
    ensures forall j :: j in JobsOf(Arrivals(candidates)) ==> LeftOver(weights, candidates, limit, j)
    ensures |FairBatch(weights, candidates, limit)| == limit
  {
    var batch := FairBatch(weights, candidates, limit);
    BatchIsComplete(weights, candidates, limit);
    assert |Arrivals(candidates)| == |candidates|;
    forall j | j in JobsOf(Arrivals(candidates))
      ensures LeftOver(weights, candidates, limit, j)
      ensures |candidates| > limit
    {
      QueueFits(batch, j);
      QueueFits(Arrivals(candidates), j);
    }
    assert Arrivals(candidates)[|candidates| - 1].job in JobsOf(Arrivals(candidates));
  }

  lemma {:induction false} QueueFits(cs: seq<Candidate>, job: JobId)
    ensures |QueueOf(cs, job)| <= |cs|
  {
    if cs != [] {
      QueueFits(cs[..|cs| - 1], job);
    }
  }

  // ---- The shipped weights starve a bulk job ------------------------------

  /** `n` candidates of one job at one priority. */
  function Backlog(job: JobId, priority: int, n: nat): (cs: seq<Candidate>)
    ensures |cs| == n && forall c :: c in cs ==> c.job == job && c.priority == priority
  {
    seq(n, k requires k >= 0 => Candidate(seq(k, _ => '1'), job, Http, priority, k))
  }

  lemma {:induction false} QueueSplits(xs: seq<Candidate>, ys: seq<Candidate>, job: JobId)
    ensures QueueOf(xs + ys, job) == QueueOf(xs, job) + QueueOf(ys, job)
  {
    if ys == [] {
      assert xs + ys == xs;
    } else {
      var front := ys[..|ys| - 1];
      assert (xs + ys)[..|xs + ys| - 1] == xs + front;
      QueueSplits(xs, front, job);
    }
  }

  ghost predicate AllOf(cs: seq<Candidate>, job: JobId) {
    forall k :: 0 <= k < |cs| ==> cs[k].job == job
  }

  lemma {:induction false} QueueOfOneJob(cs: seq<Candidate>, own: JobId, job: JobId)
    requires AllOf(cs, own)
    ensures QueueOf(cs, job) == if job == own then cs else []
  {
    if cs != [] {
      QueueOfOneJob(cs[..|cs| - 1], own, job);
    }
  }

  lemma {:induction false} CountOther(cs: seq<Candidate>, job: JobId, c: Candidate)
    requires c.job != job
    ensures multiset(QueueOf(cs, job))[c] == 0
  {
    if cs != [] {
      CountOther(cs[..|cs| - 1], job, c);
    }
  }

  /** Sorting changes neither the jobs of a batch nor the size of any job's queue. */
  lemma SortKeepsQueues(candidates: seq<Candidate>, job: JobId)
    ensures |QueueOf(Arrivals(candidates), job)| == |QueueOf(candidates, job)|
  {
    var cs := Arrivals(candidates);
    forall c
      ensures multiset(QueueOf(cs, job))[c] == multiset(QueueOf(candidates, job))[c]
    {
      if c.job == job {
        QueueKeepsCounts(cs, c);
        QueueKeepsCounts(candidates, c);
      } else {
        CountOther(cs, job, c);
        CountOther(candidates, job, c);
      }
    }
    assert multiset(QueueOf(cs, job)) == multiset(QueueOf(candidates, job));
    SizesFollow(QueueOf(cs, job), QueueOf(candidates, job));
    SizesFollow(QueueOf(candidates, job), QueueOf(cs, job));
  }

  lemma {:induction false} UniformPriority(cs: seq<Candidate>, job: JobId, priority: int)
    requires job in JobsOf(cs) && forall c :: c in cs && c.job == job ==> c.priority == priority
    ensures JobPriority(cs, job) == priority
  {
    if cs[|cs| - 1].job != job {
      UniformPriority(cs[..|cs| - 1], job, priority);
    }
  }

  /** Two priority-1 jobs and one priority-3 job, each with `n` candidates. */
  function TwoHeavyOneBulk(a: JobId, b: JobId, c: JobId, n: nat): seq<Candidate> {
    Backlog(a, 1, n) + Backlog(b, 1, n) + Backlog(c, 3, n)
  }

  ghost predicate Different(a: JobId, b: JobId, c: JobId) {
    a != b && b != c && a != c
  }

  lemma BacklogQueues(a: JobId, b: JobId, c: JobId, n: nat, job: JobId)
    requires n > 0 && Different(a, b, c)
    ensures job == a || job == b || job == c ==> |QueueOf(Arrivals(TwoHeavyOneBulk(a, b, c, n)), job)| == n
    ensures job in JobsOf(Arrivals(TwoHeavyOneBulk(a, b, c, n))) <==> job == a || job == b || job == c
  {
    var xs, ys, zs := Backlog(a, 1, n), Backlog(b, 1, n), Backlog(c, 3, n);
    QueueSplits(xs + ys, zs, job);
    QueueSplits(xs, ys, job);
    BacklogQueue(a, 1, n, job);
    BacklogQueue(b, 1, n, job);
    BacklogQueue(c, 3, n, job);
    SortKeepsQueues(TwoHeavyOneBulk(a, b, c, n), job);
    QueueHoldsJob(Arrivals(TwoHeavyOneBulk(a, b, c, n)), job);
  }

  lemma BacklogQueue(own: JobId, priority: int, n: nat, job: JobId)
    ensures |QueueOf(Backlog(own, priority, n), job)| == if job == own then n else 0
  {
    QueueOfOneJob(Backlog(own, priority, n), own, job);
  }

  lemma BacklogPriority(a: JobId, b: JobId, c: JobId, n: nat, job: JobId)
    requires n > 0 && Different(a, b, c)
    requires job in JobsOf(Arrivals(TwoHeavyOneBulk(a, b, c, n)))
    ensures JobPriority(Arrivals(TwoHeavyOneBulk(a, b, c, n)), job) == if job == c then 3 else 1
  {
    var cs := TwoHeavyOneBulk(a, b, c, n);
    forall x | x in Arrivals(cs) && x.job == job
      ensures x.priority == if job == c then 3 else 1
    {
      assert x in multiset(Arrivals(cs));
      assert x in cs;
    }
    UniformPriority(Arrivals(cs), job, if job == c then 3 else 1);
  }

  lemma BacklogIsDeep(weights: PollWeights, a: JobId, b: JobId, c: JobId, limit: nat)
    requires weights.Positive() && Different(a, b, c)
    ensures Deep(TwoHeavyOneBulk(a, b, c, limit + 1), limit)
  {
    var cs := Arrivals(TwoHeavyOneBulk(a, b, c, limit + 1));
    forall j | j in JobsOf(cs)
      ensures |QueueOf(cs, j)| > limit
    {
      BacklogQueues(a, b, c, limit + 1, j);
    }
  }

  lemma BacklogPressure(a: JobId, b: JobId, c: JobId, n: nat)
    requires n > 0 && Different(a, b, c)
    ensures Heavier(BatchBook(SHIPPED_WEIGHTS, TwoHeavyOneBulk(a, b, c, n)), [a, b], c)
    ensures Pressure(BatchBook(SHIPPED_WEIGHTS, TwoHeavyOneBulk(a, b, c, n)), [a, b], c) == 14
  {
    BacklogWeight(a, b, c, n, a);
    BacklogWeight(a, b, c, n, b);
    BacklogWeight(a, b, c, n, c);
    PressureOfTwo(BatchBook(SHIPPED_WEIGHTS, TwoHeavyOneBulk(a, b, c, n)), a, b, c);
  }

  lemma PressureOfTwo(book: Book, a: JobId, b: JobId, c: JobId)
    requires Different(a, b, c) && a in book.weight && b in book.weight && c in book.weight
    requires book.weight[a] == book.weight[b] == 8 && book.weight[c] == 1
    ensures Heavier(book, [a, b], c) && Pressure(book, [a, b], c) == 14
  {
    assert [a, b][1..] == [b] && [b][1..] == [];
    assert Excess([b], book.weight, book.weight[c]) == 7;
  }

  lemma BacklogMaxWeight(a: JobId, b: JobId, c: JobId, n: nat)
    requires n > 0 && Different(a, b, c)
    ensures BatchBook(SHIPPED_WEIGHTS, TwoHeavyOneBulk(a, b, c, n)).maxWeight <= 8
  {
    var book := BatchBook(SHIPPED_WEIGHTS, TwoHeavyOneBulk(a, b, c, n));
    var heaviest :| heaviest in JobsOf(Arrivals(TwoHeavyOneBulk(a, b, c, n)))
        && book.weight[heaviest] == book.maxWeight;
    BacklogWeight(a, b, c, n, heaviest);
  }

  lemma BacklogWeight(a: JobId, b: JobId, c: JobId, n: nat, job: JobId)
    requires n > 0 && Different(a, b, c)
    ensures var weight := BatchBook(SHIPPED_WEIGHTS, TwoHeavyOneBulk(a, b, c, n)).weight;
            && (job in weight <==> job == a || job == b || job == c)
            && (job in weight ==> weight[job] == if job == c then 1 else 8)
  {
    BacklogQueues(a, b, c, n, job);
    if job in JobsOf(Arrivals(TwoHeavyOneBulk(a, b, c, n))) {
      BacklogPriority(a, b, c, n, job);
    }
  }

  /** With the shipped weights, two busy high-priority jobs shut a bulk job out of batches of every size. */
  lemma ShippedWeightsStarve(a: JobId, b: JobId, c: JobId, limit: nat)
    requires Different(a, b, c)
    ensures PickCount(SHIPPED_WEIGHTS, TwoHeavyOneBulk(a, b, c, limit + 1), limit, c) == 0
    ensures LeftOver(SHIPPED_WEIGHTS, TwoHeavyOneBulk(a, b, c, limit + 1), limit, c)
  {
    var candidates := TwoHeavyOneBulk(a, b, c, limit + 1);
    BacklogIsDeep(SHIPPED_WEIGHTS, a, b, c, limit);
    DeepLeavesWork(SHIPPED_WEIGHTS, candidates, limit);
    BacklogPressure(a, b, c, limit + 1);
    BacklogMaxWeight(a, b, c, limit + 1);
    BacklogQueues(a, b, c, limit + 1, c);
    HeavyJobsStarve(SHIPPED_WEIGHTS, candidates, limit, [a, b], c);
  }
}
