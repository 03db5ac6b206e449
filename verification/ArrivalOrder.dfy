/** Whose turn it is, on the candidates' own columns: oldest first within a job, and which job opens a batch. */
module ArrivalOrder {
  import opened Ordering
  import opened Fairness
  import opened FairnessTheorems
  import opened Shares

  /** Created earlier, or at the same time with the smaller task id. */
  predicate Earlier(c: Candidate, d: Candidate) {
    c.created < d.created || (c.created == d.created && c.task != d.task && StrLe(c.task, d.task))
  }

  /** Where the entries of a job's queue stand in the whole sequence. */
  lemma {:induction false} QueuePlaces(cs: seq<Candidate>, job: JobId) returns (at: seq<nat>)
    ensures |at| == |QueueOf(cs, job)|
    ensures forall m :: 0 <= m < |at| ==> at[m] < |cs| && cs[at[m]] == QueueOf(cs, job)[m]
    ensures forall m, k :: 0 <= m < k < |at| ==> at[m] < at[k]
  {
    at := [];
    if cs != [] {
      at := QueuePlaces(cs[..|cs| - 1], job);
      if cs[|cs| - 1].job == job {
        at := at + [|cs| - 1];
      }
    }
  }

  lemma QueueIndex(cs: seq<Candidate>, c: Candidate) returns (m: nat)
    requires c in cs
    ensures m < |QueueOf(cs, c.job)| && QueueOf(cs, c.job)[m] == c
  {
    QueueKeepsCounts(cs, c);
    assert c in multiset(cs);
    assert c in multiset(QueueOf(cs, c.job));
    m :| 0 <= m < |QueueOf(cs, c.job)| && QueueOf(cs, c.job)[m] == c;
  }

  /** In a job's queue the earlier candidate stands first. */
  lemma QueueIsOldestFirst(candidates: seq<Candidate>, c: Candidate, d: Candidate, m: nat, k: nat)
    requires c.job == d.job && Earlier(c, d)
    requires var q := QueueOf(Arrivals(candidates), c.job); m < |q| && k < |q| && q[m] == c && q[k] == d
    ensures m < k
  {
    var cs := Arrivals(candidates);
    var at := QueuePlaces(cs, c.job);
    if k < m {
      assert KeyLe(ArrivalKey(cs[at[k]]), ArrivalKey(cs[at[m]]));
      StrAntisymmetricIf(c.task, d.task);
    }
  }

  lemma StrAntisymmetricIf(a: string, b: string)
    ensures StrLe(a, b) && StrLe(b, a) ==> a == b
  {
    if StrLe(a, b) && StrLe(b, a) {
      StrAntisymmetric(a, b);
    }
  }

  /** Of two candidates of one job the later is never picked without the earlier, nor before it. */
  lemma OldestFirst(weights: PollWeights, candidates: seq<Candidate>, limit: nat, c: Candidate, d: Candidate)
    returns (i: nat, j: nat)
    requires weights.Positive() && c in candidates && c.job == d.job && Earlier(c, d)
    requires d in FairBatch(weights, candidates, limit)
    ensures var batch := FairBatch(weights, candidates, limit);
            i < j < |batch| && batch[i] == c && batch[j] == d
  {
    var batch, cs := FairBatch(weights, candidates, limit), Arrivals(candidates);
    BatchIsComplete(weights, candidates, limit);
    assert c in multiset(candidates);
    assert c in multiset(cs);
    var m := QueueIndex(cs, c);
    var k := QueueIndex(batch, d);
    assert QueueOf(batch, c.job) <= QueueOf(cs, c.job);
    QueueIsOldestFirst(candidates, c, d, m, k);
    var at := QueuePlaces(batch, c.job);
    i, j := at[m], at[k];
  }

  /** The latest candidate of its job. */
  predicate Newest(candidates: seq<Candidate>, n: Candidate) {
    n in candidates && forall c :: c in candidates && c.job == n.job && c != n ==> Earlier(c, n)
  }

  lemma {:induction false} LastOfQueue(cs: seq<Candidate>, job: JobId)
    requires job in JobsOf(cs)
    ensures QueueOf(cs, job) != [] && JobPriority(cs, job) == QueueOf(cs, job)[|QueueOf(cs, job)| - 1].priority
  {
    if cs[|cs| - 1].job != job {
      LastOfQueue(cs[..|cs| - 1], job);
    }
  }

  lemma ArrivalsAreCandidates(candidates: seq<Candidate>, c: Candidate)
    ensures c in Arrivals(candidates) <==> c in candidates
  {
    assert c in multiset(Arrivals(candidates)) <==> c in multiset(candidates);
  }

  /** The newest candidate of a job ends its queue. */
  lemma NewestIsLast(candidates: seq<Candidate>, n: Candidate)
    requires Newest(candidates, n)
    ensures var q := QueueOf(Arrivals(candidates), n.job); q != [] && q[|q| - 1] == n
  {
    var cs := Arrivals(candidates);
    var q := QueueOf(cs, n.job);
    ArrivalsAreCandidates(candidates, n);
    var m := QueueIndex(cs, n);
    var last := QueueEnd(cs, n.job);
    ArrivalsAreCandidates(candidates, last);
    if last != n {
      QueueIsOldestFirst(candidates, last, n, |q| - 1, m);
    }
  }

  lemma QueueEnd(cs: seq<Candidate>, job: JobId) returns (last: Candidate)
    requires QueueOf(cs, job) != []
    ensures var q := QueueOf(cs, job); last == q[|q| - 1] && last in cs && last.job == job
  {
    var q := QueueOf(cs, job);
    last := q[|q| - 1];
    QueueHoldsJob(cs, job);
    var at := QueuePlaces(cs, job);
    assert last == cs[at[|q| - 1]];
  }

  /** A job counts with the priority of its newest candidate. */
  lemma NewestDecides(weights: PollWeights, candidates: seq<Candidate>, n: Candidate)
    requires Newest(candidates, n)
    ensures n.job in JobsOf(Arrivals(candidates))
    ensures JobPriority(Arrivals(candidates), n.job) == n.priority
    ensures WeightOf(weights, candidates, n.job) == weights.Of(n.priority)
  {
    NewestIsLast(candidates, n);
    QueueHoldsJob(Arrivals(candidates), n.job);
    LastOfQueue(Arrivals(candidates), n.job);
  }

  lemma {:induction false} RunExtends(book: Book, s: Rounds, limit: nat, idle: nat)
    requires Running(book, s, idle)
    ensures s.picked <= Run(book, s, limit, idle).picked
    decreases limit - |s.picked|, book.maxWeight - idle
  {
    if |s.picked| < limit && WorkLeft(s) {
      RoundKeepsRunning(book, s, idle);
      RunExtends(book, NextRound(book, s), limit, NextIdle(book, s, idle));
    }
  }

  /** In the first round every job has its weight as credit, and work. */
  lemma FirstCredits(book: Book, cs: seq<Candidate>, j: JobId)
    requires Running(book, Start(cs), 0) && j in book.weight
    ensures var s := Start(cs);
            j in s.queues && s.queues[j] == QueueOf(cs, j) != [] && Accrue(book, s)[j] == book.weight[j]
  {
    QueueHoldsJob(cs, j);
  }

  lemma FirstChoice(book: Book, cs: seq<Candidate>) returns (best: JobId)
    requires Running(book, Start(cs), 0)
    requires exists j :: j in book.weight && book.weight[j] == book.maxWeight
    ensures best in book.weight && best in book.priority && QueueOf(cs, best) != []
    ensures NextRound(book, Start(cs)).picked == [QueueOf(cs, best)[0]]
    ensures forall j :: j in book.weight ==>
              KeyLe(Key(-book.weight[best], book.priority[best], best), Key(-book.weight[j], book.priority[j], j))
  {
    var s := Start(cs);
    var credits := Accrue(book, s);
    var top :| top in book.weight && book.weight[top] == book.maxWeight;
    FirstCredits(book, cs, top);
    assert top in Eligible(book, s, credits);
    best := Best(book, credits, Eligible(book, s, credits));
    FirstCredits(book, cs, best);
    forall j | j in book.weight
      ensures KeyLe(Key(-book.weight[best], book.priority[best], best), Key(-book.weight[j], book.priority[j], j))
    {
      FirstCredits(book, cs, j);
      if book.weight[j] >= book.maxWeight {
        assert j in Eligible(book, s, credits);
        assert KeyLe(PickKey(book, credits, best), PickKey(book, credits, j));
      }
    }
  }

  lemma FirstRound(book: Book, cs: seq<Candidate>, limit: nat) returns (f: Candidate)
    requires Running(book, Start(cs), 0) && limit > 0
    requires exists j :: j in book.weight && book.weight[j] == book.maxWeight
    ensures Run(book, Start(cs), limit, 0).picked != [] && f == Run(book, Start(cs), limit, 0).picked[0]
    ensures f.job in book.weight && f.job in book.priority && f in cs
    ensures forall j :: j in book.weight ==>
              KeyLe(Key(-book.weight[f.job], book.priority[f.job], f.job), Key(-book.weight[j], book.priority[j], j))
  {
    var s := Start(cs);
    var best := FirstChoice(book, cs);
    f := QueueOf(cs, best)[0];
    QueueHoldsJob(cs, best);
    var at := QueuePlaces(cs, best);
    assert f == cs[at[0]];
    FirstCredits(book, cs, best);
    assert WorkLeft(s);
    RoundKeepsRunning(book, s, 0);
    RunExtends(book, NextRound(book, s), limit, NextIdle(book, s, 0));
  }

  /** The job of candidate `n` goes before that of `m`: more weight, then the smaller priority number, then the id. */
  predicate Leads(weights: PollWeights, n: Candidate, m: Candidate) {
    var v, w := weights.Of(n.priority), weights.Of(m.priority);
    v > w || (v == w && (n.priority < m.priority || (n.priority == m.priority && StrLe(n.job, m.job))))
  }

  /** A batch opens with the job that leads all others, each judged by its newest candidate. */
  lemma LeaderOpens(weights: PollWeights, candidates: seq<Candidate>, limit: nat, n: Candidate, m: Candidate)
    requires weights.Positive() && limit > 0 && Newest(candidates, n) && Newest(candidates, m)
    requires var batch := FairBatch(weights, candidates, limit); batch != [] ==> batch[0].job == n.job
    ensures FairBatch(weights, candidates, limit) != [] && Leads(weights, n, m)
  {
    var cs := Arrivals(candidates);
    assert |cs| == |candidates|;
    StartRuns(weights, cs);
    var f := FirstRound(BookOf(weights, cs), cs, limit);
    assert FairBatch(weights, candidates, limit)[0] == f;
    NewestDecides(weights, candidates, n);
    NewestDecides(weights, candidates, m);
  }

  /** Every candidate of the job has this priority. */
  predicate AllOf(candidates: seq<Candidate>, job: JobId, priority: int) {
    forall c :: c in candidates && c.job == job ==> c.priority == priority
  }

  lemma ClassWeight(candidates: seq<Candidate>, job: JobId, priority: int)
    requires AllOf(candidates, job, priority) && 0 <= priority <= 3 && job in JobsOf(Arrivals(candidates))
    ensures WeightOf(SHIPPED_WEIGHTS, candidates, job) == if priority <= 1 then 8 else if priority == 2 then 4 else 1
  {
    var cs := Arrivals(candidates);
    LastOfQueue(cs, job);
    var last := QueueEnd(cs, job);
    ArrivalsAreCandidates(candidates, last);
  }

  lemma ShareInNumbers(p: nat, q: nat, light: int, heavy: int)
    requires InShare(p, light, q, heavy)
    ensures heavy == 8 && light == 4 ==> 2 * p <= q + 1
    ensures heavy == 8 && light == 1 ==> 8 * p <= q + 1
    ensures heavy == 4 && light == 1 ==> 4 * p <= q + 1
  {
  }

  /**
   * What the shipped weights come to: while a job of a higher class has work, a job of the next class gets at most a
   * half, and a bulk job at most an eighth of its picks or a quarter of a normal job's, counting one pick more.
   */
  lemma ShippedShares(candidates: seq<Candidate>, limit: nat, i: JobId, j: JobId, low: int, top: int)
    requires i in JobsOf(Arrivals(candidates)) && j in JobsOf(Arrivals(candidates))
    requires AllOf(candidates, i, low) && AllOf(candidates, j, top) && 0 <= top < low <= 3 && low >= 2
    requires LeftOver(SHIPPED_WEIGHTS, candidates, limit, j)
    ensures var p := PickCount(SHIPPED_WEIGHTS, candidates, limit, i);
            var q := PickCount(SHIPPED_WEIGHTS, candidates, limit, j);
            (if low == 2 then 2 else if top == 2 then 4 else 8) * p <= q + 1
  {
    ClassWeight(candidates, i, low);
    ClassWeight(candidates, j, top);
    ShareBound(SHIPPED_WEIGHTS, candidates, limit, i, j);
    ShareInNumbers(PickCount(SHIPPED_WEIGHTS, candidates, limit, i), PickCount(SHIPPED_WEIGHTS, candidates, limit, j),
                   WeightOf(SHIPPED_WEIGHTS, candidates, i), WeightOf(SHIPPED_WEIGHTS, candidates, j));
  }
}
