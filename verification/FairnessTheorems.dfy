/** What one fair batch guarantees: completeness and weight dominance. */
module FairnessTheorems {
  import opened Ordering
  import opened Fairness
  import opened Wrappers

  function Picks(s: Rounds, job: JobId): nat {
    |QueueOf(s.picked, job)|
  }

  /** Picked and queued candidates of a job are exactly its arrivals, in order. */
  ghost predicate Conserved(cs: seq<Candidate>, s: Rounds) {
    && s.queues.Keys == JobsOf(cs)
    && (forall j :: j in s.queues ==> QueueOf(s.picked, j) + s.queues[j] == QueueOf(cs, j))
    && (forall j :: j !in s.queues ==> QueueOf(s.picked, j) == [])
  }

  lemma {:induction false} QueueHoldsJob(cs: seq<Candidate>, job: JobId)
    ensures forall k :: 0 <= k < |QueueOf(cs, job)| ==> QueueOf(cs, job)[k].job == job
    ensures job in JobsOf(cs) <==> QueueOf(cs, job) != []
  {
    if cs != [] {
      QueueHoldsJob(cs[..|cs| - 1], job);
    }
  }

  lemma {:induction false} QueueKeepsCounts(cs: seq<Candidate>, c: Candidate)
    ensures multiset(QueueOf(cs, c.job))[c] == multiset(cs)[c]
  {
    if cs != [] {
      QueueKeepsCounts(cs[..|cs| - 1], c);
      assert cs == cs[..|cs| - 1] + [cs[|cs| - 1]];
    }
  }

  lemma {:induction false} PopConserves(cs: seq<Candidate>, s: Rounds, job: JobId, other: JobId)
    requires Conserved(cs, s) && Backlogged(s, job)
    ensures var c := s.queues[job][0];
            && QueueOf(s.picked + [c], other) == QueueOf(s.picked, other) + (if other == job then [c] else [])
            && (other == job ==> QueueOf(s.picked + [c], other) + s.queues[job][1..] == QueueOf(cs, other))
  {
    var c := s.queues[job][0];
    var whole := QueueOf(cs, job);
    QueueHoldsJob(cs, job);
    assert whole == QueueOf(s.picked, job) + s.queues[job];
    assert c == whole[|QueueOf(s.picked, job)|];
    ReadQueue(s.picked, c, other);
    if other == job {
      assert s.queues[job] == [c] + s.queues[job][1..];
    }
  }

  /** The job a round serves, if any. */
  ghost function Served(book: Book, s: Rounds): Option<JobId>
    requires Fits(book, s)
  {
    var eligible := Eligible(book, s, Accrue(book, s));
    if eligible == {} then None else Some(Best(book, Accrue(book, s), eligible))
  }

  lemma ServeConserves(cs: seq<Candidate>, s: Rounds, t: Rounds, job: JobId)
    requires Conserved(cs, s) && Backlogged(s, job)
    requires t.picked == s.picked + [s.queues[job][0]] && t.queues == s.queues[job := s.queues[job][1..]]
    ensures Conserved(cs, t)
    ensures forall j :: Picks(t, j) == Picks(s, j) + if j == job then 1 else 0
  {
    forall j
      ensures Picks(t, j) == Picks(s, j) + if j == job then 1 else 0
      ensures j in t.queues ==> QueueOf(t.picked, j) + t.queues[j] == QueueOf(cs, j)
      ensures j !in t.queues ==> QueueOf(t.picked, j) == []
    {
      PopConserves(cs, s, job, j);
    }
    assert t.queues.Keys == s.queues.Keys;
  }

  /** What one round does to the picks, in terms of the job it serves. */
  lemma RoundPicks(book: Book, cs: seq<Candidate>, s: Rounds)
    requires Fits(book, s) && Conserved(cs, s)
    ensures Conserved(cs, NextRound(book, s))
    ensures forall j :: Picks(NextRound(book, s), j) == Picks(s, j) + if Served(book, s) == Some(j) then 1 else 0
  {
    var eligible := Eligible(book, s, Accrue(book, s));
    if eligible != {} {
      ServeConserves(cs, s, NextRound(book, s), Best(book, Accrue(book, s), eligible));
    }
  }

  lemma StartConserved(cs: seq<Candidate>)
    ensures Conserved(cs, Start(cs))
  {
  }

  lemma {:induction false} RunConserves(book: Book, cs: seq<Candidate>, s: Rounds, limit: nat, idle: nat)
    requires Running(book, s, idle) && Conserved(cs, s) && |s.picked| <= limit
    ensures var r := Run(book, s, limit, idle);
            Conserved(cs, r) && |r.picked| <= limit && (|r.picked| == limit || !WorkLeft(r))
    decreases limit - |s.picked|, book.maxWeight - idle
  {
    if |s.picked| < limit && WorkLeft(s) {
      RoundKeepsRunning(book, s, idle);
      RoundPicks(book, cs, s);
      RunConserves(book, cs, NextRound(book, s), limit, NextIdle(book, s, idle));
    }
  }

  lemma FinalConserved(weights: PollWeights, candidates: seq<Candidate>, limit: int)
    requires weights.Positive() && candidates != [] && limit > 0
    ensures var r := Final(weights, candidates, limit);
            Conserved(Arrivals(candidates), r) && |r.picked| <= limit && (|r.picked| == limit || !WorkLeft(r))
  {
    var cs := Arrivals(candidates);
    assert |cs| == |candidates|;
    StartRuns(weights, cs);
    StartConserved(cs);
    RunConserves(BookOf(weights, cs), cs, Start(cs), limit, 0);
  }

  function Min(a: int, b: int): int {
    if a <= b then a else b
  }

  lemma PickedCount(cs: seq<Candidate>, r: Rounds, c: Candidate)
    requires Conserved(cs, r)
    ensures multiset(r.picked)[c] <= multiset(cs)[c]
    ensures !WorkLeft(r) ==> multiset(r.picked)[c] == multiset(cs)[c]
  {
    QueueKeepsCounts(r.picked, c);
    QueueKeepsCounts(cs, c);
    QueueHoldsJob(cs, c.job);
    if c.job in r.queues {
      var p, q := QueueOf(r.picked, c.job), r.queues[c.job];
      assert multiset(p + q) == multiset(p) + multiset(q);
    }
  }

  /** A batch holds min(limit, n) of the candidates, none twice, each job served in arrival order. */
  lemma BatchIsComplete(weights: PollWeights, candidates: seq<Candidate>, limit: nat)
    requires weights.Positive()
    ensures var batch := FairBatch(weights, candidates, limit);
            && |batch| == Min(limit, |candidates|)
            && multiset(batch) <= multiset(candidates)
            && (forall j :: QueueOf(batch, j) <= QueueOf(Arrivals(candidates), j))
  {
    if candidates != [] && limit > 0 {
      var cs := Arrivals(candidates);
      FinalConserved(weights, candidates, limit);
      var r := Final(weights, candidates, limit);
      assert FairBatch(weights, candidates, limit) == r.picked;
      forall j
        ensures QueueOf(r.picked, j) <= QueueOf(cs, j)
      {
        if j in r.queues {
          assert QueueOf(r.picked, j) + r.queues[j] == QueueOf(cs, j);
        }
      }
      forall c
        ensures multiset(r.picked)[c] <= multiset(cs)[c]
        ensures !WorkLeft(r) ==> multiset(r.picked)[c] == multiset(cs)[c]
      {
        PickedCount(cs, r, c);
      }
      SizesFollow(r.picked, cs);
      if !WorkLeft(r) {
        SizesFollow(cs, r.picked);
      }
    }
  }

  lemma SizesFollow<T>(xs: seq<T>, ys: seq<T>)
    requires multiset(xs) <= multiset(ys)
    ensures |xs| <= |ys|
  {
    var rest := multiset(ys) - multiset(xs);
    assert multiset(ys) == multiset(xs) + rest;
    assert |multiset(xs)| == |xs| && |multiset(ys)| == |ys|;
  }

  // ---- One round as a step ------------------------------------------------

  /** Credit before this round's payment. */
  function Accrued(book: Book, s: Rounds, job: JobId): int
    requires Fits(book, s) && job in s.credits
  {
    s.credits[job] + if Backlogged(s, job) then book.weight[job] else 0
  }

  /** All credit a job has earned: what it holds plus what its picks cost. */
  function Earned(book: Book, s: Rounds, job: JobId): int
    requires job in s.credits
  {
    s.credits[job] + Picks(s, job) * book.maxWeight
  }

  /** Everything the arguments below use about a round from `s` to `t` that serves the job `served`, if any. */
  ghost predicate Step(book: Book, s: Rounds, t: Rounds, served: Option<JobId>) {
    && Fits(book, s) && Fits(book, t)
    && |t.picked| == |s.picked| + (if served.Some? then 1 else 0)
    && (forall j :: Picks(t, j) == Picks(s, j) + if served == Some(j) then 1 else 0)
    && (forall j :: j in s.credits ==>
                      t.credits[j] == Accrued(book, s, j) - if served == Some(j) then book.maxWeight else 0)
    && (forall j :: Backlogged(t, j) ==> Backlogged(s, j))
    && match served
       case Some(b) => Backlogged(s, b) && Accrued(book, s, b) >= book.maxWeight
                       && forall j :: Backlogged(s, j) ==> Accrued(book, s, b) >= Accrued(book, s, j)
       case None => forall j :: Backlogged(s, j) ==> Accrued(book, s, j) < book.maxWeight
  }

  lemma ServedHoldsMost(book: Book, s: Rounds, b: JobId, other: JobId)
    requires Fits(book, s) && Served(book, s) == Some(b) && Backlogged(s, other)
    ensures Backlogged(s, b) && Accrued(book, s, b) >= book.maxWeight
    ensures Accrued(book, s, b) >= Accrued(book, s, other)
  {
    var credits := Accrue(book, s);
    if other in Eligible(book, s, credits) {
      assert KeyLe(PickKey(book, credits, b), PickKey(book, credits, other));
    }
  }

  lemma CreditStep(book: Book, s: Rounds, job: JobId)
    requires Fits(book, s)
    ensures job in s.credits ==> NextRound(book, s).credits[job]
                                 == Accrued(book, s, job) - if Served(book, s) == Some(job) then book.maxWeight else 0
    ensures Backlogged(NextRound(book, s), job) ==> Backlogged(s, job)
    ensures Served(book, s).None? && Backlogged(s, job) ==> Accrued(book, s, job) < book.maxWeight
  {
    assert Backlogged(s, job) && Accrued(book, s, job) >= book.maxWeight ==>
        job in Eligible(book, s, Accrue(book, s));
  }

  lemma RoundIsStep(book: Book, cs: seq<Candidate>, s: Rounds)
    requires Fits(book, s) && Conserved(cs, s)
    ensures Step(book, s, NextRound(book, s), Served(book, s))
  {
    var t, served := NextRound(book, s), Served(book, s);
    RoundPicks(book, cs, s);
    forall j
      ensures j in s.credits ==> t.credits[j] == Accrued(book, s, j) - if served == Some(j) then book.maxWeight else 0
      ensures Backlogged(t, j) ==> Backlogged(s, j)
      ensures served.None? && Backlogged(s, j) ==> Accrued(book, s, j) < book.maxWeight
      ensures served.Some? && Backlogged(s, j) ==> Accrued(book, s, served.value) >= Accrued(book, s, j)
    {
      CreditStep(book, s, j);
      if served.Some? && Backlogged(s, j) {
        ServedHoldsMost(book, s, served.value, j);
      }
    }
    if served.Some? {
      ServedHoldsMost(book, s, served.value, served.value);
    }
  }

  lemma OneMore(n: int, w: int)
    ensures (n + 1) * w == n * w + w
  {
  }

  lemma Product(a: int, b: int, w: int)
    requires a >= b && w >= 0
    ensures a * w >= b * w
  {
  }

  lemma EarnedStep(book: Book, s: Rounds, t: Rounds, served: Option<JobId>, job: JobId)
    requires Step(book, s, t, served) && job in s.credits
    ensures Earned(book, t, job) == Earned(book, s, job) + if Backlogged(s, job) then book.weight[job] else 0
  {
    OneMore(Picks(s, job), book.maxWeight);
  }

  // ---- Weight dominance ---------------------------------------------------

  /** While `i` has work left, `j` has earned no more than `i` and is at most one pick ahead. */
  ghost predicate Dominates(book: Book, s: Rounds, i: JobId, j: JobId) {
    Backlogged(s, i) && i in s.credits && j in s.credits ==>
      Earned(book, s, j) <= Earned(book, s, i) && Picks(s, j) <= Picks(s, i) + 1
  }

  lemma StepKeepsDominance(book: Book, s: Rounds, t: Rounds, served: Option<JobId>, i: JobId, j: JobId)
    requires Step(book, s, t, served)
    requires i in book.weight && j in book.weight && i != j
    requires book.maxWeight >= book.weight[i] >= book.weight[j] >= 1
    requires Dominates(book, s, i, j)
    ensures Dominates(book, t, i, j)
  {
    if Backlogged(t, i) {
      EarnedStep(book, s, t, served, i);
      EarnedStep(book, s, t, served, j);
      if served == Some(j) && Picks(s, j) > Picks(s, i) {
        OneMore(Picks(s, i), book.maxWeight);
        Product(Picks(s, j), Picks(s, i) + 1, book.maxWeight);
        assert false;
      }
    }
  }

  lemma {:induction false} RunKeepsDominance(book: Book, cs: seq<Candidate>, s: Rounds, limit: nat, idle: nat,
                                             i: JobId, j: JobId)
    requires Running(book, s, idle) && Conserved(cs, s)
    requires i in book.weight && j in book.weight && i != j && book.weight[i] >= book.weight[j]
    requires Dominates(book, s, i, j)
    ensures Dominates(book, Run(book, s, limit, idle), i, j)
    ensures Fits(book, Run(book, s, limit, idle))
    decreases limit - |s.picked|, book.maxWeight - idle
  {
    if |s.picked| < limit && WorkLeft(s) {
      RoundKeepsRunning(book, s, idle);
      RoundPicks(book, cs, s);
      RoundIsStep(book, cs, s);
      StepKeepsDominance(book, s, NextRound(book, s), Served(book, s), i, j);
      RunKeepsDominance(book, cs, NextRound(book, s), limit, NextIdle(book, s, idle), i, j);
    }
  }

  function WeightOf(weights: PollWeights, candidates: seq<Candidate>, job: JobId): int
    requires job in JobsOf(Arrivals(candidates))
  {
    WeightTable(weights, Arrivals(candidates))[job]
  }

  /** A job the batch did not exhaust. */
  ghost predicate LeftOver(weights: PollWeights, candidates: seq<Candidate>, limit: int, job: JobId)
    requires weights.Positive()
  {
    |QueueOf(FairBatch(weights, candidates, limit), job)| < |QueueOf(Arrivals(candidates), job)|
  }

  ghost function PickCount(weights: PollWeights, candidates: seq<Candidate>, limit: int, job: JobId): nat
    requires weights.Positive()
  {
    |QueueOf(FairBatch(weights, candidates, limit), job)|
  }

  lemma LeftOverIsBacklogged(weights: PollWeights, candidates: seq<Candidate>, limit: int, job: JobId)
    requires weights.Positive() && candidates != [] && limit > 0
    requires job in JobsOf(Arrivals(candidates)) && LeftOver(weights, candidates, limit, job)
    ensures Backlogged(Final(weights, candidates, limit), job)
  {
    FinalConserved(weights, candidates, limit);
    var r := Final(weights, candidates, limit);
    assert QueueOf(r.picked, job) + r.queues[job] == QueueOf(Arrivals(candidates), job);
  }

  /** A job of no smaller weight that still has work left is at most one pick behind any other job. */
  lemma WeightDominance(weights: PollWeights, candidates: seq<Candidate>, limit: int, i: JobId, j: JobId)
    requires weights.Positive()
    requires i in JobsOf(Arrivals(candidates)) && j in JobsOf(Arrivals(candidates))
    requires WeightOf(weights, candidates, i) >= WeightOf(weights, candidates, j)
    requires LeftOver(weights, candidates, limit, i)
    ensures PickCount(weights, candidates, limit, j) <= PickCount(weights, candidates, limit, i) + 1
  {
    if candidates != [] && limit > 0 && i != j {
      var cs := Arrivals(candidates);
      assert |cs| == |candidates|;
      StartRuns(weights, cs);
      StartConserved(cs);
      FinalConserved(weights, candidates, limit);
      RunKeepsDominance(BookOf(weights, cs), cs, Start(cs), limit, 0, i, j);
      LeftOverIsBacklogged(weights, candidates, limit, i);
    }
  }
}
