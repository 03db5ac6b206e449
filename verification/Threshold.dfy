/** When a job of a fair batch gets nothing, over deep queues and by the weights alone. */
module Threshold {
  import opened Fairness
  import opened FairnessTheorems
  import opened Starvation
  import opened FirstPick
  import opened Turns

  /** Over queues deeper than the batch, a job gets no pick exactly when the others outlast it in every round. */
  lemma DeepExact(weights: PollWeights, candidates: seq<Candidate>, limit: nat, js: seq<JobId>, i: JobId)
    requires weights.Positive() && candidates != [] && Deep(candidates, limit)
    requires Rivals(BatchBook(weights, candidates), js, i)
    ensures BookOk(BatchBook(weights, candidates))
    ensures PickCount(weights, candidates, limit, i) == 0 <==> Outlasts(BatchBook(weights, candidates), js, i, limit)
  {
    var top := HeaviestJob(weights, candidates);
    StarvationExact(weights, candidates, limit, js, i);
    DeepIsBrisk(BatchBook(weights, candidates), Arrivals(candidates), js, i, top, limit);
    DeepPassed(BatchBook(weights, candidates), Arrivals(candidates), js, i, top, limit);
  }

  function HeavierOf(book: Book, js: seq<JobId>, i: JobId): (hs: seq<JobId>)
    requires i in book.weight && forall j :: j in js ==> j in book.weight
    ensures forall h :: h in hs <==> h in js && book.weight[h] > book.weight[i]
    ensures Distinct(js) ==> Distinct(hs)
  {
    if js == [] then []
    else (if book.weight[js[0]] > book.weight[i] then [js[0]] else []) + HeavierOf(book, js[1..], i)
  }

  lemma PressureCons(book: Book, h: JobId, rest: seq<JobId>, i: JobId)
    requires i in book.weight && h in book.weight && forall j :: j in rest ==> j in book.weight
    ensures Pressure(book, [h] + rest, i) == book.weight[h] - book.weight[i] + Pressure(book, rest, i)
  {
    assert ([h] + rest)[1..] == rest;
  }

  lemma HeavierCons(book: Book, js: seq<JobId>, i: JobId)
    requires js != [] && i in book.weight && forall j :: j in js ==> j in book.weight
    ensures HeavierOf(book, js, i) == if book.weight[js[0]] > book.weight[i] then [js[0]] + HeavierOf(book, js[1..], i)
                                      else HeavierOf(book, js[1..], i)
  {
  }

  /** The surplus is the pressure of the heavier rivals. */
  lemma {:induction false} SurplusIsPressure(book: Book, js: seq<JobId>, i: JobId)
    requires i in book.weight && forall j :: j in js ==> j in book.weight
    ensures Pressure(book, HeavierOf(book, js, i), i) == Surplus(book, js, i)
  {
    if js != [] {
      SurplusIsPressure(book, js[1..], i);
      HeavierCons(book, js, i);
      PressureCons(book, js[0], HeavierOf(book, js[1..], i), i);
    }
  }

  /** A job whose heavier rivals' surplus leaves room is served in every batch long enough for all to have a turn. */
  lemma UnpressedJobIsServed(weights: PollWeights, candidates: seq<Candidate>, limit: nat, js: seq<JobId>, i: JobId)
    requires weights.Positive() && candidates != [] && Rivals(BatchBook(weights, candidates), js, i)
    requires var book := BatchBook(weights, candidates);
             LongEnough(limit, book.maxWeight, Surplus(book, js, i), |js|)
    ensures PickCount(weights, candidates, limit, i) > 0
  {
    var book, cs := BatchBook(weights, candidates), Arrivals(candidates);
    var top := HeaviestJob(weights, candidates);
    SomeRoom(limit, book.maxWeight, Surplus(book, js, i), |js|);
    var n := BatchRounds(weights, candidates, limit, js, i);
    if PickCount(weights, candidates, limit, i) == 0 {
      var r := ReachRound(TotalAfford(book, cs, js, i), limit, n);
      TurnInTime(book, cs, js, i, top, limit, r);
    }
  }

  /** The jobs heavier than `i` have more candidates than the batch takes. */
  ghost predicate HeavyDeep(weights: PollWeights, candidates: seq<Candidate>, limit: nat, js: seq<JobId>, i: JobId)
    requires candidates != [] && Rivals(BatchBook(weights, candidates), js, i)
  {
    var book := BatchBook(weights, candidates);
    forall j :: j in js && book.weight[j] > book.weight[i] ==> Size(Arrivals(candidates), j) > limit
  }

  lemma HeavyDeepStarves(weights: PollWeights, candidates: seq<Candidate>, limit: nat, js: seq<JobId>, i: JobId)
    requires weights.Positive() && candidates != [] && Rivals(BatchBook(weights, candidates), js, i)
    requires HeavyDeep(weights, candidates, limit, js, i)
    requires var book := BatchBook(weights, candidates); Surplus(book, js, i) >= book.maxWeight
    ensures PickCount(weights, candidates, limit, i) == 0
  {
    var book := BatchBook(weights, candidates);
    var hs := HeavierOf(book, js, i);
    SurplusIsPressure(book, js, i);
    BatchIsComplete(weights, candidates, limit);
    forall h | h in hs
      ensures LeftOver(weights, candidates, limit, h)
    {
      QueueFits(FairBatch(weights, candidates, limit), h);
    }
    HeavyJobsStarve(weights, candidates, limit, hs, i);
  }

  /**
   * The threshold: jobs that exceed `i` in total weight by at least the largest weight shut it out of every batch they
   * do not run out in; jobs that exceed it by less shut it out of none longer than
   * `maxWeight * rivals / (maxWeight - surplus)`.
   */
  lemma ThresholdExact(weights: PollWeights, candidates: seq<Candidate>, limit: nat, js: seq<JobId>, i: JobId)
    requires weights.Positive() && candidates != [] && Rivals(BatchBook(weights, candidates), js, i)
    requires var book := BatchBook(weights, candidates);
             if Surplus(book, js, i) >= book.maxWeight then HeavyDeep(weights, candidates, limit, js, i)
             else LongEnough(limit, book.maxWeight, Surplus(book, js, i), |js|)
    ensures var book := BatchBook(weights, candidates);
            PickCount(weights, candidates, limit, i) == 0 <==> Surplus(book, js, i) >= book.maxWeight
  {
    var book := BatchBook(weights, candidates);
    if Surplus(book, js, i) >= book.maxWeight {
      HeavyDeepStarves(weights, candidates, limit, js, i);
    } else {
      UnpressedJobIsServed(weights, candidates, limit, js, i);
    }
  }

  /** The batch limit a tick takes by default. */
  const DEFAULT_LIMIT := 32

  /** With the shipped weights, a default batch of up to four jobs starves exactly the jobs over the threshold. */
  lemma DefaultBatchExact(candidates: seq<Candidate>, js: seq<JobId>, i: JobId)
    requires candidates != [] && |js| <= 3 && Rivals(BatchBook(SHIPPED_WEIGHTS, candidates), js, i)
    requires var book := BatchBook(SHIPPED_WEIGHTS, candidates);
             Surplus(book, js, i) >= book.maxWeight ==> HeavyDeep(SHIPPED_WEIGHTS, candidates, DEFAULT_LIMIT, js, i)
    ensures var book := BatchBook(SHIPPED_WEIGHTS, candidates);
            PickCount(SHIPPED_WEIGHTS, candidates, DEFAULT_LIMIT, i) == 0 <==> Surplus(book, js, i) >= book.maxWeight
  {
    var book := BatchBook(SHIPPED_WEIGHTS, candidates);
    var top := HeaviestJob(SHIPPED_WEIGHTS, candidates);
    assert book.maxWeight <= 8;
    if Surplus(book, js, i) < book.maxWeight {
      Product(3, |js|, book.maxWeight);
    }
    ThresholdExact(SHIPPED_WEIGHTS, candidates, DEFAULT_LIMIT, js, i);
  }
}
