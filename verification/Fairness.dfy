/** Weighted round-robin selection of one admission batch. */
module Fairness {
  import opened Ordering
  import opened Lanes

  type JobId = string

  datatype Candidate = Candidate(task: string, job: JobId, lane: Lane, priority: int, created: int)

  /** `poll_batch_weights` of the queue configuration. */
  datatype PollWeights = PollWeights(high: int, normal: int, bulk: int) {
    function Of(priority: int): int {
      if priority <= 1 then high else if priority == 2 then normal else bulk
    }

    predicate Positive() {
      high >= 1 && normal >= 1 && bulk >= 1
    }
  }

  const SHIPPED_WEIGHTS := PollWeights(8, 4, 1)

  function ArrivalKey(c: Candidate): Key {
    Key(0, c.created, c.task)
  }

  function Arrivals(candidates: seq<Candidate>): seq<Candidate> {
    SortBy(ArrivalKey, candidates)
  }

  /** The candidates of one job, in order. */
  function QueueOf(cs: seq<Candidate>, job: JobId): seq<Candidate> {
    if cs == [] then []
    else
      var last := cs[|cs| - 1];
      QueueOf(cs[..|cs| - 1], job) + if last.job == job then [last] else []
  }

  function JobsOf(cs: seq<Candidate>): set<JobId> {
    if cs == [] then {} else JobsOf(cs[..|cs| - 1]) + {cs[|cs| - 1].job}
  }

  /** A job's priority is that of its latest candidate: later rows overwrite earlier ones. */
  function JobPriority(cs: seq<Candidate>, job: JobId): int
    requires job in JobsOf(cs)
  {
    var last := cs[|cs| - 1];
    if last.job == job then last.priority else JobPriority(cs[..|cs| - 1], job)
  }

  /** The per-job weights and priorities of a batch, and the largest weight. */
  datatype Book = Book(weight: map<JobId, int>, priority: map<JobId, int>, maxWeight: int)

  function WeightTable(weights: PollWeights, cs: seq<Candidate>): map<JobId, int> {
    map j | j in JobsOf(cs) :: weights.Of(JobPriority(cs, j))
  }

  function PriorityTable(cs: seq<Candidate>): map<JobId, int> {
    map j | j in JobsOf(cs) :: JobPriority(cs, j)
  }

  /** The largest weight among the jobs of the first `n` candidates. */
  function MaxWeight(weight: map<JobId, int>, cs: seq<Candidate>): (m: int)
    requires cs != [] && JobsOf(cs) <= weight.Keys
    ensures exists j :: j in JobsOf(cs) && weight[j] == m
    ensures forall j :: j in JobsOf(cs) ==> weight[j] <= m
  {
    var last := cs[|cs| - 1];
    if |cs| == 1 then weight[last.job]
    else
      var rest := MaxWeight(weight, cs[..|cs| - 1]);
      if weight[last.job] > rest then weight[last.job] else rest
  }

  function BookOf(weights: PollWeights, cs: seq<Candidate>): Book
    requires cs != []
  {
    var weight := WeightTable(weights, cs);
    Book(weight, PriorityTable(cs), MaxWeight(weight, cs))
  }

  /** Credits, remaining queues and the selection so far. */
  datatype Rounds = Rounds(queues: map<JobId, seq<Candidate>>, credits: map<JobId, int>, picked: seq<Candidate>)

  predicate Fits(book: Book, s: Rounds) {
    book.weight.Keys == book.priority.Keys == s.queues.Keys == s.credits.Keys
  }

  predicate Backlogged(s: Rounds, job: JobId) {
    job in s.queues && s.queues[job] != []
  }

  /** Every job with work left earns its weight. */
  function Accrue(book: Book, s: Rounds): (credits: map<JobId, int>)
    requires Fits(book, s)
  {
    map j | j in s.credits :: s.credits[j] + if s.queues[j] != [] then book.weight[j] else 0
  }

  function Eligible(book: Book, s: Rounds, credits: map<JobId, int>): set<JobId>
    requires s.queues.Keys == credits.Keys
  {
    set j | j in s.queues && s.queues[j] != [] && credits[j] >= book.maxWeight
  }

  /** Most credit first, then the smaller priority number, then the smaller job id. */
  function PickKey(book: Book, credits: map<JobId, int>, job: JobId): Key
    requires job in credits && job in book.priority
  {
    Key(-credits[job], book.priority[job], job)
  }

  ghost predicate IsBest(book: Book, credits: map<JobId, int>, eligible: set<JobId>, best: JobId)
    requires eligible <= credits.Keys && eligible <= book.priority.Keys
  {
    best in eligible && forall j :: j in eligible ==> KeyLe(PickKey(book, credits, best), PickKey(book, credits, j))
  }

  lemma {:induction false} BestExists(book: Book, credits: map<JobId, int>, eligible: set<JobId>)
    requires eligible != {} && eligible <= credits.Keys && eligible <= book.priority.Keys
    ensures exists best :: IsBest(book, credits, eligible, best)
    decreases eligible
  {
    var one :| one in eligible;
    KeyTotal(PickKey(book, credits, one), PickKey(book, credits, one));
    if eligible == {one} {
      assert IsBest(book, credits, eligible, one);
    } else {
      BestExists(book, credits, eligible - {one});
      var rest :| IsBest(book, credits, eligible - {one}, rest);
      KeyTotal(PickKey(book, credits, one), PickKey(book, credits, rest));
      if KeyLe(PickKey(book, credits, rest), PickKey(book, credits, one)) {
        assert IsBest(book, credits, eligible, rest);
      } else {
        forall j | j in eligible - {one}
          ensures KeyLe(PickKey(book, credits, one), PickKey(book, credits, j))
        {
          KeyTransitive(PickKey(book, credits, one), PickKey(book, credits, rest), PickKey(book, credits, j));
        }
        assert IsBest(book, credits, eligible, one);
      }
    }
  }

  ghost function Best(book: Book, credits: map<JobId, int>, eligible: set<JobId>): (best: JobId)
    requires eligible != {} && eligible <= credits.Keys && eligible <= book.priority.Keys
    ensures IsBest(book, credits, eligible, best)
  {
    BestExists(book, credits, eligible);
    var best :| IsBest(book, credits, eligible, best);
    best
  }

  lemma BestUnique(book: Book, credits: map<JobId, int>, eligible: set<JobId>, best: JobId)
    requires eligible <= credits.Keys && eligible <= book.priority.Keys
    requires IsBest(book, credits, eligible, best)
    ensures best == Best(book, credits, eligible)
  {
    var other := Best(book, credits, eligible);
    KeyAntisymmetric(PickKey(book, credits, best), PickKey(book, credits, other));
  }

  /** One pass of the loop: accrue, then serve the best eligible job, or idle. */
  ghost function NextRound(book: Book, s: Rounds): (t: Rounds)
    requires Fits(book, s)
    ensures Fits(book, t)
  {
    var credits := Accrue(book, s);
    var eligible := Eligible(book, s, credits);
    if eligible == {} then s.(credits := credits)
    else
      var best := Best(book, credits, eligible);
      Rounds(s.queues[best := s.queues[best][1..]],
             credits[best := credits[best] - book.maxWeight],
             s.picked + [s.queues[best][0]])
  }

  predicate WorkLeft(s: Rounds) {
    exists j :: j in s.queues && s.queues[j] != []
  }

  /** `idle` bounds from below what every backlogged job has saved since the last pick. */
  predicate Saved(s: Rounds, idle: nat) {
    forall j :: j in s.queues && j in s.credits && s.queues[j] != [] ==> s.credits[j] >= idle
  }

  ghost predicate Running(book: Book, s: Rounds, idle: nat) {
    Fits(book, s) && (forall j :: j in book.weight ==> 1 <= book.weight[j] <= book.maxWeight)
    && Saved(s, idle) && forall j :: j in s.credits ==> s.credits[j] >= 0
  }

  ghost function NextIdle(book: Book, s: Rounds, idle: nat): nat
    requires Fits(book, s)
  {
    if Eligible(book, s, Accrue(book, s)) == {} then idle + 1 else 0
  }

  lemma RoundKeepsRunning(book: Book, s: Rounds, idle: nat)
    requires Running(book, s, idle)
    ensures Running(book, NextRound(book, s), NextIdle(book, s, idle))
    ensures WorkLeft(s) && NextIdle(book, s, idle) == idle + 1 ==> idle + 1 < book.maxWeight
    ensures |NextRound(book, s).picked| == |s.picked| + if NextIdle(book, s, idle) == 0 then 1 else 0
  {
    var credits := Accrue(book, s);
    var eligible := Eligible(book, s, credits);
    if eligible == {} && WorkLeft(s) {
      var j :| j in s.queues && s.queues[j] != [];
      assert j !in eligible;
    }
  }

  /** The whole loop: it stops at the batch limit or when no work is left. */
  ghost function Run(book: Book, s: Rounds, limit: nat, idle: nat): (r: Rounds)
    requires Running(book, s, idle)
    decreases limit - |s.picked|, book.maxWeight - idle
  {
    if |s.picked| >= limit || !WorkLeft(s) then s
    else
      RoundKeepsRunning(book, s, idle);
      Run(book, NextRound(book, s), limit, NextIdle(book, s, idle))
  }

  function Start(cs: seq<Candidate>): Rounds {
    Rounds(map j | j in JobsOf(cs) :: QueueOf(cs, j), map j | j in JobsOf(cs) :: 0, [])
  }

  lemma StartRuns(weights: PollWeights, cs: seq<Candidate>)
    requires weights.Positive() && cs != []
    ensures Running(BookOf(weights, cs), Start(cs), 0)
  {
    var book, s := BookOf(weights, cs), Start(cs);
    assert JobsOf(cs) == book.weight.Keys == book.priority.Keys == s.queues.Keys == s.credits.Keys;
    forall j | j in book.weight ensures 1 <= book.weight[j] <= book.maxWeight {
      assert book.weight[j] == weights.Of(JobPriority(cs, j));
    }
  }

  /** The final state of the loop over the arrivals of a batch. */
  ghost function Final(weights: PollWeights, candidates: seq<Candidate>, limit: int): Rounds
    requires weights.Positive() && candidates != [] && limit > 0
  {
    var cs := Arrivals(candidates);
    assert cs != [] by { assert |cs| == |candidates|; }
    StartRuns(weights, cs);
    Run(BookOf(weights, cs), Start(cs), limit, 0)
  }

  ghost function FairBatch(weights: PollWeights, candidates: seq<Candidate>, limit: int): seq<Candidate>
    requires weights.Positive()
  {
    if limit <= 0 || candidates == [] then [] else Final(weights, candidates, limit).picked
  }

  /** The eligible job with the least key: Python's `min` over the list of eligible ids. */
  method BestOf(book: Book, credits: map<JobId, int>, eligible: set<JobId>) returns (best: JobId)
    requires eligible != {} && eligible <= credits.Keys && eligible <= book.priority.Keys
    ensures best == Best(book, credits, eligible)
  {
    best :| best in eligible;
    KeyTotal(PickKey(book, credits, best), PickKey(book, credits, best));
    var rest := eligible - {best};
    while rest != {}
      invariant rest <= eligible
      invariant IsBest(book, credits, eligible - rest, best)
      decreases rest
    {
      var j :| j in rest;
      KeyTotal(PickKey(book, credits, best), PickKey(book, credits, j));
      KeyTotal(PickKey(book, credits, j), PickKey(book, credits, j));
      if !KeyLe(PickKey(book, credits, best), PickKey(book, credits, j)) {
        forall k | k in eligible - rest
          ensures KeyLe(PickKey(book, credits, j), PickKey(book, credits, k))
        {
          KeyTransitive(PickKey(book, credits, j), PickKey(book, credits, best), PickKey(book, credits, k));
        }
        best := j;
      }
      rest := rest - {j};
    }
    assert eligible - rest == eligible;
    BestUnique(book, credits, eligible, best);
  }

  lemma {:induction false} NoQueueWithoutJob(cs: seq<Candidate>, job: JobId)
    requires job !in JobsOf(cs)
    ensures QueueOf(cs, job) == []
  {
    if cs != [] {
      NoQueueWithoutJob(cs[..|cs| - 1], job);
    }
  }

  lemma ReadQueue(cs: seq<Candidate>, c: Candidate, job: JobId)
    ensures QueueOf(cs + [c], job) == if job == c.job then QueueOf(cs, job) + [c] else QueueOf(cs, job)
    ensures JobsOf(cs + [c]) == JobsOf(cs) + {c.job}
    ensures job in JobsOf(cs + [c]) ==>
              JobPriority(cs + [c], job) == if job == c.job then c.priority else JobPriority(cs, job)
  {
    var more := cs + [c];
    assert more[..|cs|] == cs && more[|cs|] == c;
  }

  lemma ReadQueues(cs: seq<Candidate>, c: Candidate)
    ensures Start(cs + [c]).queues == Start(cs).queues[c.job := QueueOf(cs, c.job) + [c]]
  {
    ReadQueue(cs, c, c.job);
    forall j | j in JobsOf(cs + [c])
      ensures QueueOf(cs + [c], j) == Start(cs).queues[c.job := QueueOf(cs, c.job) + [c]][j]
    {
      ReadQueue(cs, c, j);
    }
  }

  lemma ReadPriorities(weights: PollWeights, cs: seq<Candidate>, c: Candidate)
    ensures WeightTable(weights, cs + [c]) == WeightTable(weights, cs)[c.job := weights.Of(c.priority)]
    ensures PriorityTable(cs + [c]) == PriorityTable(cs)[c.job := c.priority]
  {
    ReadQueue(cs, c, c.job);
    forall j | j in JobsOf(cs + [c])
      ensures JobPriority(cs + [c], j) == PriorityTable(cs)[c.job := c.priority][j]
    {
      ReadQueue(cs, c, j);
    }
  }

  /** The jobs, queues, weights and priorities the first loop collects from the sorted candidates. */
  method GroupByJob(weights: PollWeights, cs: seq<Candidate>)
    returns (byJob: map<JobId, seq<Candidate>>, book: Book)
    requires cs != []
    ensures byJob == Start(cs).queues
    ensures book == BookOf(weights, cs)
  {
    byJob := map[];
    var jobWeight: map<JobId, int> := map[];
    var jobPriority: map<JobId, int> := map[];
    for i := 0 to |cs|
      invariant byJob == Start(cs[..i]).queues
      invariant jobWeight == WeightTable(weights, cs[..i])
      invariant jobPriority == PriorityTable(cs[..i])
    {
      var candidate := cs[i];
      var queue := if candidate.job in byJob then byJob[candidate.job] else [];
      if candidate.job !in byJob {
        NoQueueWithoutJob(cs[..i], candidate.job);
      }
      ReadQueues(cs[..i], candidate);
      ReadPriorities(weights, cs[..i], candidate);
      TakeOneMore(cs, i);
      byJob := byJob[candidate.job := queue + [candidate]];
      jobWeight := jobWeight[candidate.job := weights.Of(candidate.priority)];
      jobPriority := jobPriority[candidate.job := candidate.priority];
    }
    assert cs[..|cs|] == cs;
    book := Book(jobWeight, jobPriority, MaxWeight(jobWeight, cs));
  }

  /** The body of the credit loop. */
  method ServeRound(book: Book, s: Rounds) returns (t: Rounds)
    requires Fits(book, s)
    ensures t == NextRound(book, s)
  {
    var credits := map j | j in s.credits :: s.credits[j] + if s.queues[j] != [] then book.weight[j] else 0;
    var eligible := set j | j in s.queues && s.queues[j] != [] && credits[j] >= book.maxWeight;
    if eligible == {} {
      return s.(credits := credits);
    }
    var job := BestOf(book, credits, eligible);
    t := Rounds(s.queues[job := s.queues[job][1..]],
                credits[job := credits[job] - book.maxWeight],
                s.picked + [s.queues[job][0]]);
  }

  method SelectFairBatch(weights: PollWeights, candidates: seq<Candidate>, limit: int)
    returns (selected: seq<Candidate>)
    requires weights.Positive()
    ensures selected == FairBatch(weights, candidates, limit)
  {
    if limit <= 0 || candidates == [] {
      return [];
    }
    var cs := Arrivals(candidates);
    assert |cs| == |candidates|;
    StartRuns(weights, cs);
    var byJob, book := GroupByJob(weights, cs);
    var s := Rounds(byJob, map j | j in byJob :: 0, []);
    assert s == Start(cs);
    ghost var idle: nat := 0;
    while |s.picked| < limit && WorkLeft(s)
      invariant Running(book, s, idle)
      invariant Run(book, s, limit, idle) == Final(weights, candidates, limit)
      decreases limit - |s.picked|, book.maxWeight - idle
    {
      RoundKeepsRunning(book, s, idle);
      idle := NextIdle(book, s, idle);
      s := ServeRound(book, s);
    }
    selected := s.picked;
  }
}
