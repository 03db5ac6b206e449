/** The control plane's shared state and its atomic steps: task table, outbox, streams and clock. */
module World {
  import opened Wrappers
  import opened Lanes

  type TaskId = string
  type JobId = string
  type WorkerId = string

  datatype State = Pending | Ready | Leased | Running | Succeeded | RetryWait | Blocked | Failed | DeadLetter

  predicate Terminal(s: State) {
    s.Succeeded? || s.Failed? || s.Blocked? || s.DeadLetter?
  }

  predicate Active(s: State) {
    s.Leased? || s.Running?
  }

  /** The columns of `tasks` that decide behaviour; bookkeeping timestamps and provenance are not modelled. */
  datatype Task = Task(
    job: JobId, lane: Lane, priority: int, attempt: int, state: State, key: string, payloadRef: string,
    createdAt: int, notBefore: Option<int>, retryAt: Option<int>,
    owner: Option<WorkerId>, generation: int, expires: Option<int>)

  datatype Payload = Payload(task: TaskId, job: JobId, lane: Lane, priority: int, attempt: int, key: string,
                             payloadRef: string, createdAt: int)

  function PayloadOf(t: TaskId, task: Task): Payload {
    Payload(t, task.job, task.lane, task.priority, task.attempt, task.key, task.payloadRef, task.createdAt)
  }

  /** An outbox row; its event id is its position. */
  datatype Row = Row(task: TaskId, stream: Stream, payload: Payload, published: bool)

  /** A stream message carrying the id of its outbox row. */
  datatype Message = Message(event: nat, payload: Payload)

  datatype World = World(tasks: map<TaskId, Task>, outbox: seq<Row>, streams: map<Stream, seq<Message>>, now: int)

  /** The lane fields of a job's stored budget; `None` where the field is missing or not a number. */
  datatype Budget = Budget(maxQueries: Option<int>, maxFetchedUrls: Option<int>, browserPages: Option<int>,
                           mediaItems: Option<int>)

  datatype Limits = Limits(httpGlobal: int, browserPages: int, mediaConcurrency: int, enrichWorkers: int,
                           indexWorkers: int)

  /** What does not change during a run: job budgets, lane limits and the dependency table. */
  datatype Config = Config(budgets: map<JobId, Budget>, limits: Limits, deps: map<TaskId, set<TaskId>>)

  function BudgetField(b: Budget, lane: Lane): Option<int> {
    match lane
    case Search => b.maxQueries
    case Http => b.maxFetchedUrls
    case Browser => b.browserPages
    case Media => b.mediaItems
    case _ => None
  }

  /** The job is known and its budget has the lane's field. */
  predicate HasBudget(cfg: Config, job: JobId, lane: Lane) {
    job in cfg.budgets && BudgetField(cfg.budgets[job], lane).Some?
  }

  predicate Budgeted(lane: Lane) {
    lane.Search? || lane.Http? || lane.Browser? || lane.Media?
  }

  /** The in-flight limit of a lane; a lane without one, or with a limit of zero or less, is not gated. */
  function InFlightLimit(l: Limits, lane: Lane): Option<int> {
    var limit :=
      match lane
      case Http => l.httpGlobal
      case Browser => l.browserPages
      case Media => l.mediaConcurrency
      case Enrich => l.enrichWorkers
      case Index => l.indexWorkers
      case _ => 0;
    if limit <= 0 then None else Some(limit)
  }

  // ---- Counts over the task table ------------------------------------------

  predicate Spends(s: State) {
    s.Ready? || s.Leased? || s.Running? || s.Succeeded? || s.RetryWait?
  }

  predicate InFlight(s: State) {
    s.Ready? || s.Leased? || s.Running?
  }

  function SpendSet(tasks: map<TaskId, Task>, job: JobId, lane: Lane): set<TaskId> {
    set t | t in tasks && tasks[t].job == job && tasks[t].lane == lane && Spends(tasks[t].state)
  }

  function LaneSpend(w: World, job: JobId, lane: Lane): nat {
    |SpendSet(w.tasks, job, lane)|
  }

  function FlightSet(tasks: map<TaskId, Task>, lane: Lane): set<TaskId> {
    set t | t in tasks && tasks[t].lane == lane && InFlight(tasks[t].state)
  }

  function LaneInFlight(w: World, lane: Lane): nat {
    |FlightSet(w.tasks, lane)|
  }

  // ---- Dependencies ----------------------------------------------------------

  function DepsOf(cfg: Config, t: TaskId): set<TaskId> {
    if t in cfg.deps then cfg.deps[t] else {}
  }

  predicate DepsSatisfied(cfg: Config, w: World, t: TaskId) {
    forall d :: d in DepsOf(cfg, t) && d in w.tasks ==> w.tasks[d].state == Succeeded
  }

  // ---- Outbox and streams ----------------------------------------------------

  function StreamOf(streams: map<Stream, seq<Message>>, s: Stream): seq<Message> {
    if s in streams then streams[s] else []
  }

  /** XADD. */
  function XAdd(streams: map<Stream, seq<Message>>, s: Stream, m: Message): map<Stream, seq<Message>> {
    streams[s := StreamOf(streams, s) + [m]]
  }

  function Emit(w: World, i: nat): map<Stream, seq<Message>>
    requires i < |w.outbox|
  {
    XAdd(w.streams, w.outbox[i].stream, Message(i, w.outbox[i].payload))
  }

  /** `stream_contains_event`. */
  predicate InStream(w: World, i: nat)
    requires i < |w.outbox|
  {
    exists k :: 0 <= k < |StreamOf(w.streams, w.outbox[i].stream)|
                && StreamOf(w.streams, w.outbox[i].stream)[k].event == i
  }

  // ---- Task creation -----------------------------------------------------------

  predicate KeyTaken(w: World, key: string) {
    exists t :: t in w.tasks && w.tasks[t].key == key
  }

  /** The column checks and keys of the `tasks` table for a new row. */
  predicate Insertable(cfg: Config, w: World, t: TaskId, task: Task) {
    && t !in w.tasks && !KeyTaken(w, task.key) && task.job in cfg.budgets
    && 0 <= task.priority <= 3 && task.attempt >= 1
    && task.owner == None && task.expires == None && task.retryAt == None && task.generation == 0
  }

  function Publishable(t: TaskId, task: Task, s: Stream): Row {
    Row(t, s, PayloadOf(t, task), false)
  }

  datatype EnqueueOutcome = Enqueued(event: nat, stream: Stream) | UnknownLane | ConstraintViolation

  /** `enqueue_ready_task`: task and outbox row in one transaction; any error leaves both out. */
  function Enqueue(cfg: Config, w: World, t: TaskId, task: Task): (World, EnqueueOutcome) {
    match StreamFor(task.lane, task.priority)
    case None => (w, UnknownLane)
    case Some(s) =>
      if !Insertable(cfg, w, t, task) then (w, ConstraintViolation)
      else
        var ready := task.(state := Ready);
        (w.(tasks := w.tasks[t := ready], outbox := w.outbox + [Publishable(t, ready, s)]), Enqueued(|w.outbox|, s))
  }

  /** A PENDING row, as the re-collection path inserts it; a taken key is a no-op. */
  function AddPending(cfg: Config, w: World, t: TaskId, task: Task): World {
    if Insertable(cfg, w, t, task) then w.(tasks := w.tasks[t := task.(state := Pending)]) else w
  }

  // ---- Admission -----------------------------------------------------------------

  datatype AdmitOutcome =
    | Admitted(event: nat, stream: Stream)
    | TaskNotFound | WrongState | DependenciesUnsatisfied | BackpressurePaused
    | UnknownJob | NoBudgetField | BudgetExhausted | MaxInFlightExceeded | NoStream

  /** The gates of `admit_task`, in order; `paused` is the backpressure state the tick measured. */
  function Gate(cfg: Config, w: World, t: TaskId, paused: bool): AdmitOutcome {
    if t !in w.tasks then TaskNotFound
    else
      var task := w.tasks[t];
      if !task.state.Pending? && !task.state.RetryWait? then WrongState
      else if task.state.Pending? && !DepsSatisfied(cfg, w, t) then DependenciesUnsatisfied
      else if IsFetchLane(task.lane) && paused then BackpressurePaused
      else if Budgeted(task.lane) && task.job !in cfg.budgets then UnknownJob
      else if Budgeted(task.lane) && BudgetField(cfg.budgets[task.job], task.lane).None? then NoBudgetField
      else if Budgeted(task.lane)
              && LaneSpend(w, task.job, task.lane) >= BudgetField(cfg.budgets[task.job], task.lane).value then
        BudgetExhausted
      else
        var limit := InFlightLimit(cfg.limits, task.lane);
        if limit.Some? && LaneInFlight(w, task.lane) >= limit.value then MaxInFlightExceeded
        else
          match StreamFor(task.lane, task.priority)
          case None => NoStream
          case Some(s) => Admitted(|w.outbox|, s)
  }

  /** The READY row an admission writes: a retry bumps the attempt. */
  function Promote(task: Task): Task {
    task.(state := Ready, retryAt := None, attempt := task.attempt + if task.state.RetryWait? then 1 else 0)
  }

  function Admit(cfg: Config, w: World, t: TaskId, paused: bool): (World, AdmitOutcome) {
    var outcome := Gate(cfg, w, t, paused);
    if !outcome.Admitted? then (w, outcome)
    else
      var ready := Promote(w.tasks[t]);
      (w.(tasks := w.tasks[t := ready], outbox := w.outbox + [Publishable(t, ready, outcome.stream)]), outcome)
  }

  // ---- Leases ------------------------------------------------------------------------

  predicate Expired(task: Task, now: int) {
    Active(task.state) && task.expires.Some? && task.expires.value < now
  }

  datatype Grant = Grant(worker: WorkerId, generation: int, expires: int)

  function Acquire(w: World, t: TaskId, worker: WorkerId, duration: int): (World, Option<Grant>) {
    if t !in w.tasks || !(w.tasks[t].state.Ready? || Expired(w.tasks[t], w.now)) then (w, None)
    else
      var task := w.tasks[t];
      var until := w.now + duration;
      (w.(tasks := w.tasks[t := task.(state := Leased, owner := Some(worker), generation := task.generation + 1,
                                       expires := Some(until))]),
       Some(Grant(worker, task.generation + 1, until)))
  }

  /** The worker holds the task's current token. */
  predicate Holds(w: World, t: TaskId, worker: WorkerId, generation: int) {
    t in w.tasks && w.tasks[t].owner == Some(worker) && w.tasks[t].generation == generation
  }

  function Heartbeat(w: World, t: TaskId, worker: WorkerId, generation: int, duration: int): (World, Option<int>) {
    if Holds(w, t, worker, generation) && Active(w.tasks[t].state)
       && w.tasks[t].expires.Some? && w.tasks[t].expires.value >= w.now then
      (w.(tasks := w.tasks[t := w.tasks[t].(expires := Some(w.now + duration))]), Some(w.now + duration))
    else (w, None)
  }

  /** `update_task_fenced`: written only under the current token; `false` is StaleLeaseError. */
  function FencedUpdate(w: World, t: TaskId, worker: WorkerId, generation: int, state: State): (World, bool) {
    if Holds(w, t, worker, generation) then (w.(tasks := w.tasks[t := w.tasks[t].(state := state)]), true)
    else (w, false)
  }

  function Release(task: Task): Task {
    task.(state := Ready, owner := None, expires := None)
  }

  function ExpiredTasks(w: World): set<TaskId> {
    set t | t in w.tasks && Expired(w.tasks[t], w.now)
  }

  /** The reaper's update of the selected rows. */
  function Reap(w: World, ids: set<TaskId>): World {
    w.(tasks := map t | t in w.tasks :: if t in ids
        && Expired(w.tasks[t], w.now) then Release(w.tasks[t]) else w.tasks[t])
  }

  // ---- Failure handling ------------------------------------------------------------------

  datatype FailureAction = Retry | Block | GiveUp

  datatype FailureOutcome = WasBlocked | WasFailed | WasDeadLettered | WillRetry(attempt: int) | LookupError

  /** The task write of `handle_task_failure`; a plain UPDATE of a missing task changes nothing. */
  function ReportFailure(w: World, t: TaskId, action: FailureAction, attempt: int, maxAttempts: int, retryAt: int)
    : (World, FailureOutcome)
  {
    match action
    case Block => (SetState(w, t, Blocked), WasBlocked)
    case GiveUp => (SetState(w, t, Failed), WasFailed)
    case Retry =>
      if attempt + 1 > maxAttempts then
        if t !in w.tasks then (w, LookupError) else (SetState(w, t, DeadLetter), WasDeadLettered)
      else (SetRetryWait(w, t, retryAt, attempt + 1), WillRetry(attempt + 1))
  }

  function SetState(w: World, t: TaskId, state: State): World {
    if t !in w.tasks then w else w.(tasks := w.tasks[t := w.tasks[t].(state := state)])
  }

  function SetRetryWait(w: World, t: TaskId, retryAt: int, attempt: int): World {
    if t !in w.tasks then w
    else
      var task := w.tasks[t];
      w.(tasks := w.tasks[t := task.(state := RetryWait, retryAt := Some(retryAt), attempt := attempt, owner := None,
                                     generation := task.generation + 1, expires := None)])
  }

  // ---- Publishing ----------------------------------------------------------------------------

  /** `publish_outbox_event`: XADD, then mark. */
  function PublishRow(w: World, i: nat): (World, bool) {
    if i >= |w.outbox| || w.outbox[i].published then (w, false)
    else (w.(streams := Emit(w, i), outbox := w.outbox[i := w.outbox[i].(published := true)]), true)
  }

  /** A crash after the XADD and before the commit: the message is out, the row still unpublished. */
  function CrashInPublish(w: World, i: nat): World {
    if i >= |w.outbox| || w.outbox[i].published then w else w.(streams := Emit(w, i))
  }

  /** One iteration of the republish loop. */
  function RepublishRow(w: World, i: nat): (World, bool) {
    if i >= |w.outbox| || !w.outbox[i].published || InStream(w, i) then (w, false)
    else (w.(streams := Emit(w, i)), true)
  }

  // ---- Steps and runs --------------------------------------------------------------------------

  datatype Op =
    | OpAdvance(time: int)
    | OpAddPending(task: TaskId, row: Task)
    | OpEnqueue(task: TaskId, row: Task)
    | OpAdmit(task: TaskId, paused: bool)
    | OpAcquire(task: TaskId, worker: WorkerId, duration: int)
    | OpHeartbeat(task: TaskId, worker: WorkerId, generation: int, duration: int)
    | OpFenced(task: TaskId, worker: WorkerId, generation: int, state: State)
    | OpReport(task: TaskId, action: FailureAction, attempt: int, maxAttempts: int, retryAt: int)
    | OpReap(ids: set<TaskId>)
    | OpPublish(event: nat)
    | OpCrash(event: nat)
    | OpWipe
    | OpRepublish(event: nat)

  function Apply(cfg: Config, w: World, op: Op): World {
    match op
    case OpAdvance(time) => if time >= w.now then w.(now := time) else w
    case OpAddPending(t, row) => AddPending(cfg, w, t, row)
    case OpEnqueue(t, row) => Enqueue(cfg, w, t, row).0
    case OpAdmit(t, paused) => Admit(cfg, w, t, paused).0
    case OpAcquire(t, worker, duration) => Acquire(w, t, worker, duration).0
    case OpHeartbeat(t, worker, generation, duration) => Heartbeat(w, t, worker, generation, duration).0
    case OpFenced(t, worker, generation, state) => FencedUpdate(w, t, worker, generation, state).0
    case OpReport(t, action, attempt, maxAttempts, retryAt) =>
      ReportFailure(w, t, action, attempt, maxAttempts, retryAt).0
    case OpReap(ids) => Reap(w, ids)
    case OpPublish(i) => PublishRow(w, i).0
    case OpCrash(i) => CrashInPublish(w, i)
    case OpWipe => w.(streams := map[])
    case OpRepublish(i) => RepublishRow(w, i).0
  }

  function Exec(cfg: Config, w: World, ops: seq<Op>): World {
    if ops == [] then w else Apply(cfg, Exec(cfg, w, ops[..|ops| - 1]), ops[|ops| - 1])
  }

  lemma ExecSnoc(cfg: Config, w: World, ops: seq<Op>, i: nat)
    requires i < |ops|
    ensures Exec(cfg, w, ops[..i + 1]) == Apply(cfg, Exec(cfg, w, ops[..i]), ops[i])
  {
    assert ops[..i + 1][..i] == ops[..i];
  }
}
