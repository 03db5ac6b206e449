/** The transactional outbox: at-least-once delivery through crashes, wipes and republishing. */
module Outbox {
  import opened Wrappers
  import opened Lanes
  import opened World
  import opened Leases

  // ---- Passes over the outbox -----------------------------------------------

  /** The unpublished rows among the first `n`, in order. */
  function UnpublishedIds(outbox: seq<Row>, n: nat): seq<nat>
    requires n <= |outbox|
  {
    if n == 0 then [] else UnpublishedIds(outbox, n - 1) + if outbox[n - 1].published then [] else [n - 1]
  }

  /** The published rows of READY tasks among the first `n`, in order. */
  function RepublishableIds(w: World, n: nat): seq<nat>
    requires n <= |w.outbox|
  {
    if n == 0 then []
    else
      var row := w.outbox[n - 1];
      RepublishableIds(w, n - 1)
      + if row.published && row.task in w.tasks && w.tasks[row.task].state.Ready? then [n - 1] else []
  }

  function Take(ids: seq<nat>, limit: nat): seq<nat> {
    if |ids| <= limit then ids else ids[..limit]
  }

  /** Publish the rows one by one; the number is how many were newly published. */
  function PublishAll(w: World, ids: seq<nat>): (World, nat) {
    if ids == [] then (w, 0)
    else
      var (v, n) := PublishAll(w, ids[..|ids| - 1]);
      var (u, ok) := PublishRow(v, ids[|ids| - 1]);
      (u, if ok then n + 1 else n)
  }

  function RepublishAll(w: World, ids: seq<nat>): (World, nat) {
    if ids == [] then (w, 0)
    else
      var (v, n) := RepublishAll(w, ids[..|ids| - 1]);
      var (u, ok) := RepublishRow(v, ids[|ids| - 1]);
      (u, if ok then n + 1 else n)
  }

  lemma RepublishNext(w: World, ids: seq<nat>, k: nat)
    requires k < |ids|
    ensures var (v, n) := RepublishAll(w, ids[..k]);
            var (u, ok) := RepublishRow(v, ids[k]);
            RepublishAll(w, ids[..k + 1]) == (u, if ok then n + 1 else n)
  {
    assert ids[..k + 1][..k] == ids[..k];
  }

  function PublishPass(w: World, batch: nat): (World, nat) {
    PublishAll(w, Take(UnpublishedIds(w.outbox, |w.outbox|), batch))
  }

  function RepublishPass(w: World, batch: nat): (World, nat) {
    RepublishAll(w, Take(RepublishableIds(w, |w.outbox|), batch))
  }

  // ---- What one XADD does ------------------------------------------------------

  lemma EmitPutsInStream(w: World, v: World, i: nat)
    requires i < |w.outbox| && v.streams == Emit(w, i)
    requires |v.outbox| == |w.outbox| && forall j :: 0 <= j < |w.outbox| ==> v.outbox[j].stream == w.outbox[j].stream
    ensures forall j :: 0 <= j < |w.outbox| ==> (InStream(v, j) <==> InStream(w, j) || j == i)
  {
    var s := w.outbox[i].stream;
    var before := StreamOf(w.streams, s);
    assert StreamOf(v.streams, s) == before + [Message(i, w.outbox[i].payload)];
    assert StreamOf(v.streams, s)[|before|].event == i;
    forall j | 0 <= j < |w.outbox|
      ensures InStream(v, j) <==> InStream(w, j) || j == i
    {
      if w.outbox[j].stream == s && InStream(w, j) {
        var k :| 0 <= k < |before| && before[k].event == j;
        assert StreamOf(v.streams, s)[k].event == j;
      } else if w.outbox[j].stream != s {
        assert StreamOf(v.streams, w.outbox[j].stream) == StreamOf(w.streams, w.outbox[j].stream);
      }
    }
  }

  // ---- Invariants of whole runs ----------------------------------------------------

  predicate MessageOk(outbox: seq<Row>, s: Stream, m: Message) {
    m.event < |outbox| && outbox[m.event].stream == s && outbox[m.event].payload == m.payload
  }

  /** Every stream entry belongs to an outbox row of that stream and carries its payload. */
  predicate MessagesOk(w: World) {
    forall s, k :: s in w.streams && 0 <= k < |w.streams[s]| ==> MessageOk(w.outbox, s, w.streams[s][k])
  }

  /** The outbox only grows, and rows change only by being marked published. */
  predicate OutboxGrows(w: World, v: World) {
    |w.outbox| <= |v.outbox|
    && forall i :: 0 <= i < |w.outbox| ==>
         && v.outbox[i].task == w.outbox[i].task && v.outbox[i].stream == w.outbox[i].stream
         && v.outbox[i].payload == w.outbox[i].payload && (w.outbox[i].published ==> v.outbox[i].published)
  }

  lemma StepGrowsOutbox(cfg: Config, w: World, op: Op)
    ensures OutboxGrows(w, Apply(cfg, w, op))
  {
  }

  /** The rows a step puts on a stream. */
  function XAdds(w: World, op: Op): set<nat> {
    match op
    case OpPublish(i) => if PublishRow(w, i).1 then {i} else {}
    case OpCrash(i) => if i < |w.outbox| && !w.outbox[i].published then {i} else {}
    case OpRepublish(i) => if RepublishRow(w, i).1 then {i} else {}
    case _ => {}
  }

  /** Steps move streams only by appending the rows of `XAdds` or by a wipe. */
  lemma StepStreams(cfg: Config, w: World, op: Op)
    ensures var v := Apply(cfg, w, op);
            || v.streams == w.streams
            || (op.OpWipe? && v.streams == map[])
            || (exists i :: XAdds(w, op) == {i} && i < |w.outbox| && v.streams == Emit(w, i))
    ensures op.OpWipe? || XAdds(w, op) != {} || Apply(cfg, w, op).streams == w.streams
    ensures forall i :: i in XAdds(w, op) ==> i < |w.outbox| && Apply(cfg, w, op).streams == Emit(w, i)
  {
    match op
    case OpPublish(i) => assert XAdds(w, op) == {i} || XAdds(w, op) == {};
    case OpCrash(i) => assert XAdds(w, op) == {i} || XAdds(w, op) == {};
    case OpRepublish(i) => assert XAdds(w, op) == {i} || XAdds(w, op) == {};
    case _ =>
  }

  lemma StepKeepsMessagesOk(cfg: Config, w: World, op: Op)
    requires MessagesOk(w)
    ensures MessagesOk(Apply(cfg, w, op))
  {
    var v := Apply(cfg, w, op);
    StepStreams(cfg, w, op);
    StepGrowsOutbox(cfg, w, op);
    forall s, k | s in v.streams && 0 <= k < |v.streams[s]|
      ensures MessageOk(v.outbox, s, v.streams[s][k])
    {
      if s in w.streams && k < |w.streams[s]| {
        assert MessageOk(w.outbox, s, w.streams[s][k]);
      }
    }
  }

  /** In every run, no stream entry lacks its outbox row. */
  lemma {:induction false} NoOrphanMessages(cfg: Config, w: World, ops: seq<Op>)
    requires MessagesOk(w)
    ensures MessagesOk(Exec(cfg, w, ops))
  {
    if ops != [] {
      NoOrphanMessages(cfg, w, ops[..|ops| - 1]);
      StepKeepsMessagesOk(cfg, Exec(cfg, w, ops[..|ops| - 1]), ops[|ops| - 1]);
    }
  }

  /** All rows put on a stream in a run. */
  function Sent(cfg: Config, w: World, ops: seq<Op>): set<nat> {
    if ops == [] then {}
    else Sent(cfg, w, ops[..|ops| - 1]) + XAdds(Exec(cfg, w, ops[..|ops| - 1]), ops[|ops| - 1])
  }

  lemma StepMarksSent(cfg: Config, w: World, op: Op, i: nat)
    requires i < |Apply(cfg, w, op).outbox| && Apply(cfg, w, op).outbox[i].published
    ensures (i < |w.outbox| && w.outbox[i].published) || i in XAdds(w, op)
  {
  }

  /** Every row marked published during a run was put on its stream during that run. */
  lemma {:induction false} PublishedWasSent(cfg: Config, w: World, ops: seq<Op>, i: nat)
    requires i < |w.outbox| ==> !w.outbox[i].published
    requires var v := Exec(cfg, w, ops); i < |v.outbox| && v.outbox[i].published
    ensures i in Sent(cfg, w, ops)
  {
    if ops != [] {
      var v := Exec(cfg, w, ops[..|ops| - 1]);
      StepMarksSent(cfg, v, ops[|ops| - 1], i);
      if i < |v.outbox| && v.outbox[i].published {
        PublishedWasSent(cfg, w, ops[..|ops| - 1], i);
      }
    }
  }

  /** Every published row is still on its stream. */
  predicate PublishedDelivered(w: World) {
    forall i :: 0 <= i < |w.outbox| && w.outbox[i].published ==> InStream(w, i)
  }

  lemma StepKeepsInStream(cfg: Config, w: World, op: Op, i: nat)
    requires i < |w.outbox| && !op.OpWipe?
    ensures i < |Apply(cfg, w, op).outbox|
    ensures InStream(w, i) || i in XAdds(w, op) ==> InStream(Apply(cfg, w, op), i)
  {
    var v := Apply(cfg, w, op);
    StepStreams(cfg, w, op);
    StepGrowsOutbox(cfg, w, op);
    if x :| x in XAdds(w, op) {
      EmitPutsInStream(w, w.(streams := v.streams), x);
      assert InStream(w.(streams := v.streams), i) ==> InStream(v, i);
    }
  }

  /** Only a wipe of the streams can lose a published row. */
  lemma {:induction false} LostOnlyByWipe(cfg: Config, w: World, ops: seq<Op>)
    requires PublishedDelivered(w) && forall k :: 0 <= k < |ops| ==> !ops[k].OpWipe?
    ensures PublishedDelivered(Exec(cfg, w, ops))
  {
    if ops != [] {
      var v, op := Exec(cfg, w, ops[..|ops| - 1]), ops[|ops| - 1];
      LostOnlyByWipe(cfg, w, ops[..|ops| - 1]);
      forall i | 0 <= i < |Apply(cfg, v, op).outbox| && Apply(cfg, v, op).outbox[i].published
        ensures InStream(Apply(cfg, v, op), i)
      {
        StepMarksSent(cfg, v, op, i);
        StepStreams(cfg, v, op);
        StepKeepsInStream(cfg, v, op, i);
      }
    }
  }

  /** A row for the task's current attempt, on the stream its lane and priority resolve to. */
  predicate IsRowFor(t: TaskId, task: Task, row: Row) {
    row.task == t && row.payload == PayloadOf(t, task) && StreamFor(task.lane, task.priority) == Some(row.stream)
  }

  predicate RowFor(w: World, t: TaskId)
    requires t in w.tasks
  {
    exists i :: 0 <= i < |w.outbox| && IsRowFor(t, w.tasks[t], w.outbox[i])
  }

  /** Every task past PENDING and not waiting for a retry has an outbox row for its current attempt. */
  predicate TasksHaveRows(w: World) {
    forall t :: t in w.tasks && !w.tasks[t].state.Pending? && !w.tasks[t].state.RetryWait? ==> RowFor(w, t)
  }

  lemma RowSurvives(w: World, v: World, t: TaskId)
    requires t in w.tasks && t in v.tasks && RowFor(w, t) && OutboxGrows(w, v)
    requires PayloadOf(t, v.tasks[t]) == PayloadOf(t, w.tasks[t])
    ensures RowFor(v, t)
  {
    var i :| 0 <= i < |w.outbox| && IsRowFor(t, w.tasks[t], w.outbox[i]);
    assert IsRowFor(t, v.tasks[t], v.outbox[i]);
  }

  lemma NewRowServes(w: World, t: TaskId)
    requires t in w.tasks && w.outbox != [] && IsRowFor(t, w.tasks[t], w.outbox[|w.outbox| - 1])
    ensures RowFor(w, t)
  {
  }

  lemma StepKeepsRows(cfg: Config, w: World, op: Op, t: TaskId)
    requires TasksHaveRows(w) && Disciplined(w, op) && t in Apply(cfg, w, op).tasks
    ensures var v := Apply(cfg, w, op);
            !v.tasks[t].state.Pending? && !v.tasks[t].state.RetryWait? ==> RowFor(v, t)
  {
    var v := Apply(cfg, w, op);
    StepGrowsOutbox(cfg, w, op);
    if t !in w.tasks {
      ApplyAddsFresh(cfg, w, op, t);
      if op.OpEnqueue? {
        NewRowServes(v, t);
      }
    } else {
      ApplyIsNextTask(cfg, w, op, t);
      if op.OpAdmit? && op.task == t && Gate(cfg, w, t, op.paused).Admitted? {
        NewRowServes(v, t);
      } else if !v.tasks[t].state.Pending? && !v.tasks[t].state.RetryWait? {
        RowSurvives(w, v, t);
      }
    }
  }

  /** In every disciplined run each task that became READY has an outbox row carrying its current attempt. */
  lemma {:induction false} ReadyTasksHaveRows(cfg: Config, w: World, ops: seq<Op>)
    requires TasksHaveRows(w) && DisciplinedRun(cfg, w, ops)
    ensures TasksHaveRows(Exec(cfg, w, ops))
  {
    if ops != [] {
      var v, op := Exec(cfg, w, ops[..|ops| - 1]), ops[|ops| - 1];
      DisciplinedFront(cfg, w, ops);
      ReadyTasksHaveRows(cfg, w, ops[..|ops| - 1]);
      forall t | t in Apply(cfg, v, op).tasks && !Apply(cfg, v, op).tasks[t].state.Pending?
                 && !Apply(cfg, v, op).tasks[t].state.RetryWait?
        ensures RowFor(Apply(cfg, v, op), t)
      {
        StepKeepsRows(cfg, v, op, t);
      }
    }
  }

  // ---- A publish pass ---------------------------------------------------------------

  lemma {:induction false} UnpublishedListed(outbox: seq<Row>, n: nat)
    requires n <= |outbox|
    ensures forall i: nat :: i in UnpublishedIds(outbox, n) <==> i < n && !outbox[i].published
    ensures forall a, b :: 0 <= a < b < |UnpublishedIds(outbox, n)| ==>
                             UnpublishedIds(outbox, n)[a] < UnpublishedIds(outbox, n)[b]
  {
    if n > 0 {
      UnpublishedListed(outbox, n - 1);
      var front := UnpublishedIds(outbox, n - 1);
      forall a | 0 <= a < |front|
        ensures front[a] < n - 1
      {
        assert front[a] in front;
      }
    }
  }

  lemma PublishRowEffect(w: World, i: nat)
    requires i < |w.outbox| && !w.outbox[i].published
    ensures var v := PublishRow(w, i).0;
            && PublishRow(w, i).1 && v.tasks == w.tasks && |v.outbox| == |w.outbox|
            && (forall j :: 0 <= j < |w.outbox| ==>
                  && (v.outbox[j].published <==> w.outbox[j].published || j == i)
                  && v.outbox[j].task == w.outbox[j].task
                  && (InStream(v, j) <==> InStream(w, j) || j == i))
  {
    EmitPutsInStream(w, PublishRow(w, i).0, i);
  }

  /** Publishing distinct unpublished rows marks exactly those and puts exactly those on their streams. */
  lemma {:induction false} PublishAllEffect(w: World, ids: seq<nat>)
    requires forall a :: 0 <= a < |ids| ==> ids[a] < |w.outbox| && !w.outbox[ids[a]].published
    requires forall a, b :: 0 <= a < b < |ids| ==> ids[a] != ids[b]
    ensures var (v, n) := PublishAll(w, ids);
            && n == |ids| && v.tasks == w.tasks && |v.outbox| == |w.outbox|
            && (forall j :: 0 <= j < |w.outbox| ==>
                  && (v.outbox[j].published <==> w.outbox[j].published || j in ids)
                  && (InStream(v, j) <==> InStream(w, j) || j in ids))
  {
    if ids != [] {
      var front, last := ids[..|ids| - 1], ids[|ids| - 1];
      PublishAllEffect(w, front);
      assert ids == front + [last];
      assert last !in front;
      PublishRowEffect(PublishAll(w, front).0, last);
    }
  }

  /** A publish pass publishes exactly the first `batch` unpublished rows, each onto its stream. */
  lemma PublishPassExact(w: World, batch: nat)
    ensures var (v, n) := PublishPass(w, batch);
            var ids := Take(UnpublishedIds(w.outbox, |w.outbox|), batch);
            && n == |ids| && v.tasks == w.tasks && |v.outbox| == |w.outbox|
            && (forall j :: 0 <= j < |w.outbox| ==>
                  && (v.outbox[j].published <==> w.outbox[j].published || j in ids)
                  && (InStream(v, j) <==> InStream(w, j) || j in ids))
  {
    var all := UnpublishedIds(w.outbox, |w.outbox|);
    var ids := Take(all, batch);
    UnpublishedListed(w.outbox, |w.outbox|);
    forall a | 0 <= a < |ids|
      ensures ids[a] < |w.outbox| && !w.outbox[ids[a]].published
    {
      assert all[a] in all;
    }
    PublishAllEffect(w, ids);
  }

  /** A row is delivered even when earlier publishers crashed after the XADD: then it is on the stream twice. */
  lemma CrashThenPublishDuplicates(w: World, i: nat)
    requires i < |w.outbox| && !w.outbox[i].published
    ensures var m := Message(i, w.outbox[i].payload);
            var v := PublishRow(CrashInPublish(w, i), i).0;
            v.outbox[i].published
            && StreamOf(v.streams, w.outbox[i].stream) == StreamOf(w.streams, w.outbox[i].stream) + [m, m]
  {
  }

  // ---- A republish pass ------------------------------------------------------------------

  lemma {:induction false} RepublishableListed(w: World, n: nat)
    requires n <= |w.outbox|
    ensures forall i: nat :: i in RepublishableIds(w, n) <==>
                          i < n && w.outbox[i].published && w.outbox[i].task in w.tasks
                          && w.tasks[w.outbox[i].task].state.Ready?
    ensures forall a, b :: 0 <= a < b < |RepublishableIds(w, n)| ==>
        RepublishableIds(w, n)[a] < RepublishableIds(w, n)[b]
  {
    if n > 0 {
      RepublishableListed(w, n - 1);
      var front := RepublishableIds(w, n - 1);
      forall a | 0 <= a < |front|
        ensures front[a] < n - 1
      {
        assert front[a] in front;
      }
    }
  }

  /** Republishing rows restores exactly those; tasks and rows do not change. */
  lemma {:induction false} RepublishAllEffect(w: World, ids: seq<nat>)
    requires forall a :: 0 <= a < |ids| ==> ids[a] < |w.outbox| && w.outbox[ids[a]].published
    ensures var v := RepublishAll(w, ids).0;
            && v.tasks == w.tasks && v.outbox == w.outbox && v.now == w.now
            && forall j :: 0 <= j < |w.outbox| ==> (InStream(v, j) <==> InStream(w, j) || j in ids)
  {
    if ids != [] {
      var front, last := ids[..|ids| - 1], ids[|ids| - 1];
      RepublishAllEffect(w, front);
      assert ids == front + [last];
      var v := RepublishAll(w, front).0;
      if !InStream(v, last) {
        EmitPutsInStream(v, RepublishRow(v, last).0, last);
      }
    }
  }

  lemma {:induction false} NothingMissing(w: World, ids: seq<nat>)
    requires forall a :: 0 <= a < |ids| ==> ids[a] < |w.outbox| && InStream(w, ids[a])
    ensures RepublishAll(w, ids) == (w, 0)
  {
    if ids != [] {
      NothingMissing(w, ids[..|ids| - 1]);
    }
  }

  predicate Restored(w: World) {
    forall i ::
      0 <= i < |w.outbox| && w.outbox[i].published && w.outbox[i].task in w.tasks
      && w.tasks[w.outbox[i].task].state.Ready?
      ==> InStream(w, i)
  }

  lemma TakenIds(w: World, batch: nat, ids: seq<nat>)
    requires ids == Take(RepublishableIds(w, |w.outbox|), batch)
    ensures forall a :: 0 <= a < |ids| ==> ids[a] < |w.outbox| && w.outbox[ids[a]].published
  {
    var all := RepublishableIds(w, |w.outbox|);
    RepublishableListed(w, |w.outbox|);
    forall a | 0 <= a < |ids|
      ensures ids[a] < |w.outbox| && w.outbox[ids[a]].published
    {
      assert all[a] in all;
    }
  }

  /**
   * A republish pass restores every published row of a READY task exactly when the rows past its batch limit
   * were not missing: without a cursor, the pass never looks beyond its first `batch` rows.
   */
  lemma RepublishRestoresExact(w: World, batch: nat)
    ensures var all := RepublishableIds(w, |w.outbox|);
            Restored(RepublishPass(w, batch).0)
            <==> forall a :: batch <= a < |all| ==> all[a] < |w.outbox| && InStream(w, all[a])
  {
    var all := RepublishableIds(w, |w.outbox|);
    var ids := Take(all, batch);
    var v := RepublishPass(w, batch).0;
    RepublishableListed(w, |w.outbox|);
    TakenIds(w, batch, ids);
    RepublishAllEffect(w, ids);
    assert forall a :: 0 <= a < |ids| ==> all[a] == ids[a] && all[a] in ids;
    if Restored(v) {
      forall a | batch <= a < |all|
        ensures all[a] < |w.outbox| && InStream(w, all[a])
      {
        assert all[a] in all;
        assert all[a] !in ids;
      }
    } else {
      var i :| 0 <= i < |v.outbox| && v.outbox[i].published && v.outbox[i].task in v.tasks
               && v.tasks[v.outbox[i].task].state.Ready? && !InStream(v, i);
      assert i in all;
      var a :| 0 <= a < |all| && all[a] == i;
    }
  }

  /** Running the pass again changes nothing and adds nothing. */
  lemma SecondPassAddsNothing(w: World, batch: nat)
    ensures RepublishPass(RepublishPass(w, batch).0, batch) == (RepublishPass(w, batch).0, 0)
  {
    var v := RepublishPass(w, batch).0;
    var ids := Take(RepublishableIds(w, |w.outbox|), batch);
    TakenIds(w, batch, ids);
    RepublishAllEffect(w, ids);
    SameIds(w, v, |w.outbox|);
    forall a | 0 <= a < |ids|
      ensures ids[a] < |v.outbox| && InStream(v, ids[a])
    {
      assert ids[a] in ids;
    }
    NothingMissing(v, ids);
  }

  lemma {:induction false} SameIds(w: World, v: World, n: nat)
    requires v.tasks == w.tasks && v.outbox == w.outbox && n <= |w.outbox|
    ensures RepublishableIds(v, n) == RepublishableIds(w, n)
  {
    if n > 0 {
      SameIds(w, v, n - 1);
    }
  }
}
