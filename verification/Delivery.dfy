/** What a publish or republish pass puts on each stream, message by message and in order. */
module Delivery {
  import opened Lanes
  import opened World
  import opened Outbox

  /** The messages of the listed rows that belong on a stream. */
  function OnStream(outbox: seq<Row>, ids: seq<nat>, s: Stream): seq<Message> {
    if ids == [] then []
    else
      var last := ids[|ids| - 1];
      OnStream(outbox, ids[..|ids| - 1], s)
      + if last < |outbox| && outbox[last].stream == s then [Message(last, outbox[last].payload)] else []
  }

  lemma OnStreamSnoc(outbox: seq<Row>, ids: seq<nat>, i: nat, s: Stream)
    requires i < |outbox|
    ensures OnStream(outbox, ids + [i], s)
            == OnStream(outbox, ids, s) + if outbox[i].stream == s then [Message(i, outbox[i].payload)] else []
  {
    assert (ids + [i])[..|ids|] == ids;
  }

  predicate Increasing(ids: seq<nat>) {
    forall a, b :: 0 <= a < b < |ids| ==> ids[a] < ids[b]
  }

  /** The messages are of these rows, each with its row's payload, in row order. */
  ghost predicate InRowOrder(outbox: seq<Row>, ms: seq<Message>) {
    && (forall a :: 0 <= a < |ms| ==> ms[a].event < |outbox| && ms[a].payload == outbox[ms[a].event].payload)
    && (forall a, b :: 0 <= a < b < |ms| ==> ms[a].event < ms[b].event)
  }

  /** Some message is of this row. */
  ghost predicate Carries(ms: seq<Message>, j: nat) {
    exists a :: 0 <= a < |ms| && ms[a].event == j
  }

  lemma CarriesSnoc(ms: seq<Message>, m: Message, j: nat)
    ensures Carries(ms + [m], j) <==> Carries(ms, j) || m.event == j
  {
    assert (ms + [m])[|ms|] == m;
    if a :| 0 <= a < |ms| && ms[a].event == j {
      assert (ms + [m])[a].event == j;
    }
  }

  /** The listed rows of the stream are carried. */
  lemma {:induction false} OnStreamCarries(outbox: seq<Row>, ids: seq<nat>, s: Stream, j: nat)
    ensures Carries(OnStream(outbox, ids, s), j) <==> j in ids && j < |outbox| && outbox[j].stream == s
  {
    if ids != [] {
      var front, last := ids[..|ids| - 1], ids[|ids| - 1];
      OnStreamCarries(outbox, front, s, j);
      assert j in ids <==> j in front || j == last;
      if last < |outbox| && outbox[last].stream == s {
        CarriesSnoc(OnStream(outbox, front, s), Message(last, outbox[last].payload), j);
      } else {
        assert OnStream(outbox, ids, s) == OnStream(outbox, front, s);
      }
    }
  }

  lemma OrderedSnoc(outbox: seq<Row>, ms: seq<Message>, last: nat)
    requires InRowOrder(outbox, ms) && last < |outbox| && forall a :: 0 <= a < |ms| ==> ms[a].event < last
    ensures InRowOrder(outbox, ms + [Message(last, outbox[last].payload)])
  {
  }

  lemma {:induction false} OnStreamOrdered(outbox: seq<Row>, ids: seq<nat>, s: Stream)
    requires Increasing(ids)
    ensures InRowOrder(outbox, OnStream(outbox, ids, s))
  {
    if ids != [] {
      var front, last := ids[..|ids| - 1], ids[|ids| - 1];
      var ms := OnStream(outbox, front, s);
      OnStreamOrdered(outbox, front, s);
      if last < |outbox| && outbox[last].stream == s {
        forall a | 0 <= a < |ms|
          ensures ms[a].event < last
        {
          OnStreamCarries(outbox, front, s, ms[a].event);
          assert Carries(ms, ms[a].event);
        }
        OrderedSnoc(outbox, ms, last);
      } else {
        assert OnStream(outbox, ids, s) == ms;
      }
    }
  }

  // ---- Publishing ----------------------------------------------------------------------

  /** How many of the first `n` rows are unpublished. */
  function Pending(outbox: seq<Row>, n: nat): nat
    requires n <= |outbox|
  {
    if n == 0 then 0 else Pending(outbox, n - 1) + if outbox[n - 1].published then 0 else 1
  }

  /** An unpublished row stands in the list of such rows at the number of those before it. */
  lemma {:induction false} PlaceInList(outbox: seq<Row>, n: nat, j: nat)
    requires j < n <= |outbox| && !outbox[j].published
    ensures |UnpublishedIds(outbox, n)| == Pending(outbox, n)
    ensures Pending(outbox, j) < |UnpublishedIds(outbox, n)| && UnpublishedIds(outbox, n)[Pending(outbox, j)] == j
    decreases n
  {
    if j < n - 1 {
      PlaceInList(outbox, n - 1, j);
    } else {
      ListLength(outbox, n);
    }
  }

  lemma {:induction false} ListLength(outbox: seq<Row>, n: nat)
    requires n <= |outbox|
    ensures |UnpublishedIds(outbox, n)| == Pending(outbox, n)
  {
    if n > 0 {
      ListLength(outbox, n - 1);
    }
  }

  /** The row is unpublished and fewer than `batch` such rows come before it. */
  predicate Due(outbox: seq<Row>, batch: nat, j: nat) {
    j < |outbox| && !outbox[j].published && Pending(outbox, j) < batch
  }

  lemma BatchIsDue(outbox: seq<Row>, batch: nat, j: nat)
    ensures j in Take(UnpublishedIds(outbox, |outbox|), batch) <==> Due(outbox, batch, j)
  {
    var all := UnpublishedIds(outbox, |outbox|);
    var ids := Take(all, batch);
    UnpublishedListed(outbox, |outbox|);
    if j < |outbox| && !outbox[j].published {
      PlaceInList(outbox, |outbox|, j);
      if Pending(outbox, j) < batch {
        assert ids[Pending(outbox, j)] == j;
      }
    }
    if a :| 0 <= a < |ids| && ids[a] == j {
      assert all[a] in all;
      PlaceInList(outbox, |outbox|, j);
    }
  }

  lemma BatchIsIncreasing(outbox: seq<Row>, batch: nat)
    ensures var ids := Take(UnpublishedIds(outbox, |outbox|), batch);
            Increasing(ids) && forall a :: 0 <= a < |ids| ==> ids[a] < |outbox| && !outbox[ids[a]].published
  {
    var all := UnpublishedIds(outbox, |outbox|);
    UnpublishedListed(outbox, |outbox|);
    forall a | 0 <= a < |all|
      ensures all[a] < |outbox| && !outbox[all[a]].published
    {
      assert all[a] in all;
    }
  }

  lemma Chained(base: seq<Message>, had: seq<Message>, mid: seq<Message>, extra: seq<Message>, after: seq<Message>)
    requires mid == base + had && after == mid + extra
    ensures after == base + (had + extra)
  {
  }

  lemma PublishRowAppends(v: World, i: nat, s: Stream)
    requires i < |v.outbox| && !v.outbox[i].published
    ensures var u := PublishRow(v, i).0;
            && StreamOf(u.streams, s)
               == StreamOf(v.streams, s)
                  + (if v.outbox[i].stream == s then [Message(i, v.outbox[i].payload)] else [])
            && u.outbox == v.outbox[i := v.outbox[i].(published := true)]
  {
  }

  /** Publishing these rows marks them and changes no other row. */
  lemma {:induction false} PublishMarks(w: World, ids: seq<nat>)
    requires Increasing(ids) && forall a :: 0 <= a < |ids| ==> ids[a] < |w.outbox| && !w.outbox[ids[a]].published
    ensures var v := PublishAll(w, ids).0;
            |v.outbox| == |w.outbox|
            && forall j :: 0 <= j < |w.outbox| ==>
                 v.outbox[j] == w.outbox[j].(published := w.outbox[j].published || j in ids)
  {
    if ids != [] {
      var front, last := ids[..|ids| - 1], ids[|ids| - 1];
      PublishMarks(w, front);
      assert ids == front + [last];
      assert last !in front;
      PublishRowAppends(PublishAll(w, front).0, last, w.outbox[last].stream);
    }
  }

  /** What publishing these rows appends to a stream. */
  lemma {:induction false} PublishAppends(w: World, ids: seq<nat>, s: Stream)
    requires Increasing(ids) && forall a :: 0 <= a < |ids| ==> ids[a] < |w.outbox| && !w.outbox[ids[a]].published
    ensures StreamOf(PublishAll(w, ids).0.streams, s) == StreamOf(w.streams, s) + OnStream(w.outbox, ids, s)
  {
    if ids != [] {
      var front, last := ids[..|ids| - 1], ids[|ids| - 1];
      var v := PublishAll(w, front).0;
      var extra := if w.outbox[last].stream == s then [Message(last, w.outbox[last].payload)] else [];
      PublishAppends(w, front, s);
      PublishMarks(w, front);
      assert last !in front;
      PublishRowAppends(v, last, s);
      Chained(StreamOf(w.streams, s), OnStream(w.outbox, front, s), StreamOf(v.streams, s), extra,
              StreamOf(PublishRow(v, last).0.streams, s));
    }
  }

  /**
   * A publish pass appends to each stream exactly the rows of that stream that are due, in row order and with their
   * payloads, and marks exactly the rows that are due.
   */
  lemma PublishesInOrder(w: World, batch: nat, s: Stream) returns (added: seq<Message>)
    ensures var v := PublishPass(w, batch).0;
            && StreamOf(v.streams, s) == StreamOf(w.streams, s) + added && InRowOrder(w.outbox, added)
            && (forall j: nat :: Carries(added, j) <==> Due(w.outbox, batch, j) && w.outbox[j].stream == s)
            && |v.outbox| == |w.outbox|
            && (forall j: nat :: j < |w.outbox| ==>
                  v.outbox[j] == w.outbox[j].(published := w.outbox[j].published || Due(w.outbox, batch, j)))
  {
    var ids := Take(UnpublishedIds(w.outbox, |w.outbox|), batch);
    BatchIsIncreasing(w.outbox, batch);
    PublishAppends(w, ids, s);
    PublishMarks(w, ids);
    OnStreamOrdered(w.outbox, ids, s);
    added := OnStream(w.outbox, ids, s);
    forall j: nat
      ensures j in ids <==> Due(w.outbox, batch, j)
      ensures Carries(added, j) <==> Due(w.outbox, batch, j) && w.outbox[j].stream == s
    {
      BatchIsDue(w.outbox, batch, j);
      OnStreamCarries(w.outbox, ids, s, j);
    }
  }

  // ---- Republishing -----------------------------------------------------------------------

  /** A published row of a task that is still READY. */
  predicate Awaited(w: World, j: nat) {
    j < |w.outbox| && w.outbox[j].published && w.outbox[j].task in w.tasks && w.tasks[w.outbox[j].task].state.Ready?
  }

  /** How many of the first `n` rows are awaited. */
  function AwaitedBefore(w: World, n: nat): nat
    requires n <= |w.outbox|
  {
    if n == 0 then 0 else AwaitedBefore(w, n - 1) + if Awaited(w, n - 1) then 1 else 0
  }

  lemma {:induction false} PlaceInAwaited(w: World, n: nat, j: nat)
    requires n <= |w.outbox|
    ensures |RepublishableIds(w, n)| == AwaitedBefore(w, n)
    ensures j < n && Awaited(w, j) ==>
              AwaitedBefore(w, j) < |RepublishableIds(w, n)| && RepublishableIds(w, n)[AwaitedBefore(w, j)] == j
    decreases n
  {
    if n > 0 {
      PlaceInAwaited(w, n - 1, j);
    }
  }

  /** The row is awaited, among the first `batch` such rows, and gone from its stream. */
  predicate Missing(w: World, batch: nat, j: nat) {
    Awaited(w, j) && AwaitedBefore(w, j) < batch && !InStream(w, j)
  }

  /** The rows still on their streams. */
  function Present(w: World): set<nat> {
    set j | 0 <= j < |w.outbox| && InStream(w, j)
  }

  function Gone(ids: seq<nat>, present: set<nat>): (gone: seq<nat>)
    ensures forall i :: i in gone <==> i in ids && i !in present
  {
    if ids == [] then []
    else
      var last := ids[|ids| - 1];
      Gone(ids[..|ids| - 1], present) + if last in present then [] else [last]
  }

  lemma GoneWithin(ids: seq<nat>, present: set<nat>, n: nat)
    requires forall a :: 0 <= a < |ids| ==> ids[a] < n
    ensures forall a :: 0 <= a < |Gone(ids, present)| ==> Gone(ids, present)[a] < n
  {
    forall a | 0 <= a < |Gone(ids, present)|
      ensures Gone(ids, present)[a] < n
    {
      assert Gone(ids, present)[a] in Gone(ids, present);
    }
  }

  lemma {:induction false} GoneIncreasing(ids: seq<nat>, present: set<nat>)
    requires Increasing(ids)
    ensures Increasing(Gone(ids, present))
  {
    if ids != [] {
      var front, last := ids[..|ids| - 1], ids[|ids| - 1];
      GoneIncreasing(front, present);
      GoneWithin(front, present, last);
    }
  }

  lemma RepublishRowAppends(v: World, i: nat, s: Stream)
    requires i < |v.outbox| && v.outbox[i].published
    ensures StreamOf(RepublishRow(v, i).0.streams, s)
            == StreamOf(v.streams, s)
               + if !InStream(v, i) && v.outbox[i].stream == s then [Message(i, v.outbox[i].payload)] else []
  {
  }

  lemma GoneStep(front: seq<nat>, last: nat, present: set<nat>)
    ensures Gone(front + [last], present) == Gone(front, present) + if last in present then [] else [last]
  {
    assert (front + [last])[..|front|] == front;
  }

  lemma GoneSnoc(outbox: seq<Row>, front: seq<nat>, last: nat, present: set<nat>, s: Stream)
    requires last < |outbox|
    ensures OnStream(outbox, Gone(front + [last], present), s)
            == OnStream(outbox, Gone(front, present), s)
               + if last !in present && outbox[last].stream == s then [Message(last, outbox[last].payload)] else []
  {
    GoneStep(front, last, present);
    if last in present {
      assert Gone(front, present) + [] == Gone(front, present);
    } else {
      OnStreamSnoc(outbox, Gone(front, present), last, s);
    }
  }

  lemma StillPresent(w: World, front: seq<nat>, last: nat)
    requires forall a :: 0 <= a < |front| ==> front[a] < last && front[a] < |w.outbox| && w.outbox[front[a]].published
    requires last < |w.outbox|
    ensures RepublishAll(w, front).0.outbox == w.outbox
    ensures InStream(RepublishAll(w, front).0, last) <==> last in Present(w)
  {
    RepublishAllEffect(w, front);
  }

  lemma RepublishOneMore(w: World, front: seq<nat>, last: nat, s: Stream)
    requires forall a :: 0 <= a < |front| ==> front[a] < last && front[a] < |w.outbox| && w.outbox[front[a]].published
    requires last < |w.outbox| && w.outbox[last].published
    ensures StreamOf(RepublishAll(w, front + [last]).0.streams, s)
            == StreamOf(RepublishAll(w, front).0.streams, s)
               + if last !in Present(w) && w.outbox[last].stream == s then [Message(last, w.outbox[last].payload)]
                 else []
  {
    assert (front + [last])[..|front|] == front;
    StillPresent(w, front, last);
    RepublishRowAppends(RepublishAll(w, front).0, last, s);
  }

  /** The rows were put back on the stream in order, as far as they were gone. */
  ghost predicate PutBack(w: World, ids: seq<nat>, s: Stream) {
    StreamOf(RepublishAll(w, ids).0.streams, s)
    == StreamOf(w.streams, s) + OnStream(w.outbox, Gone(ids, Present(w)), s)
  }

  lemma PutBackNext(w: World, front: seq<nat>, last: nat, s: Stream)
    requires forall a :: 0 <= a < |front| ==> front[a] < last && front[a] < |w.outbox| && w.outbox[front[a]].published
    requires last < |w.outbox| && w.outbox[last].published && PutBack(w, front, s)
    ensures PutBack(w, front + [last], s)
  {
    var extra := if last !in Present(w) && w.outbox[last].stream == s then [Message(last, w.outbox[last].payload)]
                 else [];
    RepublishOneMore(w, front, last, s);
    GoneSnoc(w.outbox, front, last, Present(w), s);
    Chained(StreamOf(w.streams, s), OnStream(w.outbox, Gone(front, Present(w)), s),
            StreamOf(RepublishAll(w, front).0.streams, s), extra,
            StreamOf(RepublishAll(w, front + [last]).0.streams, s));
  }

  lemma {:induction false} RepublishAppends(w: World, ids: seq<nat>, s: Stream)
    requires Increasing(ids) && forall a :: 0 <= a < |ids| ==> ids[a] < |w.outbox| && w.outbox[ids[a]].published
    ensures PutBack(w, ids, s)
  {
    if ids != [] {
      var front, last := ids[..|ids| - 1], ids[|ids| - 1];
      RepublishAppends(w, front, s);
      PutBackNext(w, front, last, s);
      assert ids == front + [last];
    }
  }

  lemma BatchIsAwaited(w: World, batch: nat)
    ensures var ids := Take(RepublishableIds(w, |w.outbox|), batch);
            && Increasing(ids)
            && (forall a :: 0 <= a < |ids| ==> ids[a] < |w.outbox| && w.outbox[ids[a]].published)
            && (forall j: nat :: j in ids <==> Awaited(w, j) && AwaitedBefore(w, j) < batch)
  {
    var ids := Take(RepublishableIds(w, |w.outbox|), batch);
    RepublishableListed(w, |w.outbox|);
    TakenIds(w, batch, ids);
    forall j: nat
      ensures j in ids <==> Awaited(w, j) && AwaitedBefore(w, j) < batch
    {
      AwaitedIsListed(w, batch, j);
    }
  }

  lemma GoneIsMissing(w: World, batch: nat, j: nat)
    ensures j in Gone(Take(RepublishableIds(w, |w.outbox|), batch), Present(w)) <==> Missing(w, batch, j)
  {
    BatchIsAwaited(w, batch);
  }

  /** A republish pass appends to each stream exactly its missing rows, in row order; nothing else moves. */
  lemma RestoresInOrder(w: World, batch: nat, s: Stream) returns (added: seq<Message>)
    ensures var v := RepublishPass(w, batch).0;
            && StreamOf(v.streams, s) == StreamOf(w.streams, s) + added && InRowOrder(w.outbox, added)
            && (forall j: nat :: Carries(added, j) <==> Missing(w, batch, j) && w.outbox[j].stream == s)
            && v.outbox == w.outbox && v.tasks == w.tasks
  {
    var ids := Take(RepublishableIds(w, |w.outbox|), batch);
    BatchIsAwaited(w, batch);
    RepublishAllEffect(w, ids);
    RepublishAppends(w, ids, s);
    GoneIncreasing(ids, Present(w));
    OnStreamOrdered(w.outbox, Gone(ids, Present(w)), s);
    added := OnStream(w.outbox, Gone(ids, Present(w)), s);
    forall j: nat
      ensures Carries(added, j) <==> Missing(w, batch, j) && w.outbox[j].stream == s
    {
      GoneIsMissing(w, batch, j);
      OnStreamCarries(w.outbox, Gone(ids, Present(w)), s, j);
    }
  }

  lemma AwaitedIsListed(w: World, batch: nat, j: nat)
    ensures j in Take(RepublishableIds(w, |w.outbox|), batch) <==> Awaited(w, j) && AwaitedBefore(w, j) < batch
  {
    var all := RepublishableIds(w, |w.outbox|);
    var ids := Take(all, batch);
    RepublishableListed(w, |w.outbox|);
    PlaceInAwaited(w, |w.outbox|, j);
    if Awaited(w, j) && AwaitedBefore(w, j) < batch {
      assert ids[AwaitedBefore(w, j)] == j;
    }
    if a :| 0 <= a < |ids| && ids[a] == j {
      assert all[a] in all;
    }
  }

  // ---- Counts ------------------------------------------------------------------------------

  function Members(ids: seq<nat>): set<nat> {
    set i | i in ids
  }

  lemma MembersSnoc(front: seq<nat>, last: nat)
    ensures Members(front + [last]) == Members(front) + {last}
  {
  }

  lemma {:induction false} IncreasingSize(ids: seq<nat>)
    requires Increasing(ids)
    ensures |Members(ids)| == |ids|
  {
    if ids != [] {
      var front, last := ids[..|ids| - 1], ids[|ids| - 1];
      IncreasingSize(front);
      MembersSnoc(front, last);
      assert last !in front;
      assert ids == front + [last];
    }
  }

  lemma {:induction false} GoneCounted(w: World, ids: seq<nat>)
    requires Increasing(ids) && forall a :: 0 <= a < |ids| ==> ids[a] < |w.outbox| && w.outbox[ids[a]].published
    ensures RepublishAll(w, ids).1 == |Gone(ids, Present(w))|
  {
    if ids != [] {
      var front, last := ids[..|ids| - 1], ids[|ids| - 1];
      GoneCounted(w, front);
      StillPresent(w, front, last);
    }
  }

  /** A publish pass returns the number of the rows that were due, a republish pass that of the missing ones. */
  lemma PassesCount(w: World, batch: nat)
    ensures PublishPass(w, batch).1 == |set j | 0 <= j < |w.outbox| && Due(w.outbox, batch, j)|
    ensures RepublishPass(w, batch).1 == |set j | 0 <= j < |w.outbox| && Missing(w, batch, j)|
  {
    DueCounted(w, batch);
    MissingCounted(w, batch);
  }

  lemma DueCounted(w: World, batch: nat)
    ensures PublishPass(w, batch).1 == |set j | 0 <= j < |w.outbox| && Due(w.outbox, batch, j)|
  {
    var ids := Take(UnpublishedIds(w.outbox, |w.outbox|), batch);
    PublishPassExact(w, batch);
    BatchIsIncreasing(w.outbox, batch);
    IncreasingSize(ids);
    forall j: nat
      ensures j in ids <==> Due(w.outbox, batch, j)
    {
      BatchIsDue(w.outbox, batch, j);
    }
    assert (set j | 0 <= j < |w.outbox| && Due(w.outbox, batch, j)) == Members(ids);
  }

  lemma MissingCounted(w: World, batch: nat)
    ensures RepublishPass(w, batch).1 == |set j | 0 <= j < |w.outbox| && Missing(w, batch, j)|
  {
    var ids := Take(RepublishableIds(w, |w.outbox|), batch);
    var gone := Gone(ids, Present(w));
    BatchIsAwaited(w, batch);
    GoneCounted(w, ids);
    GoneIncreasing(ids, Present(w));
    IncreasingSize(gone);
    forall j: nat
      ensures j in gone <==> Missing(w, batch, j)
    {
      GoneIsMissing(w, batch, j);
    }
    assert (set j | 0 <= j < |w.outbox| && Missing(w, batch, j)) == Members(gone);
  }
}
