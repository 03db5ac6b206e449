/** Breadth-first search over the lineage graph: first come is reached by a shortest path. */
module Search {
  import opened Graph

  /** A search in progress: visited nodes with their distance, and the queued nodes with the path behind each. */
  datatype Sweep = Sweep(labels: map<Node, nat>, ends: seq<Node>, paths: seq<seq<Edge>>) {
    /** Within `d` steps: visited at a label of at most `d`, or waiting on a path of at most `d` edges. */
    ghost predicate Within(n: Node, d: nat)
      requires |ends| == |paths|
    {
      (n in labels && labels[n] <= d) || exists k :: 0 <= k < |ends| && ends[k] == n && |paths[k]| <= d
    }

    ghost predicate Ordered() {
      && (forall j, k :: 0 <= j <= k < |paths| ==> |paths[j]| <= |paths[k]| <= |paths[j]| + 1)
      && (forall n, k :: n in labels && 0 <= k < |paths| ==> labels[n] <= |paths[k]|)
    }

    ghost predicate Frontier(edges: set<Edge>, root: Node)
      requires |ends| == |paths|
    {
      Within(root, 0) && forall e :: e in edges && e.child in labels ==> Within(e.parent, labels[e.child] + 1)
    }

    ghost predicate Led(edges: set<Edge>, root: Node)
      requires |ends| == |paths|
    {
      && (forall k :: 0 <= k < |ends| ==> IsPath(edges, root, ends[k], paths[k]))
      && (forall n :: n in labels ==> Reachable(edges, root, n))
    }

    ghost predicate Ok(edges: set<Edge>, root: Node) {
      |ends| == |paths| && Led(edges, root) && Ordered() && Frontier(edges, root)
    }
  }

  /** Whatever path leads to a node, the node was visited no later, or the next entry is no longer than the path. */
  lemma {:induction false} PathsAreCovered(edges: set<Edge>, root: Node, s: Sweep, n: Node, path: seq<Edge>)
    requires s.Ok(edges, root) && IsPath(edges, root, n, path)
    ensures (n in s.labels && s.labels[n] <= |path|) || (s.ends != [] && |s.paths[0]| <= |path|)
    decreases |path|
  {
    if path == [] {
      assert s.Within(root, 0);
    } else {
      var e := path[|path| - 1];
      PathsAreCovered(edges, root, s, e.child, path[..|path| - 1]);
      if e.child in s.labels && s.labels[e.child] <= |path| - 1 {
        assert s.Within(e.parent, s.labels[e.child] + 1);
      }
    }
  }

  /** The search state after its first entry is dropped because the node was visited. */
  function Skip(s: Sweep): Sweep
    requires s.ends != [] && s.paths != []
  {
    Sweep(s.labels, s.ends[1..], s.paths[1..])
  }

  lemma SkipKeepsOk(edges: set<Edge>, root: Node, s: Sweep)
    requires s.Ok(edges, root) && s.ends != [] && s.ends[0] in s.labels
    ensures Skip(s).Ok(edges, root)
  {
    var t := Skip(s);
    forall n, d: nat | s.Within(n, d)
      ensures t.Within(n, d)
    {
      if !(n in s.labels && s.labels[n] <= d) {
        var k :| 0 <= k < |s.ends| && s.ends[k] == n && |s.paths[k]| <= d;
        if k > 0 {
          assert t.ends[k - 1] == n && |t.paths[k - 1]| <= d;
        }
      }
    }
  }

  /** The search state after its first node is visited and the parents over `rows` are queued. */
  function Visit(s: Sweep, rows: seq<Edge>): Sweep
    requires s.ends != [] && s.paths != []
  {
    Sweep(s.labels[s.ends[0] := |s.paths[0]|],
          s.ends[1..] + seq(|rows|, i requires 0 <= i < |rows| => rows[i].parent),
          s.paths[1..] + seq(|rows|, i requires 0 <= i < |rows| => s.paths[0] + [rows[i]]))
  }

  /** The rows are edges leaving the node, and a parent they leave out was visited before. */
  ghost predicate Leaving(edges: set<Edge>, visited: set<Node>, node: Node, rows: seq<Edge>) {
    && (forall e :: e in rows ==> e in edges && e.child == node)
    && (forall e :: e in edges && e.child == node ==> e in rows || e.parent in visited || e.parent == node)
  }

  lemma VisitLed(edges: set<Edge>, root: Node, s: Sweep, rows: seq<Edge>)
    requires s.Ok(edges, root) && s.ends != [] && Leaving(edges, s.labels.Keys, s.ends[0], rows)
    ensures var t := Visit(s, rows); |t.ends| == |t.paths| && t.Led(edges, root)
  {
    var t, n := Visit(s, rows), |s.ends| - 1;
    forall k | 0 <= k < |t.ends|
      ensures IsPath(edges, root, t.ends[k], t.paths[k])
    {
      if k < n {
        assert IsPath(edges, root, s.ends[k + 1], s.paths[k + 1]);
      } else {
        assert rows[k - n] in rows;
        LongerPath(edges, root, s.paths[0], rows[k - n]);
      }
    }
  }

  lemma VisitOrdered(edges: set<Edge>, root: Node, s: Sweep, rows: seq<Edge>)
    requires s.Ok(edges, root) && s.ends != []
    ensures Visit(s, rows).Ordered()
  {
    var t, n := Visit(s, rows), |s.ends| - 1;
    forall k | 0 <= k < |t.paths|
      ensures |s.paths[0]| <= |t.paths[k]| <= |s.paths[0]| + 1
      ensures k < n ==> t.paths[k] == s.paths[k + 1]
      ensures k >= n ==> |t.paths[k]| == |s.paths[0]| + 1
    {
    }
  }

  lemma VisitKeepsWithin(s: Sweep, rows: seq<Edge>, m: Node, d: nat)
    requires |s.ends| == |s.paths| && s.ends != [] && s.ends[0] !in s.labels && s.Within(m, d)
    ensures |Visit(s, rows).ends| == |Visit(s, rows).paths| && Visit(s, rows).Within(m, d)
  {
    var t := Visit(s, rows);
    if !(m in s.labels && s.labels[m] <= d) {
      var k :| 0 <= k < |s.ends| && s.ends[k] == m && |s.paths[k]| <= d;
      if k > 0 {
        assert t.ends[k - 1] == m && |t.paths[k - 1]| <= d;
      }
    }
  }

  lemma VisitFrontier(edges: set<Edge>, root: Node, s: Sweep, rows: seq<Edge>)
    requires s.Ok(edges, root) && s.ends != [] && s.ends[0] !in s.labels
    requires Leaving(edges, s.labels.Keys, s.ends[0], rows)
    ensures var t := Visit(s, rows); |t.ends| == |t.paths| && t.Frontier(edges, root)
  {
    var t, n := Visit(s, rows), |s.ends| - 1;
    VisitKeepsWithin(s, rows, root, 0);
    forall e | e in edges && e.child in t.labels
      ensures t.Within(e.parent, t.labels[e.child] + 1)
    {
      if e.child != s.ends[0] {
        VisitKeepsWithin(s, rows, e.parent, s.labels[e.child] + 1);
      } else if e in rows {
        var i :| 0 <= i < |rows| && rows[i] == e;
        assert t.ends[n + i] == e.parent && |t.paths[n + i]| == |s.paths[0]| + 1;
      }
    }
  }

  /** A visit that queues every parent not visited before keeps the search in order. */
  lemma VisitKeepsOk(edges: set<Edge>, root: Node, s: Sweep, rows: seq<Edge>)
    requires s.Ok(edges, root) && s.ends != [] && s.ends[0] !in s.labels
    requires Leaving(edges, s.labels.Keys, s.ends[0], rows)
    ensures Visit(s, rows).Ok(edges, root)
  {
    VisitLed(edges, root, s, rows);
    VisitOrdered(edges, root, s, rows);
    VisitFrontier(edges, root, s, rows);
  }

  /** The path behind the first entry for an unvisited node is a shortest one. */
  lemma FirstIsShortest(edges: set<Edge>, root: Node, s: Sweep)
    requires s.Ok(edges, root) && s.ends != [] && s.ends[0] !in s.labels
    ensures IsShortest(edges, root, s.ends[0], s.paths[0])
  {
    forall p | IsPath(edges, root, s.ends[0], p)
      ensures |s.paths[0]| <= |p|
    {
      PathsAreCovered(edges, root, s, s.ends[0], p);
    }
  }

  function Opening(root: Node): Sweep {
    Sweep(map[], [root], [[]])
  }

  lemma SearchStarts(edges: set<Edge>, root: Node)
    ensures Opening(root).Ok(edges, root)
  {
    var s := Opening(root);
    assert s.ends[0] == root && |s.paths[0]| == 0;
    assert s.Within(root, 0);
  }

  lemma ExhaustedMeansUnreachable(edges: set<Edge>, root: Node, s: Sweep, target: Node)
    requires s.Ok(edges, root) && s.ends == [] && target !in s.labels
    ensures !Reachable(edges, root, target)
  {
    if path :| IsPath(edges, root, target, path) {
      PathsAreCovered(edges, root, s, target, path);
      assert false;
    }
  }

  // ---- The queue of a walk -------------------------------------------------

  /** Each entry is a node with what `note` makes of the path that led to it. */
  ghost predicate Mirrors<T(!new)>(queue: seq<(Node, T)>, s: Sweep, note: seq<Edge> -> T) {
    |queue| == |s.ends| == |s.paths| && forall k :: 0 <= k < |queue| ==> queue[k] == (s.ends[k], note(s.paths[k]))
  }

  /** A walk in order: the search behind its visited nodes and its queue. */
  ghost predicate Walking<T(!new)>(edges: set<Edge>, root: Node, s: Sweep, visited: set<Node>, queue: seq<(Node, T)>,
                                   note: seq<Edge> -> T)
  {
    s.Ok(edges, root) && visited == s.labels.Keys && Mirrors(queue, s, note)
  }

  /** A walk in order: some search lies behind its visited nodes and its queue. */
  ghost predicate InOrder<T(!new)>(edges: set<Edge>, root: Node, visited: set<Node>, queue: seq<(Node, T)>,
                                   note: seq<Edge> -> T)
  {
    exists s :: Walking(edges, root, s, visited, queue, note)
  }

  lemma WalkStarts<T(!new)>(edges: set<Edge>, root: Node, note: seq<Edge> -> T)
    ensures InOrder(edges, root, {}, [(root, note([]))], note)
  {
    SearchStarts(edges, root);
    assert Walking(edges, root, Opening(root), {}, [(root, note([]))], note);
  }

  lemma WalkSkips<T(!new)>(edges: set<Edge>, root: Node, visited: set<Node>, queue: seq<(Node, T)>,
                           note: seq<Edge> -> T)
    requires InOrder(edges, root, visited, queue, note) && queue != [] && queue[0].0 in visited
    ensures InOrder(edges, root, visited, queue[1..], note)
  {
    var s :| Walking(edges, root, s, visited, queue, note);
    SkipKeepsOk(edges, root, s);
    assert Walking(edges, root, Skip(s), visited, queue[1..], note);
  }

  /** The value is what `note` makes of a shortest path to the node. */
  ghost predicate OfShortest<T(!new)>(edges: set<Edge>, root: Node, n: Node, value: T, note: seq<Edge> -> T) {
    exists path :: IsShortest(edges, root, n, path) && value == note(path)
  }

  /** The first entry for an unvisited node was noted from a shortest path. */
  lemma WalkFinds<T(!new)>(edges: set<Edge>, root: Node, visited: set<Node>, queue: seq<(Node, T)>,
                           note: seq<Edge> -> T)
    requires InOrder(edges, root, visited, queue, note) && queue != [] && queue[0].0 !in visited
    ensures OfShortest(edges, root, queue[0].0, queue[0].1, note) && queue[0].0 in Reach(edges, root)
  {
    var s :| Walking(edges, root, s, visited, queue, note);
    FirstIsShortest(edges, root, s);
    ReachHolds(edges, root, queue[0].0);
  }

  /** What a visit appends, entry by entry, is noted from the longer paths. */
  ghost predicate Extends<T(!new)>(rows: seq<Edge>, entry: T, added: seq<(Node, T)>, note: seq<Edge> -> T) {
    |added| == |rows| && forall i, path :: 0 <= i < |rows| && entry == note(path) ==>
        added[i] == (rows[i].parent, note(path + [rows[i]]))
  }

  lemma WalkVisits<T(!new)>(edges: set<Edge>, root: Node, visited: set<Node>, queue: seq<(Node, T)>,
                            note: seq<Edge> -> T, rows: seq<Edge>, added: seq<(Node, T)>)
    requires InOrder(edges, root, visited, queue, note) && queue != [] && queue[0].0 !in visited
    requires Leaving(edges, visited, queue[0].0, rows) && Extends(rows, queue[0].1, added, note)
    ensures InOrder(edges, root, visited + {queue[0].0}, queue[1..] + added, note)
  {
    var s :| Walking(edges, root, s, visited, queue, note);
    VisitKeepsOk(edges, root, s, rows);
    assert queue[0] == (s.ends[0], note(s.paths[0]));
    VisitMirrors(queue, s, note, rows, added);
    VisitLabels(s, rows);
    assert Walking(edges, root, Visit(s, rows), visited + {queue[0].0}, queue[1..] + added, note);
  }

  lemma VisitLabels(s: Sweep, rows: seq<Edge>)
    requires s.ends != [] && s.paths != []
    ensures Visit(s, rows).labels.Keys == s.labels.Keys + {s.ends[0]}
  {
  }

  lemma VisitMirrors<T(!new)>(queue: seq<(Node, T)>, s: Sweep, note: seq<Edge> -> T, rows: seq<Edge>,
                              added: seq<(Node, T)>)
    requires Mirrors(queue, s, note) && queue != [] && |added| == |rows|
    requires forall i :: 0 <= i < |rows| ==> added[i] == (rows[i].parent, note(s.paths[0] + [rows[i]]))
    ensures Mirrors(queue[1..] + added, Visit(s, rows), note)
  {
  }

  /** A walk with nothing left to take has visited exactly the reachable nodes. */
  lemma WalkedAll<T(!new)>(edges: set<Edge>, root: Node, visited: set<Node>, note: seq<Edge> -> T)
    requires InOrder(edges, root, visited, [], note)
    ensures forall n :: n in visited <==> Reachable(edges, root, n)
  {
    var s :| Walking(edges, root, s, visited, [], note);
    forall n | n !in visited
      ensures !Reachable(edges, root, n)
    {
      ExhaustedMeansUnreachable(edges, root, s, n);
    }
  }

  /** Edges with the same paths to a node have the same shortest ones. */
  lemma SamePathsSameNotes<T(!new)>(edges: set<Edge>, more: set<Edge>, root: Node, n: Node, value: T,
                                    note: seq<Edge> -> T)
    requires forall path :: IsPath(edges, root, n, path) <==> IsPath(more, root, n, path)
    ensures Reachable(edges, root, n) <==> Reachable(more, root, n)
    ensures OfShortest(edges, root, n, value, note) ==> OfShortest(more, root, n, value, note)
  {
    if path :| IsShortest(edges, root, n, path) && value == note(path) {
      assert IsShortest(more, root, n, path);
    }
  }
}
