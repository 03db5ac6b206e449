/** Version pins of a replay: a shortest path from the root to each query_spec leaf. */
module Replay {
  import opened Wrappers
  import opened Graph
  import opened Search
  import opened Lineage

  /** The version tag recorded for each edge of a path. */
  type Pins = map<EdgeKey, Option<string>>

  function PinsOf(path: seq<Edge>): Pins {
    if path == [] then map[]
    else
      var last := path[|path| - 1];
      PinsOf(path[..|path| - 1])[KeyOf(last) := last.version]
  }

  ghost function Listed(es: seq<Edge>): set<Edge> {
    set e | e in es
  }

  ghost predicate PinsShortest(edges: set<Edge>, root: Node, target: Node, pins: Pins) {
    OfShortest(edges, root, target, pins, PinsOf)
  }

  /** A node waiting in the queue, with the pins of the path to it. */
  type PinEntry = (Node, Pins)

  /** The entries a visit appends. */
  function NextEntries(rows: seq<Edge>, pins: Pins): seq<PinEntry> {
    seq(|rows|, i requires 0 <= i < |rows| => (rows[i].parent, pins[KeyOf(rows[i]) := rows[i].version]))
  }

  /** The adjacency map the search walks: each child with its edges, in list order. */
  method GroupByChild(es: seq<Edge>) returns (childToParent: map<Node, seq<Edge>>)
    ensures forall n :: (if n in childToParent then childToParent[n] else []) == RowsOf(es, n)
  {
    childToParent := map[];
    for i := 0 to |es|
      invariant forall n :: (if n in childToParent then childToParent[n] else []) == RowsOf(es[..i], n)
    {
      var e := es[i];
      assert es[..i + 1][..i] == es[..i];
      var rows := if e.child in childToParent then childToParent[e.child] else [];
      childToParent := childToParent[e.child := rows + [e]];
    }
    assert es[..|es|] == es;
  }

  method VersionPinsForLeaf(es: seq<Edge>, root: Node, target: Node, pinVersions: bool) returns (pins: Pins)
    ensures !pinVersions ==> pins == map[]
    ensures pinVersions && Reachable(Listed(es), root, target) ==> PinsShortest(Listed(es), root, target, pins)
    ensures !Reachable(Listed(es), root, target) ==> pins == map[]
  {
    if !pinVersions {
      return map[];
    }
    var childToParent := GroupByChild(es);
    var queue: seq<PinEntry> := [(root, map[])];
    var visited: set<Node> := {};
    ghost var edges := Listed(es);
    WalkStarts(edges, root, PinsOf);
    while queue != []
      invariant target !in visited && InOrder(edges, root, visited, queue, PinsOf)
      decreases Reach(edges, root) - visited, |queue|
    {
      ghost var before, earlier := queue, visited;
      var (current, pathPins) := queue[0];
      queue := queue[1..];
      if current in visited {
        WalkSkips(edges, root, visited, before, PinsOf);
        continue;
      }
      WalkFinds(edges, root, visited, before, PinsOf);
      visited := visited + {current};
      if current == target {
        return pathPins;
      }
      var rows := if current in childToParent then childToParent[current] else [];
      queue := queue + NextEntries(rows, pathPins);
      SearchVisits(es, root, earlier, before);
    }
    WalkedAll(edges, root, visited, PinsOf);
    pins := map[];
  }

  lemma EntriesExtend(rows: seq<Edge>, pins: Pins)
    ensures Extends(rows, pins, NextEntries(rows, pins), PinsOf)
  {
    forall i, path | 0 <= i < |rows| && pins == PinsOf(path)
      ensures PinsOf(path + [rows[i]]) == pins[KeyOf(rows[i]) := rows[i].version]
    {
      assert (path + [rows[i]])[..|path|] == path;
    }
  }

  lemma SearchVisits(es: seq<Edge>, root: Node, visited: set<Node>, queue: seq<PinEntry>)
    requires InOrder(Listed(es), root, visited, queue, PinsOf) && queue != [] && queue[0].0 !in visited
    ensures var added := NextEntries(RowsOf(es, queue[0].0), queue[0].1);
            InOrder(Listed(es), root, visited + {queue[0].0}, queue[1..] + added, PinsOf)
  {
    var (node, pins) := queue[0];
    RowsAreListed(es, node);
    EntriesExtend(RowsOf(es, node), pins);
    WalkVisits(Listed(es), root, visited, queue, PinsOf, RowsOf(es, node), NextEntries(RowsOf(es, node), pins));
  }

  lemma RowsAreListed(es: seq<Edge>, child: Node)
    ensures forall e :: e in RowsOf(es, child) <==> e in Listed(es) && e.child == child
  {
    forall e
      ensures e in RowsOf(es, child) <==> e in Listed(es) && e.child == child
    {
      RowsBelong(es, child, e);
    }
  }

  // ---- A shortest path is simple, and its pins are exactly its edges -------

  lemma {:induction false} PrefixIsPath(edges: set<Edge>, root: Node, target: Node, path: seq<Edge>, i: nat)
    requires IsPath(edges, root, target, path) && i < |path|
    ensures IsPath(edges, root, path[i].child, path[..i])
    decreases |path|
  {
    var front := path[..|path| - 1];
    if i < |front| {
      PrefixIsPath(edges, root, path[|path| - 1].child, front, i);
      assert front[..i] == path[..i];
    } else {
      assert path[..i] == front;
    }
  }

  lemma {:induction false} Splice(edges: set<Edge>, root: Node, target: Node, path: seq<Edge>, j: nat, start: seq<Edge>)
    requires IsPath(edges, root, target, path) && j < |path| && IsPath(edges, root, path[j].child, start)
    ensures IsPath(edges, root, target, start + path[j..])
    decreases |path|
  {
    var front, last := path[..|path| - 1], path[|path| - 1];
    var spliced := start + path[j..];
    if j < |front| {
      Splice(edges, root, last.child, front, j, start);
      assert spliced[..|spliced| - 1] == start + front[j..];
    } else {
      assert spliced[..|spliced| - 1] == start;
    }
  }

  /** No node is left twice on a shortest path. */
  lemma ShortestIsSimple(edges: set<Edge>, root: Node, target: Node, path: seq<Edge>)
    requires IsShortest(edges, root, target, path)
    ensures forall i, j :: 0 <= i < j < |path| ==> path[i].child != path[j].child
  {
    forall i, j | 0 <= i < j < |path|
      ensures path[i].child != path[j].child
    {
      if path[i].child == path[j].child {
        PrefixIsPath(edges, root, target, path, i);
        Splice(edges, root, target, path, j, path[..i]);
        assert false;
      }
    }
  }

  /** A key is pinned exactly when it belongs to an edge of the path. */
  lemma {:induction false} PinnedIsOnPath(path: seq<Edge>, k: EdgeKey)
    ensures k in PinsOf(path) <==> exists i :: 0 <= i < |path| && KeyOf(path[i]) == k
  {
    if path != [] {
      var front, last := path[..|path| - 1], path[|path| - 1];
      PinnedIsOnPath(front, k);
      assert k == KeyOf(last) ==> KeyOf(path[|path| - 1]) == k;
      assert forall i :: 0 <= i < |front| ==> front[i] == path[i];
    }
  }

  /** Without repeated children, the pins hold one entry per edge, with that edge's own version tag. */
  lemma {:induction false} PinsAreThePath(path: seq<Edge>)
    requires forall i, j :: 0 <= i < j < |path| ==> path[i].child != path[j].child
    ensures |PinsOf(path)| == |path|
    ensures forall i :: 0 <= i < |path| ==>
                          KeyOf(path[i]) in PinsOf(path) && PinsOf(path)[KeyOf(path[i])] == path[i].version
  {
    if path != [] {
      var front, last := path[..|path| - 1], path[|path| - 1];
      PinsAreThePath(front);
      PinnedIsOnPath(front, KeyOf(last));
      forall i | 0 <= i < |front|
        ensures KeyOf(path[i]) in PinsOf(path) && PinsOf(path)[KeyOf(path[i])] == path[i].version
      {
        assert front[i] == path[i];
      }
    }
  }

  // ---- Replay over a trace -------------------------------------------------

  const QUERY_SPEC := "query_spec"

  /** From the root, the edges of a trace carry the same paths as the whole table. */
  lemma {:induction false} TraceKeepsPaths(edges: set<Edge>, t: Trace, listed: set<Edge>, n: Node, path: seq<Edge>)
    requires IsTrace(edges, t) && forall e :: e in listed <==> KeyOf(e) in t.edges && t.edges[KeyOf(e)] == e
    ensures IsPath(listed, t.root, n, path) <==> IsPath(edges, t.root, n, path)
    decreases |path|
  {
    if path != [] {
      var front, last := path[..|path| - 1], path[|path| - 1];
      TraceKeepsPaths(edges, t, listed, last.child, front);
      if IsPath(edges, t.root, last.child, front) {
        assert Reachable(edges, t.root, last.child);
      }
    }
  }

  lemma TraceKeepsPins(edges: set<Edge>, t: Trace, listed: set<Edge>, n: Node, pins: Pins)
    requires IsTrace(edges, t) && forall e :: e in listed <==> KeyOf(e) in t.edges && t.edges[KeyOf(e)] == e
    ensures Reachable(listed, t.root, n) <==> Reachable(edges, t.root, n)
    ensures PinsShortest(listed, t.root, n, pins) ==> PinsShortest(edges, t.root, n, pins)
  {
    forall path
      ensures IsPath(listed, t.root, n, path) <==> IsPath(edges, t.root, n, path)
    {
      TraceKeepsPaths(edges, t, listed, n, path);
    }
    SamePathsSameNotes(listed, edges, t.root, n, pins, PinsOf);
  }

  /** The edges of a trace as a list. */
  method ListEdges(edges: map<EdgeKey, Edge>) returns (es: seq<Edge>)
    requires forall k :: k in edges ==> KeyOf(edges[k]) == k
    ensures forall e :: e in es <==> KeyOf(e) in edges && edges[KeyOf(e)] == e
  {
    es := [];
    var rest := edges.Keys;
    while rest != {}
      invariant rest <= edges.Keys
      invariant forall e :: e in es <==> KeyOf(e) in edges.Keys - rest && edges[KeyOf(e)] == e
      decreases rest
    {
      var k :| k in rest;
      es := es + [edges[k]];
      rest := rest - {k};
    }
  }

  /** The list holds exactly the edges of the trace. */
  ghost predicate Lists(es: seq<Edge>, t: Trace) {
    forall e :: e in es <==> KeyOf(e) in t.edges && t.edges[KeyOf(e)] == e
  }

  /** Each entry of the plan holds the pins of a shortest path, or none with pinning off. */
  ghost predicate Pinned(edges: set<Edge>, root: Node, pinVersions: bool, plan: map<string, Pins>) {
    forall id :: id in plan ==>
        if pinVersions then PinsShortest(edges, root, Node(QUERY_SPEC, id), plan[id]) else plan[id] == map[]
  }

  lemma PlanGrows(table: seq<Edge>, t: Trace, es: seq<Edge>, pinVersions: bool, plan: map<string, Pins>, id: string,
                  pins: Pins)
    requires IsTrace(Visible(table), t) && Pinned(Visible(table), t.root, pinVersions, plan)
    requires Reachable(Visible(table), t.root, Node(QUERY_SPEC, id))
    requires Lists(es, t)
    requires if !pinVersions then pins == map[]
             else Reachable(Listed(es), t.root, Node(QUERY_SPEC, id)) ==>
               PinsShortest(Listed(es), t.root, Node(QUERY_SPEC, id), pins)
    ensures Pinned(Visible(table), t.root, pinVersions, plan[id := pins])
  {
    TraceKeepsPins(Visible(table), t, Listed(es), Node(QUERY_SPEC, id), pins);
  }

  /** Every stored query_spec the root descends from, with the pins of a shortest path to it. */
  method ReplayLineage(table: seq<Edge>, root: Node, querySpecs: set<string>, pinVersions: bool)
    returns (plan: map<string, Pins>)
    requires UniqueEdges(table)
    ensures forall id :: id in plan <==> id in querySpecs && Reachable(Visible(table), root, Node(QUERY_SPEC, id))
    ensures Pinned(Visible(table), root, pinVersions, plan)
  {
    var t := TraceAncestors(table, root);
    var es := ListEdges(t.edges);
    var leaves := set id | id in querySpecs && Node(QUERY_SPEC, id) in t.nodes;
    plan := map[];
    var rest := leaves;
    while rest != {}
      invariant forall id :: id in plan || id in rest <==> id in leaves
      invariant Pinned(Visible(table), root, pinVersions, plan)
      decreases rest
    {
      var id :| id in rest;
      var pins := VersionPinsForLeaf(es, root, Node(QUERY_SPEC, id), pinVersions);
      PlanGrows(table, t, es, pinVersions, plan, id, pins);
      plan := plan[id := pins];
      rest := rest - {id};
    }
  }

  /** The search comes back empty-handed for a reachable leaf only when the leaf is the root itself. */
  lemma EmptyPinsMeanRoot(edges: set<Edge>, root: Node, target: Node, pins: Pins)
    requires PinsShortest(edges, root, target, pins)
    ensures pins == map[] <==> root == target
  {
    var path :| IsShortest(edges, root, target, path) && pins == PinsOf(path);
    if root == target {
      assert IsPath(edges, root, target, []);
    }
    ShortestIsSimple(edges, root, target, path);
    PinsAreThePath(path);
  }
}
