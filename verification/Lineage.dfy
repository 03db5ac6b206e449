/** The ancestor walk over the lineage table: what a trace collects, and by which relation each node was reached. */
module Lineage {
  import opened Wrappers
  import opened Graph
  import opened Search

  /** What a trace collects: each node with the relation it was first reached by, and the edges by key. */
  datatype Trace = Trace(root: Node, nodes: map<Node, Option<string>>, edges: map<EdgeKey, Edge>)

  /** The relation of a path's last edge. */
  function LastRelation(path: seq<Edge>): Option<string> {
    if path == [] then None else Some(path[|path| - 1].relation)
  }

  /** The relation is that of the last edge of a shortest path to the node. */
  ghost predicate FirstReached(edges: set<Edge>, root: Node, n: Node, relation: Option<string>) {
    OfShortest(edges, root, n, relation, LastRelation)
  }

  /** The collected edges are exactly those leaving the visited nodes. */
  ghost predicate EdgesOk(edges: set<Edge>, visited: set<Node>, collected: map<EdgeKey, Edge>) {
    && (forall e :: e in edges && e.child in visited ==> KeyOf(e) in collected && collected[KeyOf(e)] == e)
    && (forall k :: k in collected ==> collected[k] in edges && KeyOf(collected[k]) == k && k.0 in visited)
  }

  ghost predicate NodesOk(edges: set<Edge>, root: Node, nodes: map<Node, Option<string>>) {
    forall n :: n in nodes ==> FirstReached(edges, root, n, nodes[n])
  }

  /** The trace of a root: exactly the reachable nodes, as first reached, and exactly the edges leaving them. */
  ghost predicate IsTrace(edges: set<Edge>, t: Trace) {
    && (forall n :: n in t.nodes <==> Reachable(edges, t.root, n))
    && NodesOk(edges, t.root, t.nodes)
    && EdgesOk(edges, t.nodes.Keys, t.edges)
  }

  /** Only the root is reached by no relation. */
  lemma RootHasNoRelation(edges: set<Edge>, t: Trace, n: Node)
    requires IsTrace(edges, t) && n in t.nodes
    ensures t.nodes[n] == None <==> n == t.root
  {
    var path :| IsShortest(edges, t.root, n, path) && t.nodes[n] == LastRelation(path);
    if n == t.root {
      assert IsPath(edges, t.root, n, []);
    }
  }

  /** An entry waiting in the queue: a node and the relation that led to it. */
  type Entry = (Node, Option<string>)

  /** The rows whose parents are not visited yet. */
  function Unvisited(rows: seq<Edge>, visited: set<Node>): seq<Edge> {
    if rows == [] then []
    else
      var last := rows[|rows| - 1];
      Unvisited(rows[..|rows| - 1], visited) + if last.parent in visited then [] else [last]
  }

  lemma {:induction false} UnvisitedExact(rows: seq<Edge>, visited: set<Node>, e: Edge)
    ensures e in Unvisited(rows, visited) <==> e in rows && e.parent !in visited
  {
    if rows != [] {
      UnvisitedExact(rows[..|rows| - 1], visited, e);
      assert rows == rows[..|rows| - 1] + [rows[|rows| - 1]];
    }
  }

  function EntriesOf(rows: seq<Edge>): seq<Entry> {
    seq(|rows|, i requires 0 <= i < |rows| => (rows[i].parent, Some(rows[i].relation)))
  }

  /** Later edges overwrite earlier ones with the same key. */
  function Collect(collected: map<EdgeKey, Edge>, rows: seq<Edge>): map<EdgeKey, Edge> {
    if rows == [] then collected
    else
      var last := rows[|rows| - 1];
      Collect(collected, rows[..|rows| - 1])[KeyOf(last) := last]
  }

  /** Collect the edges of a newly visited node and queue the parents not yet visited. */
  method Expand(table: seq<Edge>, node: Node, visited: set<Node>, queue: seq<Entry>, collected: map<EdgeKey, Edge>)
    returns (queue': seq<Entry>, collected': map<EdgeKey, Edge>)
    ensures queue' == queue + EntriesOf(Unvisited(EdgesFor(table, node), visited))
    ensures collected' == Collect(collected, EdgesFor(table, node))
  {
    var rows := EdgesFor(table, node);
    queue', collected' := queue, collected;
    for i := 0 to |rows|
      invariant queue' == queue + EntriesOf(Unvisited(rows[..i], visited))
      invariant collected' == Collect(collected, rows[..i])
    {
      assert rows[..i + 1][..i] == rows[..i];
      collected' := collected'[KeyOf(rows[i]) := rows[i]];
      if rows[i].parent !in visited {
        queue' := queue' + [(rows[i].parent, Some(rows[i].relation))];
      }
    }
    assert rows[..|rows|] == rows;
  }

  lemma {:induction false} CollectKeeps(collected: map<EdgeKey, Edge>, rows: seq<Edge>, k: EdgeKey)
    requires forall i, j :: 0 <= i < |rows| && 0 <= j < |rows| && KeyOf(rows[i]) == KeyOf(rows[j]) ==>
        rows[i] == rows[j]
    ensures k in Collect(collected, rows) <==> k in collected || exists i :: 0 <= i < |rows| && KeyOf(rows[i]) == k
    ensures forall i :: 0 <= i < |rows| && KeyOf(rows[i]) == k ==> Collect(collected, rows)[k] == rows[i]
    ensures k in collected && (forall i :: 0 <= i < |rows| ==> KeyOf(rows[i]) != k) ==>
        Collect(collected, rows)[k] == collected[k]
  {
    if rows != [] {
      CollectKeeps(collected, rows[..|rows| - 1], k);
    }
  }

  lemma EdgesGrow(table: seq<Edge>, visited: set<Node>, collected: map<EdgeKey, Edge>, node: Node)
    requires UniqueEdges(table) && node !in visited && EdgesOk(Visible(table), visited, collected)
    ensures EdgesOk(Visible(table), visited + {node}, Collect(collected, EdgesFor(table, node)))
  {
    var rows := EdgesFor(table, node);
    var after := Collect(collected, rows);
    VisibleIsEdgesFor(table, node);
    OnePerKey(table);
    forall i | 0 <= i < |rows|
      ensures rows[i] in Visible(table) && rows[i] in table && rows[i].child == node
    {
      assert rows[i] in rows;
    }
    forall e | e in Visible(table) && e.child in visited + {node}
      ensures KeyOf(e) in after && after[KeyOf(e)] == e
    {
      CollectKeeps(collected, rows, KeyOf(e));
      if e.child == node {
        assert e in rows;
      }
    }
    forall k | k in after
      ensures after[k] in Visible(table) && KeyOf(after[k]) == k && k.0 in visited + {node}
    {
      CollectKeeps(collected, rows, k);
    }
  }

  /** The rows a visit queues are edges leaving the node, and the rest of its parents were visited. */
  lemma UnvisitedLeave(table: seq<Edge>, visited: set<Node>, node: Node)
    ensures Leaving(Visible(table), visited, node, Unvisited(EdgesFor(table, node), visited + {node}))
  {
    VisibleIsEdgesFor(table, node);
    forall e
      ensures e in Unvisited(EdgesFor(table, node), visited + {node})
              <==> e in EdgesFor(table, node) && e.parent !in visited + {node}
    {
      UnvisitedExact(EdgesFor(table, node), visited + {node}, e);
    }
  }

  lemma EntriesExtend(rows: seq<Edge>, relation: Option<string>)
    ensures Extends(rows, relation, EntriesOf(rows), LastRelation)
  {
  }

  lemma EntriesInOrder(table: seq<Edge>, root: Node, visited: set<Node>, queue: seq<Entry>)
    requires InOrder(Visible(table), root, visited, queue, LastRelation) && queue != [] && queue[0].0 !in visited
    ensures var node := queue[0].0;
            var added := EntriesOf(Unvisited(EdgesFor(table, node), visited + {node}));
            InOrder(Visible(table), root, visited + {node}, queue[1..] + added, LastRelation)
  {
    var (node, relation) := queue[0];
    var rows := Unvisited(EdgesFor(table, node), visited + {node});
    UnvisitedLeave(table, visited, node);
    EntriesExtend(rows, relation);
    WalkVisits(Visible(table), root, visited, queue, LastRelation, rows, EntriesOf(rows));
  }

  /** What holds of a trace in progress before each entry is taken from its queue. */
  ghost predicate Tracing(edges: set<Edge>, root: Node, queue: seq<Entry>, nodes: map<Node, Option<string>>,
                          collected: map<EdgeKey, Edge>)
  {
    && InOrder(edges, root, nodes.Keys, queue, LastRelation)
    && NodesOk(edges, root, nodes)
    && EdgesOk(edges, nodes.Keys, collected)
  }

  lemma NodesGrow(edges: set<Edge>, root: Node, nodes: map<Node, Option<string>>, n: Node, relation: Option<string>)
    requires NodesOk(edges, root, nodes) && FirstReached(edges, root, n, relation)
    ensures nodes[n := relation].Keys == nodes.Keys + {n} && NodesOk(edges, root, nodes[n := relation])
  {
  }

  lemma TraceVisits(table: seq<Edge>, root: Node, queue: seq<Entry>, nodes: map<Node, Option<string>>,
                    collected: map<EdgeKey, Edge>)
    requires UniqueEdges(table) && Tracing(Visible(table), root, queue, nodes, collected)
    requires queue != [] && queue[0].0 !in nodes
    ensures queue[0].0 in Reach(Visible(table), root)
    ensures nodes[queue[0].0 := queue[0].1].Keys == nodes.Keys + {queue[0].0}
    ensures var rows := EdgesFor(table, queue[0].0);
            Tracing(Visible(table), root, queue[1..] + EntriesOf(Unvisited(rows, nodes.Keys + {queue[0].0})),
                    nodes[queue[0].0 := queue[0].1], Collect(collected, rows))
  {
    WalkFinds(Visible(table), root, nodes.Keys, queue, LastRelation);
    NodesGrow(Visible(table), root, nodes, queue[0].0, queue[0].1);
    EdgesGrow(table, nodes.Keys, collected, queue[0].0);
    EntriesInOrder(table, root, nodes.Keys, queue);
  }

  lemma TraceSkips(edges: set<Edge>, root: Node, queue: seq<Entry>, nodes: map<Node, Option<string>>,
                   collected: map<EdgeKey, Edge>)
    requires Tracing(edges, root, queue, nodes, collected) && queue != [] && queue[0].0 in nodes
    ensures Tracing(edges, root, queue[1..], nodes, collected)
  {
    WalkSkips(edges, root, nodes.Keys, queue, LastRelation);
  }

  lemma TraceEnds(edges: set<Edge>, root: Node, nodes: map<Node, Option<string>>, collected: map<EdgeKey, Edge>)
    requires Tracing(edges, root, [], nodes, collected)
    ensures IsTrace(edges, Trace(root, nodes, collected))
  {
    WalkedAll(edges, root, nodes.Keys, LastRelation);
  }

  method TraceAncestors(table: seq<Edge>, root: Node) returns (t: Trace)
    requires UniqueEdges(table)
    ensures t.root == root && IsTrace(Visible(table), t)
  {
    var visited: set<Node> := {};
    var queue: seq<Entry> := [(root, None)];
    var collected: map<EdgeKey, Edge> := map[];
    var nodes: map<Node, Option<string>> := map[];
    WalkStarts(Visible(table), root, LastRelation);
    while queue != []
      invariant visited == nodes.Keys && Tracing(Visible(table), root, queue, nodes, collected)
      decreases Reach(Visible(table), root) - visited, |queue|
    {
      var (node, relation) := queue[0];
      if node in visited {
        TraceSkips(Visible(table), root, queue, nodes, collected);
        queue := queue[1..];
        continue;
      }
      TraceVisits(table, root, queue, nodes, collected);
      visited := visited + {node};
      nodes := nodes[node := relation];
      queue, collected := Expand(table, node, visited, queue[1..], collected);
    }
    TraceEnds(Visible(table), root, nodes, collected);
    t := Trace(root, nodes, collected);
  }
}
