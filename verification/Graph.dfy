/** The lineage table as a graph: its rows by child, paths over its edges, and what is reachable from a root. */
module Graph {
  import opened Wrappers

  datatype Node = Node(kind: string, id: string)

  datatype Edge = Edge(child: Node, parent: Node, relation: string, version: Option<string>)

  /** The row limit of `list_edges`. */
  const EDGE_LIMIT := 500

  /** The rows of one child, in table order. */
  function RowsOf(table: seq<Edge>, child: Node): seq<Edge> {
    if table == [] then []
    else
      var last := table[|table| - 1];
      RowsOf(table[..|table| - 1], child) + if last.child == child then [last] else []
  }

  /** What `edges_for_child` returns: the first rows up to the limit. */
  function EdgesFor(table: seq<Edge>, child: Node): seq<Edge> {
    var rows := RowsOf(table, child);
    if |rows| <= EDGE_LIMIT then rows else rows[..EDGE_LIMIT]
  }

  /** The unique constraint of the table: one row per (child, parent). */
  predicate UniqueEdges(table: seq<Edge>) {
    forall i, j :: 0 <= i < j < |table| ==> table[i].child != table[j].child || table[i].parent != table[j].parent
  }

  /** The edges the walk can see. */
  ghost function Visible(table: seq<Edge>): set<Edge> {
    set e | e in table && e in EdgesFor(table, e.child)
  }

  type EdgeKey = (Node, Node)

  function KeyOf(e: Edge): EdgeKey {
    (e.child, e.parent)
  }

  /** A path of edges from child to parent, from `root` up to `target`. */
  ghost predicate IsPath(edges: set<Edge>, root: Node, target: Node, path: seq<Edge>)
    decreases |path|
  {
    if path == [] then root == target
    else
      var last := path[|path| - 1];
      last in edges && last.parent == target && IsPath(edges, root, last.child, path[..|path| - 1])
  }

  ghost predicate Reachable(edges: set<Edge>, root: Node, target: Node) {
    exists path :: IsPath(edges, root, target, path)
  }

  lemma ReachRoot(edges: set<Edge>, root: Node)
    ensures Reachable(edges, root, root)
  {
    assert IsPath(edges, root, root, []);
  }

  lemma ReachParent(edges: set<Edge>, root: Node, e: Edge)
    requires Reachable(edges, root, e.child) && e in edges
    ensures Reachable(edges, root, e.parent)
  {
    var path :| IsPath(edges, root, e.child, path);
    assert (path + [e])[..|path|] == path;
    assert IsPath(edges, root, e.parent, path + [e]);
  }

  lemma {:induction false} RowsBelong(table: seq<Edge>, child: Node, e: Edge)
    ensures e in RowsOf(table, child) <==> e in table && e.child == child
  {
    if table != [] {
      RowsBelong(table[..|table| - 1], child, e);
      assert table == table[..|table| - 1] + [table[|table| - 1]];
    }
  }

  lemma VisibleIsEdgesFor(table: seq<Edge>, child: Node)
    ensures forall e :: e in EdgesFor(table, child) <==> e in Visible(table) && e.child == child
  {
    forall e
      ensures e in EdgesFor(table, child) <==> e in Visible(table) && e.child == child
    {
      RowsBelong(table, child, e);
    }
  }

  /** The unique constraint leaves one edge for each key. */
  lemma OnePerKey(table: seq<Edge>)
    requires UniqueEdges(table)
    ensures forall e, f :: e in table && f in table && KeyOf(e) == KeyOf(f) ==> e == f
  {
  }

  /** The nodes reachable from `root`. */
  ghost function Reach(edges: set<Edge>, root: Node): set<Node> {
    set n | n in (set e | e in edges :: e.parent) + {root} && Reachable(edges, root, n)
  }

  lemma ReachHolds(edges: set<Edge>, root: Node, n: Node)
    ensures n in Reach(edges, root) <==> Reachable(edges, root, n)
  {
    if path: seq<Edge> :| IsPath(edges, root, n, path) {
      assert path != [] ==> path[|path| - 1] in edges && path[|path| - 1].parent == n;
    }
  }

  /** No path to the target is shorter. */
  ghost predicate IsShortest(edges: set<Edge>, root: Node, target: Node, path: seq<Edge>) {
    IsPath(edges, root, target, path) && forall p :: IsPath(edges, root, target, p) ==> |path| <= |p|
  }

  lemma LongerPath(edges: set<Edge>, root: Node, path: seq<Edge>, e: Edge)
    requires e in edges && IsPath(edges, root, e.child, path)
    ensures IsPath(edges, root, e.parent, path + [e])
  {
    assert (path + [e])[..|path|] == path;
  }
}
