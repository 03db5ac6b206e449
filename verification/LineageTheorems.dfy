/** When a trace is the whole ancestry, and what a diff of two traces says about reachability. */
module LineageTheorems {
  import opened Wrappers
  import opened Graph
  import opened Search
  import opened Lineage

  ghost function AllRows(table: seq<Edge>): set<Edge> {
    set e | e in table
  }

  lemma {:induction false} RowsDistinct(table: seq<Edge>, child: Node)
    requires UniqueEdges(table)
    ensures forall i, j :: 0 <= i < j < |RowsOf(table, child)| ==> RowsOf(table, child)[i] != RowsOf(table, child)[j]
  {
    if table != [] {
      var front, last := table[..|table| - 1], table[|table| - 1];
      RowsDistinct(front, child);
      RowsBelong(front, child, last);
    }
  }

  /** How many of the first `n` rows are of this child. */
  function RowsBefore(table: seq<Edge>, n: nat, child: Node): nat
    requires n <= |table|
  {
    if n == 0 then 0 else RowsBefore(table, n - 1, child) + if table[n - 1].child == child then 1 else 0
  }

  lemma {:induction false} PlaceAmongRows(table: seq<Edge>, n: nat, i: nat)
    requires i < n <= |table|
    ensures |RowsOf(table[..n], table[i].child)| == RowsBefore(table, n, table[i].child)
    ensures RowsBefore(table, i, table[i].child) < RowsBefore(table, n, table[i].child)
    ensures RowsOf(table[..n], table[i].child)[RowsBefore(table, i, table[i].child)] == table[i]
    decreases n
  {
    assert table[..n][..n - 1] == table[..n - 1];
    if i < n - 1 {
      PlaceAmongRows(table, n - 1, i);
    } else {
      RowCount(table, n - 1, table[i].child);
    }
  }

  lemma {:induction false} RowCount(table: seq<Edge>, n: nat, child: Node)
    requires n <= |table|
    ensures |RowsOf(table[..n], child)| == RowsBefore(table, n, child)
  {
    if n > 0 {
      assert table[..n][..n - 1] == table[..n - 1];
      RowCount(table, n - 1, child);
    }
  }

  /** A walk sees a row exactly when fewer than 500 rows of the same child come before it in the table. */
  lemma SeenExact(table: seq<Edge>, i: nat)
    requires UniqueEdges(table) && i < |table|
    ensures table[i] in Visible(table) <==> RowsBefore(table, i, table[i].child) < 500
  {
    var rows, k := RowsOf(table, table[i].child), RowsBefore(table, i, table[i].child);
    PlaceAmongRows(table, |table|, i);
    assert table[..|table|] == table;
    RowsDistinct(table, table[i].child);
    if k < 500 {
      assert EdgesFor(table, table[i].child)[k] == table[i];
    }
  }

  /** A child over the row limit hides at least one of its edges. */
  lemma LimitHides(table: seq<Edge>, child: Node) returns (e: Edge)
    requires UniqueEdges(table) && |RowsOf(table, child)| > EDGE_LIMIT
    ensures e in table && e.child == child && e !in Visible(table)
  {
    var rows := RowsOf(table, child);
    e := rows[EDGE_LIMIT];
    RowsDistinct(table, child);
    RowsBelong(table, child, e);
  }

  lemma {:induction false} MoreEdgesReachMore(edges: set<Edge>, more: set<Edge>, root: Node, target: Node,
                                              path: seq<Edge>)
    requires edges <= more && IsPath(edges, root, target, path)
    ensures IsPath(more, root, target, path)
    decreases |path|
  {
    if path != [] {
      MoreEdgesReachMore(edges, more, root, path[|path| - 1].child, path[..|path| - 1]);
    }
  }

  lemma UnderLimitIsVisible(table: seq<Edge>, e: Edge)
    requires e in table && |RowsOf(table, e.child)| <= EDGE_LIMIT
    ensures e in Visible(table)
  {
    RowsBelong(table, e.child, e);
  }

  /** With every row of the traced nodes in sight, the table has the same paths from the root as the walk sees. */
  lemma {:induction false} SamePaths(table: seq<Edge>, t: Trace, n: Node, path: seq<Edge>)
    requires IsTrace(Visible(table), t) && forall m :: m in t.nodes ==> |RowsOf(table, m)| <= EDGE_LIMIT
    ensures IsPath(Visible(table), t.root, n, path) <==> IsPath(AllRows(table), t.root, n, path)
    decreases |path|
  {
    if path != [] {
      var front, last := path[..|path| - 1], path[|path| - 1];
      SamePaths(table, t, last.child, front);
      if last in table && IsPath(Visible(table), t.root, last.child, front) {
        assert Reachable(Visible(table), t.root, last.child);
        UnderLimitIsVisible(table, last);
      }
    }
  }

  lemma TraceIsWhole(table: seq<Edge>, t: Trace)
    requires IsTrace(Visible(table), t) && forall n :: n in t.nodes ==> |RowsOf(table, n)| <= EDGE_LIMIT
    ensures IsTrace(AllRows(table), t)
  {
    forall n
      ensures n in t.nodes <==> Reachable(AllRows(table), t.root, n)
      ensures n in t.nodes ==> FirstReached(AllRows(table), t.root, n, t.nodes[n])
    {
      forall path
        ensures IsPath(Visible(table), t.root, n, path) <==> IsPath(AllRows(table), t.root, n, path)
      {
        SamePaths(table, t, n, path);
      }
      var relation := if n in t.nodes then t.nodes[n] else None;
      SamePathsSameNotes(Visible(table), AllRows(table), t.root, n, relation, LastRelation);
    }
    forall e | e in AllRows(table) && e.child in t.nodes
      ensures e in Visible(table)
    {
      UnderLimitIsVisible(table, e);
    }
  }

  /** The node's rows do not all fit under the row limit. */
  predicate OverLimit(table: seq<Edge>, n: Node) {
    |RowsOf(table, n)| > EDGE_LIMIT
  }

  lemma HiddenIsMissing(table: seq<Edge>, t: Trace, e: Edge)
    requires EdgesOk(Visible(table), t.nodes.Keys, t.edges)
    requires e in table && e.child in t.nodes && e !in Visible(table)
    ensures !EdgesOk(AllRows(table), t.nodes.Keys, t.edges)
  {
    assert e in AllRows(table);
  }

  /** The trace is whole exactly when no node it holds is over the limit. */
  lemma TraceWholeByNodes(table: seq<Edge>, t: Trace)
    requires UniqueEdges(table) && IsTrace(Visible(table), t)
    ensures IsTrace(AllRows(table), t) <==> forall n :: n in t.nodes ==> !OverLimit(table, n)
  {
    if forall n :: n in t.nodes ==> !OverLimit(table, n) {
      TraceIsWhole(table, t);
    } else {
      var n :| n in t.nodes && OverLimit(table, n);
      var e := LimitHides(table, n);
      HiddenIsMissing(table, t, e);
    }
  }

  /** The trace of a root is its whole ancestry exactly when no ancestor in the table has more rows than the limit. */
  lemma TraceCompleteExact(table: seq<Edge>, t: Trace)
    requires UniqueEdges(table) && IsTrace(Visible(table), t)
    ensures IsTrace(AllRows(table), t)
            <==> forall n :: Reachable(AllRows(table), t.root, n) ==> !OverLimit(table, n)
  {
    TraceWholeByNodes(table, t);
    if forall n :: Reachable(AllRows(table), t.root, n) ==> !OverLimit(table, n) {
      forall n | n in t.nodes
        ensures !OverLimit(table, n)
      {
        var path :| IsPath(Visible(table), t.root, n, path);
        MoreEdgesReachMore(Visible(table), AllRows(table), t.root, n, path);
      }
    }
  }

  // ---- Diff ---------------------------------------------------------------

  datatype Diff = Diff(nodesOnlyLeft: set<Node>, nodesOnlyRight: set<Node>, sharedNodes: set<Node>,
                       edgesOnlyLeft: set<EdgeKey>, edgesOnlyRight: set<EdgeKey>, sharedEdges: set<EdgeKey>,
                       versionTagChanges: set<EdgeKey>)
  {
    predicate Identical() {
      nodesOnlyLeft == {} && nodesOnlyRight == {} && edgesOnlyLeft == {} && edgesOnlyRight == {}
      && versionTagChanges == {}
    }
  }

  ghost predicate HasEdge(edges: set<Edge>, k: EdgeKey) {
    exists e :: e in edges && KeyOf(e) == k
  }

  /** A diff in terms of reachability alone. */
  ghost predicate IsDiff(edges: set<Edge>, left: Node, right: Node, d: Diff) {
    && (forall n :: n in d.nodesOnlyLeft <==> Reachable(edges, left, n) && !Reachable(edges, right, n))
    && (forall n :: n in d.nodesOnlyRight <==> Reachable(edges, right, n) && !Reachable(edges, left, n))
    && (forall n :: n in d.sharedNodes <==> Reachable(edges, left, n) && Reachable(edges, right, n))
    && (forall e :: e in edges ==>
          && (KeyOf(e) in d.edgesOnlyLeft <==> e.child in d.nodesOnlyLeft)
          && (KeyOf(e) in d.edgesOnlyRight <==> e.child in d.nodesOnlyRight)
          && (KeyOf(e) in d.sharedEdges <==> e.child in d.sharedNodes))
    && (forall k :: k in d.edgesOnlyLeft || k in d.edgesOnlyRight || k in d.sharedEdges ==> HasEdge(edges, k))
    && d.versionTagChanges == {}
  }

  /** Compare the ancestries of two roots over one snapshot of the table. */
  method DiffLineage(table: seq<Edge>, left: Node, right: Node) returns (d: Diff)
    requires UniqueEdges(table)
    ensures IsDiff(Visible(table), left, right, d)
  {
    var l := TraceAncestors(table, left);
    var r := TraceAncestors(table, right);
    var sharedEdges := l.edges.Keys * r.edges.Keys;
    var changes: set<EdgeKey> := {};
    var rest := sharedEdges;
    while rest != {}
      invariant rest <= sharedEdges && changes == {}
      decreases rest
    {
      var k :| k in rest;
      SameEdge(table, l, r, k);
      if l.edges[k].version != r.edges[k].version {
        changes := changes + {k};
      }
      rest := rest - {k};
    }
    d := Diff(l.nodes.Keys - r.nodes.Keys, r.nodes.Keys - l.nodes.Keys, l.nodes.Keys * r.nodes.Keys,
              l.edges.Keys - r.edges.Keys, r.edges.Keys - l.edges.Keys, sharedEdges, changes);
    EdgesFollowNodes(table, l, r, d);
  }

  lemma SameEdge(table: seq<Edge>, l: Trace, r: Trace, k: EdgeKey)
    requires UniqueEdges(table) && IsTrace(Visible(table), l) && IsTrace(Visible(table), r)
    requires k in l.edges && k in r.edges
    ensures l.edges[k] == r.edges[k]
  {
    OnePerKey(table);
  }

  /** An edge is collected by a trace exactly when its child is reached. */
  lemma EdgeFollowsChild(table: seq<Edge>, t: Trace, e: Edge)
    requires UniqueEdges(table) && IsTrace(Visible(table), t) && e in Visible(table)
    ensures KeyOf(e) in t.edges <==> e.child in t.nodes
  {
  }

  lemma EdgesFollowNodes(table: seq<Edge>, l: Trace, r: Trace, d: Diff)
    requires UniqueEdges(table) && IsTrace(Visible(table), l) && IsTrace(Visible(table), r)
    requires d == Diff(l.nodes.Keys - r.nodes.Keys, r.nodes.Keys - l.nodes.Keys, l.nodes.Keys * r.nodes.Keys,
                       l.edges.Keys - r.edges.Keys, r.edges.Keys - l.edges.Keys, l.edges.Keys * r.edges.Keys, {})
    ensures IsDiff(Visible(table), l.root, r.root, d)
  {
    var edges := Visible(table);
    forall e | e in edges
      ensures KeyOf(e) in d.edgesOnlyLeft <==> e.child in d.nodesOnlyLeft
      ensures KeyOf(e) in d.edgesOnlyRight <==> e.child in d.nodesOnlyRight
      ensures KeyOf(e) in d.sharedEdges <==> e.child in d.sharedNodes
    {
      EdgeFollowsChild(table, l, e);
      EdgeFollowsChild(table, r, e);
    }
    forall k | k in d.edgesOnlyLeft || k in d.edgesOnlyRight || k in d.sharedEdges
      ensures HasEdge(edges, k)
    {
      var e := if k in l.edges then l.edges[k] else r.edges[k];
      assert e in edges && KeyOf(e) == k;
    }
  }

  lemma {:induction false} ReachIsTransitive(edges: set<Edge>, a: Node, b: Node, c: Node, path: seq<Edge>)
    requires Reachable(edges, a, b) && IsPath(edges, b, c, path)
    ensures Reachable(edges, a, c)
    decreases |path|
  {
    if path != [] {
      ReachIsTransitive(edges, a, b, path[|path| - 1].child, path[..|path| - 1]);
      ReachParent(edges, a, path[|path| - 1]);
    }
  }

  /** The parent of a shared edge is shared, and an edge of one side only never enters the shared part by its child. */
  lemma SharedIsClosed(edges: set<Edge>, left: Node, right: Node, d: Diff, e: Edge)
    requires IsDiff(edges, left, right, d) && e in edges && KeyOf(e) in d.sharedEdges
    ensures e.child in d.sharedNodes && e.parent in d.sharedNodes
  {
    ReachParent(edges, left, e);
    ReachParent(edges, right, e);
  }

  /** Two roots have identical ancestries exactly when each is an ancestor of the other. */
  lemma IdenticalExact(edges: set<Edge>, left: Node, right: Node, d: Diff)
    requires IsDiff(edges, left, right, d)
    ensures d.Identical() <==> Reachable(edges, left, right) && Reachable(edges, right, left)
  {
    ReachRoot(edges, left);
    ReachRoot(edges, right);
    if Reachable(edges, left, right) && Reachable(edges, right, left) {
      forall n
        ensures Reachable(edges, left, n) <==> Reachable(edges, right, n)
      {
        if Reachable(edges, left, n) {
          var path :| IsPath(edges, left, n, path);
          ReachIsTransitive(edges, right, left, n, path);
        }
        if Reachable(edges, right, n) {
          var path :| IsPath(edges, right, n, path);
          ReachIsTransitive(edges, left, right, n, path);
        }
      }
      assert d.nodesOnlyLeft == {} && d.nodesOnlyRight == {};
      NoLoneEdges(edges, left, right, d);
    } else {
      assert left in d.nodesOnlyLeft || right in d.nodesOnlyRight;
    }
  }

  lemma NoLoneEdges(edges: set<Edge>, left: Node, right: Node, d: Diff)
    requires IsDiff(edges, left, right, d) && d.nodesOnlyLeft == {} && d.nodesOnlyRight == {}
    ensures d.edgesOnlyLeft == {} && d.edgesOnlyRight == {}
  {
    assert forall k :: HasEdge(edges, k) ==> k !in d.edgesOnlyLeft && k !in d.edgesOnlyRight;
  }
}
