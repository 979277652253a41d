/**
 * The networkx `MultiDiGraph` the fee scripts build from channel rows: a
 * node list in insertion order and an edge list whose attributes are the
 * row's columns plus the `fee` attribute the scripts write. On top of it,
 * the networkx library results the scripts rely on, stated as
 * specifications: strongly connected components, induced subgraphs, and
 * single-source shortest path costs over non-negative fees.
 */
module Nx {
  import opened Wrappers
  import opened Snapshot
  import opened Seqs
  import Reach

  /** One edge: the attributes of the channel row it was built from, and its `fee` attribute. */
  datatype Edge = Edge(row: Channel, fee: nat)

  function Src(e: Edge): NodeId
  {
    e.row.source
  }

  function Dst(e: Edge): NodeId
  {
    e.row.destination
  }

  /** The (source, destination) pairs joined by at least one edge. */
  function Pairs(es: seq<Edge>): set<(NodeId, NodeId)>
  {
    set e | e in es :: (Src(e), Dst(e))
  }

  /**
   * The edges `nx.from_pandas_edgelist` makes of the rows whose `active`
   * flag is set, one per row, in row order; no `fee` attribute is set yet.
   */
  function ActiveEdges(g: seq<Channel>): seq<Edge>
  {
    seq(|Active(g)|, i requires 0 <= i < |Active(g)| => Edge(Active(g)[i], 0))
  }

  /** The graph of the active rows has a node exactly when some row is active. */
  lemma ActiveEdgesNodes(g: seq<Channel>)
    ensures EndpointOrder(ActiveEdges(g)) == [] <==> Active(g) == []
  {
    EndpointOrderEmpty(ActiveEdges(g));
  }

  /** A graph built from edges has a node exactly when it has an edge. */
  lemma EndpointOrderEmpty(es: seq<Edge>)
    ensures EndpointOrder(es) == [] <==> es == []
  {
    if es != [] {
      assert Src(es[0]) in EndpointOrder(es);
    }
    if EndpointOrder(es) != [] {
      var x := EndpointOrder(es)[0];
      assert x in EndpointOrder(es);
      var e :| e in es && (x == Src(e) || x == Dst(e));
    }
  }

  /** The nodes `nx.MultiDiGraph(edges)` creates: every endpoint, in order of first appearance. */
  function EndpointOrder(es: seq<Edge>): (ns: seq<NodeId>)
    ensures Distinct(ns)
    ensures forall x :: x in ns <==> exists e :: e in es && (x == Src(e) || x == Dst(e))
  {
    if es == [] then []
    else
      var e := es[|es| - 1];
      assert forall f :: f in es <==> f in es[..|es| - 1] || f == e;
      AddNew(EndpointOrder(es[..|es| - 1]), [Src(e), Dst(e)])
  }

  /** Adding one more edge adds its new endpoints at the end. */
  lemma EndpointOrderStep(es: seq<Edge>, k: nat)
    requires k < |es|
    ensures EndpointOrder(es[..k + 1]) == AddNew(EndpointOrder(es[..k]), [Src(es[k]), Dst(es[k])])
  {
    assert es[..k + 1][..k] == es[..k];
  }

  /** The edges with both endpoints in `keep`, in order: the edges of `subgraph(keep)`. */
  function Induced(es: seq<Edge>, keep: set<NodeId>): (r: seq<Edge>)
    ensures forall e :: e in r <==> e in es && Src(e) in keep && Dst(e) in keep
    ensures |r| <= |es|
  {
    if es == [] then []
    else
      var e := es[|es| - 1];
      Induced(es[..|es| - 1], keep) + (if Src(e) in keep && Dst(e) in keep then [e] else [])
  }

  /** The nodes of `ns` in `keep`, in order. */
  function KeepNodes(ns: seq<NodeId>, keep: set<NodeId>): (r: seq<NodeId>)
    ensures forall x :: x in r <==> x in ns && x in keep
    ensures Distinct(ns) ==> Distinct(r)
  {
    if ns == [] then []
    else
      var x := ns[|ns| - 1];
      KeepNodes(ns[..|ns| - 1], keep) + (if x in keep then [x] else [])
  }

  /** The strongly connected components of the graph (`nx.strongly_connected_components`). */
  function Sccs(ns: seq<NodeId>, es: seq<Edge>): set<set<NodeId>>
  {
    set x | x in ns :: Reach.SccOf(Pairs(es), Elems(ns), x)
  }

  /** A networkx multidigraph with its edges in insertion order. */
  class MultiDiGraph {
    var nodes: seq<NodeId>
    var edges: seq<Edge>

    /** Nodes are distinct and every edge joins two nodes of the graph. */
    ghost predicate Valid()
      reads this
    {
      && Distinct(nodes)
      && forall e :: e in edges ==> Src(e) in nodes && Dst(e) in nodes
    }

    /** `nx.MultiDiGraph(edges)`: the edges in order, each adding its endpoints when new. */
    constructor FromEdges(es: seq<Edge>)
      ensures Valid() && nodes == EndpointOrder(es) && edges == es
    {
      var ns: seq<NodeId> := [];
      for k := 0 to |es|
        invariant ns == EndpointOrder(es[..k])
      {
        EndpointOrderStep(es, k);
        ns := AddNew(ns, [Src(es[k]), Dst(es[k])]);
      }
      assert es[..|es|] == es;
      nodes := ns;
      edges := es;
    }

    /** `nx.MultiDiGraph(g)`: a copy with its own edge attributes. */
    constructor Copy(g: MultiDiGraph)
      requires g.Valid()
      ensures Valid() && nodes == g.nodes && edges == g.edges
    {
      nodes := g.nodes;
      edges := g.edges;
    }

    /** `g.subgraph(keep)`, materialised: the nodes in `keep` and the edges between them. */
    constructor Subgraph(g: MultiDiGraph, keep: set<NodeId>)
      requires g.Valid()
      ensures Valid() && nodes == KeepNodes(g.nodes, keep) && edges == Induced(g.edges, keep)
    {
      nodes := KeepNodes(g.nodes, keep);
      edges := Induced(g.edges, keep);
    }

    /** `remove_node(u)`: the node goes, and every edge touching it. */
    method RemoveNode(u: NodeId)
      requires Valid() && u in nodes
      modifies this
      ensures Valid()
      ensures nodes == KeepNodes(old(nodes), Elems(old(nodes)) - {u})
      ensures edges == Induced(old(edges), Elems(old(nodes)) - {u})
    {
      var keep := Elems(nodes) - {u};
      nodes := KeepNodes(nodes, keep);
      edges := Induced(edges, keep);
    }
  }

  /**
   * `max(nx.strongly_connected_components(g), key=len)`: a component of
   * maximum size; ValueError (None here) when the graph has no node.
   */
  method LargestScc(g: MultiDiGraph) returns (r: Option<set<NodeId>>)
    requires g.Valid()
    ensures r.None? <==> g.nodes == []
    ensures r.Some? ==> r.value in Sccs(g.nodes, g.edges)
    ensures r.Some? ==> forall c :: c in Sccs(g.nodes, g.edges) ==> |c| <= |r.value|
  {
    if g.nodes == [] {
      return None;
    }
    var pairs := Pairs(g.edges);
    var all := Elems(g.nodes);
    var best := Reach.SccOf(pairs, all, g.nodes[0]);
    for k := 1 to |g.nodes|
      invariant best in Sccs(g.nodes, g.edges)
      invariant forall j :: 0 <= j < k ==> |Reach.SccOf(pairs, all, g.nodes[j])| <= |best|
    {
      var c := Reach.SccOf(pairs, all, g.nodes[k]);
      if |c| > |best| {
        best := c;
      }
    }
    return Some(best);
  }
  /** `w` is a walk from `s` to `t` along edges of `es`: consecutive edges meet. */
  predicate IsWalk(es: seq<Edge>, s: NodeId, t: NodeId, w: seq<Edge>)
  {
    && (forall e :: e in w ==> e in es)
    && (if w == [] then s == t
        else
          && Src(w[0]) == s && Dst(w[|w| - 1]) == t
          && forall i :: 0 <= i < |w| - 1 ==> Dst(w[i]) == Src(w[i + 1]))
  }

  /** The total `fee` along a walk: the weight networkx's Dijkstra minimises. */
  function Cost(w: seq<Edge>): nat
  {
    if w == [] then 0 else Cost(w[..|w| - 1]) + w[|w| - 1].fee
  }

  /**
   * `c` is the least cost of a walk from `s` to `t`. On a multigraph,
   * networkx weighs a hop by its cheapest parallel edge, which is the same
   * minimum taken over edge walks.
   */
  ghost predicate IsShortestCost(es: seq<Edge>, s: NodeId, t: NodeId, c: nat)
  {
    && (exists w :: IsWalk(es, s, t, w) && Cost(w) == c)
    && forall w :: IsWalk(es, s, t, w) ==> c <= Cost(w)
  }

  /** `p` is a node path from `s` to `t`: consecutive nodes are joined by an edge. */
  predicate IsNodePath(es: seq<Edge>, s: NodeId, t: NodeId, p: seq<NodeId>)
  {
    && |p| > 0 && p[0] == s && p[|p| - 1] == t
    && forall i :: 0 <= i < |p| - 1 ==> (p[i], p[i + 1]) in Pairs(es)
  }

  /** The walk `w` steps through exactly the nodes of `p`, in order. */
  predicate Follows(w: seq<Edge>, p: seq<NodeId>)
  {
    && |p| == |w| + 1
    && forall i :: 0 <= i < |w| ==> Src(w[i]) == p[i] && Dst(w[i]) == p[i + 1]
  }

  /**
   * The node path `p` from `s` to `t`, taken along suitable parallel edges,
   * costs `c`.
   */
  ghost predicate CostsAlong(es: seq<Edge>, s: NodeId, t: NodeId, p: seq<NodeId>, c: nat)
  {
    exists w :: IsWalk(es, s, t, w) && Follows(w, p) && Cost(w) == c
  }

  /**
   * The two dicts `nx.single_source_dijkstra(g, s, weight="fee")` returns:
   * the cost to every reachable node, and one path to each, in some order.
   */
  datatype Sssp = Sssp(dist: map<NodeId, nat>, paths: seq<(NodeId, seq<NodeId>)>)

  /**
   * What Dijkstra guarantees: exactly the nodes reachable from `s` have a
   * cost, that cost is the least walk cost, and each has one path from `s`,
   * which, taken along its cheapest parallel edges, costs exactly that least
   * cost.
   */
  ghost predicate SsspOk(es: seq<Edge>, s: NodeId, r: Sssp)
  {
    && r.dist.Keys == Reach.Closure(Pairs(es), {s})
    && (forall t :: t in r.dist ==> IsShortestCost(es, s, t, r.dist[t]))
    && (forall i, j :: 0 <= i < j < |r.paths| ==> r.paths[i].0 != r.paths[j].0)
    && (forall i :: 0 <= i < |r.paths| ==> r.paths[i].0 in r.dist && IsNodePath(es, s, r.paths[i].0, r.paths[i].1))
    && (forall i :: 0 <= i < |r.paths| && r.paths[i].0 in r.dist ==> CostsAlong(es, s, r.paths[i].0, r.paths[i].1, r.dist[r.paths[i].0]))
    && (forall t :: t in r.dist ==> exists i :: 0 <= i < |r.paths| && r.paths[i].0 == t)
  }

  /**
   * Every path Dijkstra reports is a cheapest route to its end: some walk
   * along it costs no more than any walk between the same two nodes.
   */
  lemma ReportedPathIsCheapest(es: seq<Edge>, s: NodeId, r: Sssp, i: nat)
    requires SsspOk(es, s, r) && i < |r.paths|
    ensures exists w ::
      && IsWalk(es, s, r.paths[i].0, w) && Follows(w, r.paths[i].1)
      && forall w' :: IsWalk(es, s, r.paths[i].0, w') ==> Cost(w) <= Cost(w')
  {
    var t := r.paths[i].0;
    var w :| IsWalk(es, s, t, w) && Follows(w, r.paths[i].1) && Cost(w) == r.dist[t];
    assert forall w' :: IsWalk(es, s, t, w') ==> Cost(w) <= Cost(w');
  }

  /** A walk that keeps its first `k` edges walks to the source of edge `k`. */
  lemma WalkPrefix(es: seq<Edge>, s: NodeId, t: NodeId, w: seq<Edge>, k: nat)
    requires IsWalk(es, s, t, w) && k < |w|
    ensures IsWalk(es, s, Src(w[k]), w[..k])
  {
    if k > 0 {
      assert Dst(w[k - 1]) == Src(w[k]);
    }
  }

  /** A walk that drops its first `k + 1` edges walks from the target of edge `k`. */
  lemma WalkSuffix(es: seq<Edge>, s: NodeId, t: NodeId, w: seq<Edge>, k: nat)
    requires IsWalk(es, s, t, w) && k < |w|
    ensures IsWalk(es, Dst(w[k]), t, w[k + 1..])
  {
    if k + 1 < |w| {
      assert Dst(w[k]) == Src(w[k + 1]);
      var v := w[k + 1..];
      forall i | 0 <= i < |v| - 1
        ensures Dst(v[i]) == Src(v[i + 1])
      {
        assert Dst(w[k + 1 + i]) == Src(w[k + 1 + i + 1]);
      }
    }
  }

  /** The end of a walk is reachable from its start. */
  lemma {:induction false} WalkReaches(es: seq<Edge>, s: NodeId, t: NodeId, w: seq<Edge>)
    requires IsWalk(es, s, t, w)
    ensures Reach.Reaches(Pairs(es), s, t)
    decreases |w|
  {
    if w != [] {
      var k := |w| - 1;
      WalkPrefix(es, s, t, w, k);
      WalkReaches(es, s, Src(w[k]), w[..k]);
      var c := Reach.Closure(Pairs(es), {s});
      assert (Src(w[k]), t) in Pairs(es);
      assert t in Reach.Step(Pairs(es), c);
    }
  }

  /**
   * A walk from `s` to a node of `s`'s strongly connected component never
   * leaves the component: it is a walk of the induced subgraph.
   */
  lemma WalkStaysInScc(es: seq<Edge>, nodes: set<NodeId>, s: NodeId, t: NodeId, w: seq<Edge>)
    requires forall e :: e in es ==> Src(e) in nodes && Dst(e) in nodes
    requires IsWalk(es, s, t, w) && t in Reach.SccOf(Pairs(es), nodes, s)
    ensures IsWalk(Induced(es, Reach.SccOf(Pairs(es), nodes, s)), s, t, w)
  {
    var ps := Pairs(es);
    var scc := Reach.SccOf(ps, nodes, s);
    forall k | 0 <= k < |w|
      ensures Src(w[k]) in scc && Dst(w[k]) in scc
    {
      var a, b := Src(w[k]), Dst(w[k]);
      WalkPrefix(es, s, t, w, k);
      WalkReaches(es, s, a, w[..k]);
      WalkSuffix(es, s, t, w, k);
      WalkReaches(es, b, t, w[k + 1..]);
      assert (a, b) in ps;
      assert b in Reach.Closure(ps, {a}) by {
        assert b in Reach.Step(ps, Reach.Closure(ps, {a}));
      }
      Reach.ReachesTrans(ps, b, t, s);
      Reach.ReachesTrans(ps, a, b, s);
      Reach.ReachesTrans(ps, s, a, b);
    }
  }

  /** Taking away edges never makes a shortest cost smaller. */
  lemma ShortestCostMonotone(small: seq<Edge>, big: seq<Edge>, s: NodeId, t: NodeId, c: nat, w: seq<Edge>)
    requires forall e :: e in small ==> e in big
    requires IsShortestCost(big, s, t, c) && IsWalk(small, s, t, w)
    ensures c <= Cost(w)
  {
    assert IsWalk(big, s, t, w);
  }
}
