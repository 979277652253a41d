/**
 * The graph-tool centrality pipeline: build a directed multigraph of the
 * active channels, weight each edge by the BOLT #7 fee for one transaction
 * size plus a random offset in [0, 1], hide the edges whose HTLC bounds
 * refuse that size, keep the largest strongly connected component, optionally
 * cut a BFS neighbourhood for test runs, and rank the betweenness shares.
 *
 * graph-tool's vertices are the integers 0 .. vertexCount-1 and its edges are
 * kept in insertion order; a GraphView is the same graph with a vertex mask
 * and an edge mask.
 */
module BetweennessCentrality {
  import opened Wrappers
  import opened Snapshot
  import Ranking
  import Reach

  type Vertex = nat

  datatype GtEdge = GtEdge(source: Vertex, target: Vertex)

  datatype Graph = Graph(vertexCount: nat, edges: seq<GtEdge>)

  /** The terms `build_graph` stores per (source, destination) pair; `ppm` is already divided by 10^6. */
  datatype FeeTerms = FeeTerms(baseFee: nat, ppm: real, htlcMin: int, htlcMax: int)

  /** What `build_graph` returns: the graph, `vertex_to_id` and `edge_lookup`. */
  datatype Built = Built(
    graph: Graph,
    vertexToId: map<Vertex, NodeId>,
    edgeLookup: map<(NodeId, NodeId), FeeTerms>)

  function TermsOf(c: Channel): FeeTerms
  {
    FeeTerms(c.baseFeeMsat, c.feePerMillionth as real / 1000000.0, c.htlcMinimumMsat, c.htlcMaximumMsat)
  }

  function Endpoints(c: Channel): (NodeId, NodeId)
  {
    (c.source, c.destination)
  }

  // ---------------------------------------------------------------------------
  // build_graph
  // ---------------------------------------------------------------------------

  /**
   * `node_map`: one vertex per node row, in row order; when an id repeats,
   * the later row's vertex overwrites the earlier one.
   */
  function NodeMap(nodes: seq<NodeId>): (m: map<NodeId, Vertex>)
    ensures m.Keys == set id | id in nodes
    ensures forall id :: id in m ==> m[id] < |nodes| && nodes[m[id]] == id
    ensures forall id, j :: id in m && m[id] < j < |nodes| ==> nodes[j] != id
  {
    if nodes == [] then map[]
    else NodeMap(nodes[..|nodes| - 1])[nodes[|nodes| - 1] := |nodes| - 1]
  }

  /** `vertex_to_id`: the inverse of `node_map`. */
  function VertexToId(nodes: seq<NodeId>): (inv: map<Vertex, NodeId>)
    ensures forall id :: id in NodeMap(nodes) ==> NodeMap(nodes)[id] in inv && inv[NodeMap(nodes)[id]] == id
    ensures forall v :: v in inv ==> inv[v] in NodeMap(nodes) && NodeMap(nodes)[inv[v]] == v
  {
    var m := NodeMap(nodes);
    map v | 0 <= v < |nodes| && m[nodes[v]] == v :: nodes[v]
  }

  /**
   * `edge_lookup` over a sequence of active rows: one entry per
   * (source, destination) pair, holding the terms of the last row with that
   * pair.
   */
  function Lookup(cs: seq<Channel>): map<(NodeId, NodeId), FeeTerms>
  {
    if cs == [] then map[]
    else Lookup(cs[..|cs| - 1])[Endpoints(cs[|cs| - 1]) := TermsOf(cs[|cs| - 1])]
  }

  /** Every row's endpoint pair has an entry. */
  lemma {:induction false} LookupCoversRows(cs: seq<Channel>)
    ensures forall c :: c in cs ==> Endpoints(c) in Lookup(cs)
  {
    if cs != [] {
      LookupCoversRows(cs[..|cs| - 1]);
      assert forall c :: c in cs ==> c in cs[..|cs| - 1] || c == cs[|cs| - 1];
    }
  }

  /** The last row on an endpoint pair wins: its terms are the ones stored. */
  lemma {:induction false} LookupLastRowWins(cs: seq<Channel>, i: nat)
    requires i < |cs|
    requires forall j :: i < j < |cs| ==> Endpoints(cs[j]) != Endpoints(cs[i])
    ensures Endpoints(cs[i]) in Lookup(cs) && Lookup(cs)[Endpoints(cs[i])] == TermsOf(cs[i])
  {
    if i < |cs| - 1 {
      LookupLastRowWins(cs[..|cs| - 1], i);
    } else {
      LookupCoversRows(cs);
    }
  }

  /** Whether every active row's endpoints have a node row, so that `node_map[src]` cannot fail. */
  predicate EndpointsKnown(channels: seq<Channel>, nodes: seq<NodeId>)
  {
    forall c :: c in Active(channels) ==> c.source in nodes && c.destination in nodes
  }

  /** One graph edge per row, between the vertices `node_map` gives its endpoints. */
  function EdgesFor(m: map<NodeId, Vertex>, cs: seq<Channel>): (es: seq<GtEdge>)
    requires forall c :: c in cs ==> c.source in m && c.destination in m
    ensures |es| == |cs|
    ensures forall k :: 0 <= k < |cs| ==> es[k] == GtEdge(m[cs[k].source], m[cs[k].destination])
  {
    if cs == [] then []
    else
      var last := cs[|cs| - 1];
      assert last in cs;
      EdgesFor(m, cs[..|cs| - 1]) + [GtEdge(m[last.source], m[last.destination])]
  }

  /** The graph `build_graph` returns when every endpoint is known. */
  function GraphOf(channels: seq<Channel>, nodes: seq<NodeId>): Built
    requires EndpointsKnown(channels, nodes)
  {
    var a := Active(channels);
    var m := NodeMap(nodes);
    Built(
      Graph(|nodes|, EdgesFor(m, a)),
      VertexToId(nodes),
      Lookup(a))
  }

  /**
   * `build_graph`: one vertex per node row, then one edge per active channel
   * row in row order (parallel channels give parallel edges), recording each
   * row's terms under its endpoint pair. A channel endpoint without a node
   * row raises KeyError, reported here as the missing id.
   */
  method BuildGraph(channels: seq<Channel>, nodes: seq<NodeId>) returns (r: Result<Built, NodeId>)
    ensures r.Success? <==> EndpointsKnown(channels, nodes)
    ensures r.Success? ==> r.value == GraphOf(channels, nodes)
    ensures r.Failure? ==> r.error !in nodes
  {
    var nodeMap := NodeMap(nodes);
    var vertexToId := VertexToId(nodes);
    var edges: seq<GtEdge> := [];
    var lookup: map<(NodeId, NodeId), FeeTerms> := map[];
    for i := 0 to |channels|
      invariant forall c :: c in Active(channels[..i]) ==> c.source in nodeMap && c.destination in nodeMap
      invariant lookup == Lookup(Active(channels[..i]))
      invariant edges == EdgesFor(nodeMap, Active(channels[..i]))
    {
      var c := channels[i];
      ActiveStep(channels, i);
      if c.active {
        assert c in Active(channels) by { ActivePrefix(channels, i + 1); }
        lookup := lookup[Endpoints(c) := TermsOf(c)];
        if c.source !in nodeMap {
          return Failure(c.source);
        }
        if c.destination !in nodeMap {
          return Failure(c.destination);
        }
        EdgesStep(nodeMap, Active(channels[..i]), c);
        edges := edges + [GtEdge(nodeMap[c.source], nodeMap[c.destination])];
      }
    }
    assert channels[..|channels|] == channels;
    r := Success(Built(Graph(|nodes|, edges), vertexToId, lookup));
  }

  /** How the active rows, and the lookup built from them, grow by one snapshot row. */
  lemma ActiveStep(channels: seq<Channel>, i: nat)
    requires i < |channels|
    ensures channels[i].active ==> Active(channels[..i + 1]) == Active(channels[..i]) + [channels[i]]
    ensures channels[i].active ==> Lookup(Active(channels[..i + 1])) == Lookup(Active(channels[..i]))[Endpoints(channels[i]) := TermsOf(channels[i])]
    ensures !channels[i].active ==> Active(channels[..i + 1]) == Active(channels[..i])
  {
    var pre, post := Active(channels[..i]), Active(channels[..i + 1]);
    assert channels[..i + 1][..i] == channels[..i];
    if channels[i].active {
      assert post[..|post| - 1] == pre;
    }
  }

  /** Appending a row appends its edge. */
  lemma EdgesStep(m: map<NodeId, Vertex>, cs: seq<Channel>, c: Channel)
    requires forall d :: d in cs ==> d.source in m && d.destination in m
    requires c.source in m && c.destination in m
    ensures EdgesFor(m, cs + [c]) == EdgesFor(m, cs) + [GtEdge(m[c.source], m[c.destination])]
  {
    assert (cs + [c])[..|cs|] == cs;
  }

  /** The active rows of a prefix are active rows of the whole snapshot. */
  lemma ActivePrefix(channels: seq<Channel>, n: nat)
    requires n <= |channels|
    ensures forall c :: c in Active(channels[..n]) ==> c in Active(channels)
  {
    forall c | c in Active(channels[..n])
      ensures c in Active(channels)
    {
      assert c in channels[..n];
    }
  }

  /**
   * Round trip on the structural fields: mapping each edge's vertices back
   * through `vertex_to_id` recovers the endpoints of the active row it came
   * from, and the graph has one vertex per node row.
   */
  lemma EdgesRecoverActiveRows(channels: seq<Channel>, nodes: seq<NodeId>, k: nat)
    requires EndpointsKnown(channels, nodes)
    requires k < |Active(channels)|
    ensures var b := GraphOf(channels, nodes);
      && b.graph.vertexCount == |nodes|
      && |b.graph.edges| == |Active(channels)|
      && b.graph.edges[k].source in b.vertexToId
      && b.graph.edges[k].target in b.vertexToId
      && b.vertexToId[b.graph.edges[k].source] == Active(channels)[k].source
      && b.vertexToId[b.graph.edges[k].target] == Active(channels)[k].destination
  {
    var a := Active(channels);
    assert a[k] in a;
  }

  // ---------------------------------------------------------------------------
  // update_fees_and_filter
  // ---------------------------------------------------------------------------

  /** A built graph whose edges can all be looked up: what `update_fees_and_filter` relies on. */
  predicate Consistent(b: Built)
  {
    forall e :: e in b.graph.edges ==>
      && e.source < b.graph.vertexCount && e.target < b.graph.vertexCount
      && e.source in b.vertexToId && e.target in b.vertexToId
      && (b.vertexToId[e.source], b.vertexToId[e.target]) in b.edgeLookup
  }

  /** `edge_lookup[(vertex_to_id[e.source()], vertex_to_id[e.target()])]` for edge i. */
  function TermsAt(b: Built, i: nat): FeeTerms
    requires Consistent(b) && i < |b.graph.edges|
  {
    var e := b.graph.edges[i];
    assert e in b.graph.edges;
    b.edgeLookup[(b.vertexToId[e.source], b.vertexToId[e.target])]
  }

  /** The edge weight of one transaction size: base + tx_sat * ppm * 1000 + offset. */
  function JitteredFee(t: FeeTerms, txSat: nat, offset: real): real
  {
    t.baseFee as real + txSat as real * t.ppm * 1000.0 + offset
  }

  /** The HTLC test on the stored terms: htlc_max > tx_sat*1000 and htlc_min < tx_sat*1000. */
  predicate PassesHtlc(t: FeeTerms, txSat: nat)
  {
    t.htlcMax > txSat * 1000 && t.htlcMin < txSat * 1000
  }

  /** The stored terms give the BOLT #7 fee plus the offset, and the strict HTLC test of the snapshot row. */
  lemma StoredTermsAgreeWithRow(c: Channel, txSat: nat, offset: real)
    requires 0.0 <= offset <= 1.0
    ensures JitteredFee(TermsOf(c), txSat, offset) == Bolt7Fee(c, txSat) + offset
    ensures Bolt7Fee(c, txSat) <= JitteredFee(TermsOf(c), txSat, offset) <= Bolt7Fee(c, txSat) + 1.0
    ensures PassesHtlc(TermsOf(c), txSat) <==> HtlcAdmits(c, txSat)
  {
    var p := c.feePerMillionth as real / 1000000.0;
    assert (txSat * 1000) as real == txSat as real * 1000.0;
    assert txSat as real * p * 1000.0 == (txSat * 1000) as real * p;
  }

  /** A view whose masks match the graph and whose edges stay inside it. */
  predicate ViewOk(v: View)
  {
    && |v.vkeep| == v.graph.vertexCount
    && |v.ekeep| == |v.graph.edges|
    && forall e :: e in v.graph.edges ==> e.source < v.graph.vertexCount && e.target < v.graph.vertexCount
  }

  /** A graph-tool GraphView: which vertices and which edges are shown. */
  datatype View = View(graph: Graph, vkeep: seq<bool>, ekeep: seq<bool>)

  /** Edge i is shown when it passes the edge mask and both its endpoints pass the vertex mask. */
  predicate Shows(v: View, i: nat)
    requires ViewOk(v) && i < |v.graph.edges|
  {
    var e := v.graph.edges[i];
    assert e in v.graph.edges;
    v.ekeep[i] && v.vkeep[e.source] && v.vkeep[e.target]
  }

  /** The view `update_fees_and_filter` returns for `txSat`: every vertex, and the edges passing the HTLC test. */
  function FilteredView(b: Built, txSat: nat): (v: View)
    requires Consistent(b)
    ensures ViewOk(v) && v.graph == b.graph
  {
    View(b.graph, seq(b.graph.vertexCount, _ => true),
      seq(|b.graph.edges|, i requires 0 <= i < |b.graph.edges| => PassesHtlc(TermsAt(b, i), txSat)))
  }

  /**
   * `update_fees_and_filter`: overwrite every edge's `fee` property with the
   * weight for `txSat`, each edge drawing its own offset in [0, 1], and
   * return the view that hides the edges failing the strict HTLC test. No
   * vertex is hidden.
   */
  method UpdateFeesAndFilter(b: Built, fee: array<real>, txSat: nat, offsets: seq<real>) returns (view: View)
    requires Consistent(b)
    requires fee.Length == |b.graph.edges| == |offsets|
    requires forall i :: 0 <= i < |offsets| ==> 0.0 <= offsets[i] <= 1.0
    modifies fee
    ensures forall i :: 0 <= i < fee.Length ==> fee[i] == JitteredFee(TermsAt(b, i), txSat, offsets[i])
    ensures view == FilteredView(b, txSat)
  {
    var edgeFilter: seq<bool> := [];
    for i := 0 to |b.graph.edges|
      invariant |edgeFilter| == i
      invariant forall k :: 0 <= k < i ==> fee[k] == JitteredFee(TermsAt(b, k), txSat, offsets[k])
      invariant forall k :: 0 <= k < i ==> (edgeFilter[k] <==> PassesHtlc(TermsAt(b, k), txSat))
    {
      var t := TermsAt(b, i);
      fee[i] := JitteredFee(t, txSat, offsets[i]);
      edgeFilter := edgeFilter + [PassesHtlc(t, txSat)];
    }
    view := View(b.graph, seq(b.graph.vertexCount, _ => true), edgeFilter);
  }

  /**
   * Parallel channels share one `edge_lookup` entry, so every parallel edge
   * of a built graph carries the terms of the last active row on its
   * endpoint pair: the same HTLC verdict, and weights that differ only by
   * their offsets.
   */
  lemma ParallelEdgesTakeLastRow(channels: seq<Channel>, nodes: seq<NodeId>, i: nat, j: nat)
    requires EndpointsKnown(channels, nodes)
    requires j < |Active(channels)|
    requires forall l :: j < l < |Active(channels)| ==> Endpoints(Active(channels)[l]) != Endpoints(Active(channels)[j])
    requires i < |Active(channels)| && Endpoints(Active(channels)[i]) == Endpoints(Active(channels)[j])
    ensures Consistent(GraphOf(channels, nodes))
    ensures TermsAt(GraphOf(channels, nodes), i) == TermsOf(Active(channels)[j])
  {
    BuiltGraphIsConsistent(channels, nodes);
    LookupLastRowWins(Active(channels), j);
    EdgesRecoverActiveRows(channels, nodes, i);
  }

  /** Every graph `build_graph` produces can go through `update_fees_and_filter`. */
  lemma BuiltGraphIsConsistent(channels: seq<Channel>, nodes: seq<NodeId>)
    requires EndpointsKnown(channels, nodes)
    ensures Consistent(GraphOf(channels, nodes))
  {
    var a := Active(channels);
    var b := GraphOf(channels, nodes);
    forall e | e in b.graph.edges
      ensures e.source < b.graph.vertexCount && e.target < b.graph.vertexCount
      ensures e.source in b.vertexToId && e.target in b.vertexToId
      ensures (b.vertexToId[e.source], b.vertexToId[e.target]) in b.edgeLookup
    {
      var k :| 0 <= k < |b.graph.edges| && b.graph.edges[k] == e;
      EdgesRecoverActiveRows(channels, nodes, k);
      assert a[k] in a;
      LookupCoversRows(a);
    }
  }

  /** The HTLC filter hides no vertex. */
  lemma FilterHidesNoVertex(b: Built, txSat: nat)
    requires Consistent(b)
    ensures forall u :: 0 <= u < b.graph.vertexCount <==> u in Visible(FilteredView(b, txSat))
  {
  }

  /**
   * On a built graph the filter shows edge i exactly when the last active
   * row on the edge's endpoint pair admits the amount strictly.
   */
  lemma FilterShowsAdmittedEdges(channels: seq<Channel>, nodes: seq<NodeId>, txSat: nat, i: nat, j: nat)
    requires EndpointsKnown(channels, nodes)
    requires j < |Active(channels)|
    requires forall l :: j < l < |Active(channels)| ==> Endpoints(Active(channels)[l]) != Endpoints(Active(channels)[j])
    requires i < |Active(channels)| && Endpoints(Active(channels)[i]) == Endpoints(Active(channels)[j])
    ensures Consistent(GraphOf(channels, nodes))
    ensures Shows(FilteredView(GraphOf(channels, nodes), txSat), i) <==> HtlcAdmits(Active(channels)[j], txSat)
  {
    ParallelEdgesTakeLastRow(channels, nodes, i, j);
    var b := GraphOf(channels, nodes);
    var v := FilteredView(b, txSat);
    EdgesRecoverActiveRows(channels, nodes, i);
    assert v.ekeep[i] == PassesHtlc(TermsAt(b, i), txSat);
    StoredTermsAgreeWithRow(Active(channels)[j], txSat, 0.0);
  }

  // ---------------------------------------------------------------------------
  // largest_scc_subgraph
  // ---------------------------------------------------------------------------

  /** The vertices a view shows. */
  function Visible(v: View): set<Vertex>
    requires ViewOk(v)
  {
    set u | 0 <= u < v.graph.vertexCount && v.vkeep[u]
  }

  /** The (source, target) pairs of the edges a view shows. */
  function ShownPairs(v: View): set<(Vertex, Vertex)>
    requires ViewOk(v)
  {
    set i | 0 <= i < |v.graph.edges| && Shows(v, i) :: (v.graph.edges[i].source, v.graph.edges[i].target)
  }

  /**
   * What `label_components(g, directed=True)` promises of its labels: two
   * shown vertices share a label exactly when each reaches the other.
   */
  predicate SccLabelling(v: View, labels: seq<nat>)
    requires ViewOk(v)
  {
    && |labels| == v.graph.vertexCount
    && forall u, w :: u in Visible(v) && w in Visible(v) ==>
         (labels[u] == labels[w] <==> Reach.Reaches(ShownPairs(v), u, w) && Reach.Reaches(ShownPairs(v), w, u))
  }

  /** The shown vertices labelled `l`. */
  function LabelClass(v: View, labels: seq<nat>, l: nat): set<Vertex>
    requires ViewOk(v) && |labels| == v.graph.vertexCount
  {
    set u | u in Visible(v) && labels[u] == l
  }

  /** The shown vertices below `n` labelled `l`. */
  function LabelClassBelow(v: View, labels: seq<nat>, l: nat, n: nat): set<Vertex>
    requires ViewOk(v) && |labels| == v.graph.vertexCount
  {
    set u | u in Visible(v) && u < n && labels[u] == l
  }

  /**
   * One more than the largest label among the shown vertices below `n`, or 0
   * when there is none: the length of the histogram.
   */
  function LabelBound(v: View, labels: seq<nat>, n: nat): (bound: nat)
    requires ViewOk(v) && |labels| == v.graph.vertexCount && n <= v.graph.vertexCount
    ensures forall u :: u in Visible(v) && u < n ==> labels[u] < bound
    ensures bound == 0 <==> forall u :: u in Visible(v) ==> u >= n
    ensures bound > 0 ==> exists u :: u in Visible(v) && u < n && labels[u] == bound - 1
  {
    if n == 0 then 0
    else
      var b := LabelBound(v, labels, n - 1);
      if v.vkeep[n - 1] then
        assert n - 1 in Visible(v);
        if labels[n - 1] + 1 > b then labels[n - 1] + 1 else b
      else b
  }

  /** The histogram `label_components` returns: per label, how many shown vertices carry it. */
  function Hist(v: View, labels: seq<nat>): seq<nat>
    requires ViewOk(v) && |labels| == v.graph.vertexCount
  {
    seq(LabelBound(v, labels, v.graph.vertexCount), l requires 0 <= l => |LabelClass(v, labels, l)|)
  }

  /** Counts the shown vertices per label, growing the histogram to the largest label seen. */
  method Histogram(v: View, labels: seq<nat>) returns (hist: seq<nat>)
    requires ViewOk(v) && |labels| == v.graph.vertexCount
    ensures hist == Hist(v, labels)
  {
    hist := [];
    for u := 0 to v.graph.vertexCount
      invariant |hist| == LabelBound(v, labels, u)
      invariant forall l :: 0 <= l < |hist| ==> hist[l] == |LabelClassBelow(v, labels, l, u)|
    {
      if v.vkeep[u] {
        var l := labels[u];
        if l >= |hist| {
          ghost var short := |hist|;
          hist := hist + seq(l + 1 - |hist|, _ => 0);
          forall m | short <= m < |hist|
            ensures hist[m] == |LabelClassBelow(v, labels, m, u)|
          {
            ClassBelowBeyondBound(v, labels, m, u);
          }
        }
        hist := hist[l := hist[l] + 1];
      }
      forall m | 0 <= m < |hist|
        ensures hist[m] == |LabelClassBelow(v, labels, m, u + 1)|
      {
        ClassBelowStep(v, labels, m, u);
      }
    }
    forall l | 0 <= l < |hist|
      ensures LabelClassBelow(v, labels, l, v.graph.vertexCount) == LabelClass(v, labels, l)
    {
    }
  }

  /** No shown vertex below `u` carries a label at or past the bound. */
  lemma ClassBelowBeyondBound(v: View, labels: seq<nat>, m: nat, u: nat)
    requires ViewOk(v) && |labels| == v.graph.vertexCount && u <= v.graph.vertexCount
    requires m >= LabelBound(v, labels, u)
    ensures LabelClassBelow(v, labels, m, u) == {}
  {
  }

  /** Moving the bound past vertex `u` adds `u` to its own label's class and nothing else. */
  lemma ClassBelowStep(v: View, labels: seq<nat>, m: nat, u: nat)
    requires ViewOk(v) && |labels| == v.graph.vertexCount && u < v.graph.vertexCount
    ensures |LabelClassBelow(v, labels, m, u + 1)|
      == |LabelClassBelow(v, labels, m, u)| + (if v.vkeep[u] && labels[u] == m then 1 else 0)
  {
    if v.vkeep[u] && labels[u] == m {
      assert LabelClassBelow(v, labels, m, u + 1) == LabelClassBelow(v, labels, m, u) + {u};
    } else {
      assert LabelClassBelow(v, labels, m, u + 1) == LabelClassBelow(v, labels, m, u);
    }
  }

  /** `b` is numpy's `argmax`: a maximal entry, and the first one. */
  predicate IsFirstArgMax(h: seq<nat>, b: nat)
  {
    && b < |h|
    && (forall j :: 0 <= j < |h| ==> h[j] <= h[b])
    && (forall j :: 0 <= j < b ==> h[j] < h[b])
  }

  /** At most one index is the first maximum. */
  lemma FirstArgMaxUnique(h: seq<nat>, b: nat, c: nat)
    requires IsFirstArgMax(h, b) && IsFirstArgMax(h, c)
    ensures b == c
  {
    assert h[b] == h[c];
  }

  /** `hist.argmax()` on a non-empty histogram. */
  method ArgMax(h: seq<nat>) returns (b: nat)
    requires |h| > 0
    ensures IsFirstArgMax(h, b)
  {
    b := 0;
    for i := 1 to |h|
      invariant b < i
      invariant forall j :: 0 <= j < i ==> h[j] <= h[b]
      invariant forall j :: 0 <= j < b ==> h[j] < h[b]
    {
      if h[i] > h[b] {
        b := i;
      }
    }
  }

  /**
   * `largest_scc_subgraph`: keep the shown vertices whose label is the first
   * maximum of the histogram; edges keep their mask. An empty view has an
   * empty histogram, whose `argmax` raises ValueError.
   */
  method LargestSccSubgraph(v: View, labels: seq<nat>) returns (r: Result<View, string>)
    requires ViewOk(v) && |labels| == v.graph.vertexCount
    ensures r.Failure? <==> Visible(v) == {}
    ensures r.Success? ==> IsLargestSccView(v, labels, r.value)
  {
    var hist := Histogram(v, labels);
    if |hist| == 0 {
      return Failure("ValueError: attempt to get argmax of an empty sequence");
    }
    var largest := ArgMax(hist);
    var vfilt: seq<bool> := [];
    for u := 0 to v.graph.vertexCount
      invariant |vfilt| == u
      invariant forall x :: 0 <= x < u ==> (vfilt[x] <==> v.vkeep[x] && labels[x] == largest)
    {
      vfilt := vfilt + [v.vkeep[u] && labels[u] == largest];
    }
    forall u | 0 <= u < v.graph.vertexCount
      ensures labels[u] == largest <==> IsFirstArgMax(hist, labels[u])
    {
      if IsFirstArgMax(hist, labels[u]) {
        FirstArgMaxUnique(hist, largest, labels[u]);
      }
    }
    ArgMaxClassNonEmpty(v, labels, largest);
    var w :| w in LabelClass(v, labels, largest);
    assert w in Visible(View(v.graph, vfilt, v.ekeep));
    r := Success(View(v.graph, vfilt, v.ekeep));
  }

  /**
   * The view `largest_scc_subgraph` returns: the same graph and edge mask,
   * showing exactly the shown vertices whose label is the first maximum of
   * the histogram, and at least one of them.
   */
  predicate IsLargestSccView(v: View, labels: seq<nat>, w: View)
    requires ViewOk(v) && |labels| == v.graph.vertexCount
  {
    && ViewOk(w) && w.graph == v.graph && w.ekeep == v.ekeep
    && Visible(w) != {}
    && forall u :: 0 <= u < v.graph.vertexCount ==>
         (w.vkeep[u] <==> v.vkeep[u] && IsFirstArgMax(Hist(v, labels), labels[u]))
  }

  /**
   * With a genuine SCC labelling, the kept vertices form one strongly
   * connected component, and no component of the view is larger: the kept
   * vertex count is the largest component size.
   */
  lemma LargestSccIsMaximal(v: View, labels: seq<nat>, b: nat)
    requires ViewOk(v) && SccLabelling(v, labels)
    requires IsFirstArgMax(Hist(v, labels), b)
    ensures LabelClass(v, labels, b) != {}
    ensures forall u :: u in LabelClass(v, labels, b) ==>
      LabelClass(v, labels, b) == Reach.SccOf(ShownPairs(v), Visible(v), u)
    ensures forall w :: w in Visible(v) ==>
      |Reach.SccOf(ShownPairs(v), Visible(v), w)| <= |LabelClass(v, labels, b)|
  {
    var h := Hist(v, labels);
    ArgMaxClassNonEmpty(v, labels, b);
    forall u | u in LabelClass(v, labels, b)
      ensures LabelClass(v, labels, b) == Reach.SccOf(ShownPairs(v), Visible(v), u)
    {
      SccClassIsLabelClass(v, labels, u);
    }
    forall w | w in Visible(v)
      ensures |Reach.SccOf(ShownPairs(v), Visible(v), w)| <= |LabelClass(v, labels, b)|
    {
      SccClassIsLabelClass(v, labels, w);
      assert labels[w] < |h|;
      assert h[labels[w]] <= h[b];
    }
  }

  /**
   * With a genuine SCC labelling, the view `largest_scc_subgraph` returns
   * shows one strongly connected component of the view that no other
   * component outgrows.
   */
  lemma LargestSccViewIsLargestScc(v: View, labels: seq<nat>, w: View)
    requires ViewOk(v) && SccLabelling(v, labels) && IsLargestSccView(v, labels, w)
    ensures LargestComponent(v, Visible(w))
  {
    var u0 :| u0 in Visible(w);
    var b := labels[u0];
    assert IsFirstArgMax(Hist(v, labels), b);
    forall u | 0 <= u < v.graph.vertexCount
      ensures u in Visible(w) <==> u in LabelClass(v, labels, b)
    {
      if IsFirstArgMax(Hist(v, labels), labels[u]) {
        FirstArgMaxUnique(Hist(v, labels), b, labels[u]);
      }
    }
    assert Visible(w) == LabelClass(v, labels, b);
    LargestSccIsMaximal(v, labels, b);
  }

  /** The first maximum of the histogram labels at least one shown vertex. */
  lemma ArgMaxClassNonEmpty(v: View, labels: seq<nat>, b: nat)
    requires ViewOk(v) && |labels| == v.graph.vertexCount
    requires IsFirstArgMax(Hist(v, labels), b)
    ensures LabelClass(v, labels, b) != {}
  {
    var h := Hist(v, labels);
    var u0 :| u0 in Visible(v) && labels[u0] == |h| - 1;
    assert u0 in LabelClass(v, labels, |h| - 1);
    assert h[|h| - 1] <= h[b];
  }

  /** Under an SCC labelling, a vertex's component is its label class. */
  lemma SccClassIsLabelClass(v: View, labels: seq<nat>, w: Vertex)
    requires ViewOk(v) && SccLabelling(v, labels) && w in Visible(v)
    ensures LabelClass(v, labels, labels[w]) == Reach.SccOf(ShownPairs(v), Visible(v), w)
  {
  }

  // ---------------------------------------------------------------------------
  // get_neighbors_bfs, get_test_subgraph
  // ---------------------------------------------------------------------------

  /** The lowest-numbered shown vertex at or after `i`. */
  function FirstVisibleFrom(v: View, i: nat): (u: Vertex)
    requires ViewOk(v) && exists w :: w in Visible(v) && w >= i
    ensures u in Visible(v) && u >= i
    ensures forall w :: w in Visible(v) && w >= i ==> u <= w
    decreases v.graph.vertexCount - i
  {
    if v.vkeep[i] then i else FirstVisibleFrom(v, i + 1)
  }

  /** `list(g.vertices())[0]`: the lowest-numbered shown vertex. */
  function FirstVisible(v: View): (u: Vertex)
    requires ViewOk(v) && Visible(v) != {}
    ensures u in Visible(v) && forall w :: w in Visible(v) ==> u <= w
  {
    FirstVisibleFrom(v, 0)
  }

  /**
   * What the BFS keeps true of its state: discovered vertices are shown;
   * every one but the start was discovered through a shown edge `via[x]`
   * from a vertex one step nearer; `visited` holds those recorded at most
   * `kHops` away.
   */
  ghost predicate BfsState(v: View, start: Vertex, kHops: nat, distance: map<Vertex, nat>,
                           visited: set<Vertex>, via: map<Vertex, nat>)
    requires ViewOk(v)
  {
    && distance.Keys <= Visible(v)
    && start in distance && distance[start] == 0
    && (forall x :: x in distance && x != start ==> TreeEdge(v, distance, via, x))
    && visited == set x | x in distance && distance[x] <= kHops
  }

  /** `x` was discovered through the shown edge `via[x]`, one step further than its source. */
  ghost predicate TreeEdge(v: View, distance: map<Vertex, nat>, via: map<Vertex, nat>, x: Vertex)
    requires ViewOk(v) && x in distance
  {
    && x in via && via[x] < |v.graph.edges| && Shows(v, via[x])
    && v.graph.edges[via[x]].target == x
    && v.graph.edges[via[x]].source in distance
    && distance[x] == distance[v.graph.edges[via[x]].source] + 1
  }

  /**
   * `bfs_search` from `start` with the source's `tree_edge` visitor: every
   * vertex the search discovers gets a distance one more than the vertex it
   * was discovered from, and joins `visited` when that distance is at most
   * `kHops`. The search explores everything reachable from the start.
   */
  method BfsSearch(v: View, start: Vertex, kHops: nat) returns (visited: set<Vertex>, distance: map<Vertex, nat>)
    requires ViewOk(v) && start in Visible(v)
    ensures distance.Keys == Reach.Closure(ShownPairs(v), {start})
    ensures start in distance && distance[start] == 0
    ensures forall x :: x in distance ==> x in Reach.Within(ShownPairs(v), {start}, distance[x])
    ensures visited == set x | x in distance && distance[x] <= kHops
  {
    distance := map[start := 0];
    visited := {start};
    var queue := [start];
    ghost var via: map<Vertex, nat> := map[];
    ghost var done: set<Vertex> := {};
    while queue != []
      invariant BfsState(v, start, kHops, distance, visited, via)
      invariant forall x :: x in queue ==> x in distance
      invariant forall x :: x in distance ==> x in done || x in queue
      invariant forall x :: x in done ==> x in distance
      invariant forall x :: x in done ==> Explored(v, distance, x)
      decreases Visible(v) - distance.Keys, |queue|
    {
      var u, rest := queue[0], queue[1..];
      assert forall x :: x in queue ==> x == u || x in rest;
      ghost var before := distance;
      ghost var found := distance.Keys;
      distance, visited, queue, via := TreeEdges(v, start, kHops, u, distance, visited, rest, via);
      forall x | x in done
        ensures Explored(v, distance, x)
      {
        ExploredGrows(v, before, distance, x);
      }
      done := done + {u};
      assert found <= distance.Keys <= Visible(v);
      assert distance.Keys == found || Visible(v) - distance.Keys < Visible(v) - found;
    }
    BfsFinished(v, start, kHops, distance, visited, via);
  }

  /**
   * Once every discovered vertex has had its out-edges examined, the
   * discovered vertices are exactly those reachable from the start, each
   * within its recorded distance.
   */
  lemma BfsFinished(v: View, start: Vertex, kHops: nat, distance: map<Vertex, nat>,
                    visited: set<Vertex>, via: map<Vertex, nat>)
    requires ViewOk(v) && BfsState(v, start, kHops, distance, visited, via)
    requires forall x :: x in distance ==> Explored(v, distance, x)
    ensures distance.Keys == Reach.Closure(ShownPairs(v), {start})
    ensures forall x :: x in distance ==> x in Reach.Within(ShownPairs(v), {start}, distance[x])
  {
    forall x | x in distance
      ensures x in Reach.Within(ShownPairs(v), {start}, distance[x])
      ensures x in Reach.Closure(ShownPairs(v), {start})
    {
      TreeDepth(v, start, kHops, distance, visited, via, x);
      Reach.WithinClosure(ShownPairs(v), {start}, distance[x]);
    }
    forall w | w in Reach.Step(ShownPairs(v), distance.Keys)
      ensures w in distance
    {
      var p :| p in ShownPairs(v) && p.0 in distance && p.1 == w;
      var i :| 0 <= i < |v.graph.edges| && Shows(v, i) && p == (v.graph.edges[i].source, v.graph.edges[i].target);
    }
    Reach.ClosureLeast(ShownPairs(v), {start}, distance.Keys);
  }

  /** Every shown out-edge of `x` leads to a discovered vertex. */
  ghost predicate Explored(v: View, distance: map<Vertex, nat>, x: Vertex)
    requires ViewOk(v)
  {
    forall i :: 0 <= i < |v.graph.edges| && Shows(v, i) && v.graph.edges[i].source == x ==>
      v.graph.edges[i].target in distance
  }

  /** Discovering more vertices keeps an explored vertex explored. */
  lemma ExploredGrows(v: View, before: map<Vertex, nat>, after: map<Vertex, nat>, x: Vertex)
    requires ViewOk(v) && Explored(v, before, x) && before.Keys <= after.Keys
    ensures Explored(v, after, x)
  {
  }

  /**
   * One BFS step: the shown out-edges of `u`, in edge order, each one to an
   * undiscovered vertex being a tree edge.
   */
  method TreeEdges(v: View, start: Vertex, kHops: nat, u: Vertex,
                   distance0: map<Vertex, nat>, visited0: set<Vertex>, queue0: seq<Vertex>, ghost via0: map<Vertex, nat>)
    returns (distance: map<Vertex, nat>, visited: set<Vertex>, queue: seq<Vertex>, ghost via: map<Vertex, nat>)
    requires ViewOk(v) && BfsState(v, start, kHops, distance0, visited0, via0) && u in distance0
    requires forall x :: x in queue0 ==> x in distance0
    ensures BfsState(v, start, kHops, distance, visited, via)
    ensures forall x :: x in distance0 ==> x in distance
    ensures forall x :: x in queue ==> x in distance
    ensures forall x :: x in queue0 ==> x in queue
    ensures forall x :: x in distance && x !in distance0 ==> x in queue
    ensures Explored(v, distance, u)
    ensures distance.Keys == distance0.Keys ==> queue == queue0
  {
    distance, visited, queue, via := distance0, visited0, queue0, via0;
    for i := 0 to |v.graph.edges|
      invariant BfsState(v, start, kHops, distance, visited, via)
      invariant u in distance && forall x :: x in distance0 ==> x in distance
      invariant forall x :: x in queue ==> x in distance
      invariant forall x :: x in queue0 ==> x in queue
      invariant forall x :: x in distance && x !in distance0 ==> x in queue
      invariant forall j :: 0 <= j < i && Shows(v, j) && v.graph.edges[j].source == u ==> v.graph.edges[j].target in distance
      invariant distance.Keys == distance0.Keys ==> queue == queue0
    {
      var e := v.graph.edges[i];
      if Shows(v, i) && e.source == u && e.target !in distance {
        DiscoverKeepsState(v, start, kHops, distance, visited, via, u, i);
        distance := distance[e.target := distance[u] + 1];
        via := via[e.target := i];
        if distance[e.target] <= kHops {
          visited := visited + {e.target};
        }
        queue := queue + [e.target];
      }
    }
  }

  /** A tree edge out of a discovered vertex keeps the BFS state. */
  lemma DiscoverKeepsState(v: View, start: Vertex, kHops: nat, distance: map<Vertex, nat>,
                           visited: set<Vertex>, via: map<Vertex, nat>, u: Vertex, i: nat)
    requires ViewOk(v) && BfsState(v, start, kHops, distance, visited, via) && u in distance
    requires i < |v.graph.edges| && Shows(v, i) && v.graph.edges[i].source == u
    requires v.graph.edges[i].target !in distance
    ensures var t := v.graph.edges[i].target;
      BfsState(v, start, kHops, distance[t := distance[u] + 1],
        if distance[u] + 1 <= kHops then visited + {t} else visited, via[t := i])
  {
    var e := v.graph.edges[i];
    assert e in v.graph.edges;
    var d := distance[e.target := distance[u] + 1];
    var w := via[e.target := i];
    forall x | x in d && x != start
      ensures TreeEdge(v, d, w, x)
    {
      if x != e.target {
        assert TreeEdge(v, distance, via, x);
      }
    }
    var vis := if distance[u] + 1 <= kHops then visited + {e.target} else visited;
    assert vis == set x | x in d && d[x] <= kHops;
  }

  /** Following tree edges back to the start shows every discovered vertex is within its distance. */
  lemma TreeDepth(v: View, start: Vertex, kHops: nat, distance: map<Vertex, nat>,
                  visited: set<Vertex>, via: map<Vertex, nat>, x: Vertex)
    requires ViewOk(v) && BfsState(v, start, kHops, distance, visited, via) && x in distance
    ensures x in Reach.Within(ShownPairs(v), {start}, distance[x])
    decreases distance[x]
  {
    if x != start {
      assert TreeEdge(v, distance, via, x);
      var e := v.graph.edges[via[x]];
      TreeDepth(v, start, kHops, distance, visited, via, e.source);
      assert (e.source, x) in ShownPairs(v);
    }
  }

  /** Every vertex the BFS puts in `visited` is within `kHops` shown edges of the start. */
  lemma BfsVisitedWithinHops(v: View, start: Vertex, kHops: nat, visited: set<Vertex>, distance: map<Vertex, nat>)
    requires ViewOk(v)
    requires forall x :: x in distance ==> x in Reach.Within(ShownPairs(v), {start}, distance[x])
    requires visited == set x | x in distance && distance[x] <= kHops
    ensures visited <= Reach.Within(ShownPairs(v), {start}, kHops)
  {
    forall x | x in visited
      ensures x in Reach.Within(ShownPairs(v), {start}, kHops)
    {
      Reach.WithinMonotone(ShownPairs(v), {start}, distance[x], kHops);
    }
  }

  /**
   * `list(visited)[:max_vertices]`: Python does not specify a set's
   * iteration order, so any `limit` of the elements may be taken.
   */
  method TakeAtMost(s: set<Vertex>, limit: Option<nat>) returns (t: set<Vertex>)
    ensures t <= s
    ensures limit.None? ==> t == s
    ensures limit.Some? ==> |t| == if |s| <= limit.value then |s| else limit.value
  {
    if limit.None? {
      return s;
    }
    t := {};
    var rest := s;
    while rest != {} && |t| < limit.value
      invariant t <= s && rest == s - t
      invariant |s| == |t| + |rest|
      invariant |t| <= limit.value
      decreases rest
    {
      var x :| x in rest;
      t := t + {x};
      rest := rest - {x};
    }
  }

  /** A set of `m` elements has subsets of every size up to `m`. */
  lemma {:induction false} SubsetOfSize(s: set<Vertex>, n: nat)
    requires n <= |s|
    ensures exists t :: t <= s && |t| == n
  {
    if n > 0 {
      var x :| x in s;
      SubsetOfSize(s - {x}, n - 1);
      var t :| t <= s - {x} && |t| == n - 1;
      assert t + {x} <= s && |t + {x}| == n;
    } else {
      assert {} <= s;
    }
  }

  /**
   * Truncation can lose the start vertex: when the BFS visits more than
   * `limit` vertices, some admissible truncation leaves the start out.
   */
  lemma TruncationMayDropStart(s: set<Vertex>, start: Vertex, limit: nat)
    requires start in s && limit < |s|
    ensures exists t :: t <= s && |t| == limit && start !in t
  {
    SubsetOfSize(s - {start}, limit);
  }

  /** The vertex the BFS starts from: the one given, else the lowest shown vertex. */
  function StartOf(v: View, start: Option<Vertex>): Vertex
    requires ViewOk(v) && (start.Some? || Visible(v) != {})
  {
    if start.Some? then start.value else FirstVisible(v)
  }

  /**
   * `get_neighbors_bfs`: BFS from `start` (the lowest shown vertex when none
   * is given; IndexError when the view shows none), then truncation.
   */
  method GetNeighborsBfs(v: View, start: Option<Vertex>, kHops: nat, maxVertices: Option<nat>)
    returns (r: Result<set<Vertex>, string>)
    requires ViewOk(v)
    requires start.Some? ==> start.value in Visible(v)
    ensures r.Failure? <==> start.None? && Visible(v) == {}
    ensures r.Success? ==> r.value <= Reach.Within(ShownPairs(v), {StartOf(v, start)}, kHops)
    ensures r.Success? && maxVertices.Some? ==> |r.value| <= maxVertices.value
    ensures r.Success? && maxVertices.None? ==> StartOf(v, start) in r.value
  {
    if start.None? && Visible(v) == {} {
      return Failure("IndexError: list index out of range");
    }
    var s0 := StartOf(v, start);
    var visited, distance := BfsSearch(v, s0, kHops);
    BfsVisitedWithinHops(v, s0, kHops, visited, distance);
    assert s0 in visited;
    var selected := TakeAtMost(visited, maxVertices);
    assert selected <= Reach.Within(ShownPairs(v), {s0}, kHops);
    r := Success(selected);
  }

  /**
   * A view `get_test_subgraph` may return: the same graph and edge mask,
   * showing at most `maxVertices` vertices, all within `kHops` shown edges
   * of the lowest shown vertex.
   */
  predicate IsTestCut(v: View, w: View, kHops: nat, maxVertices: nat)
    requires ViewOk(v)
  {
    && Visible(v) != {}
    && ViewOk(w) && w.graph == v.graph && w.ekeep == v.ekeep
    && Visible(w) <= Reach.Within(ShownPairs(v), {FirstVisible(v)}, kHops)
    && |Visible(w)| <= maxVertices
  }

  /**
   * `get_test_subgraph`: show only the vertices `get_neighbors_bfs` returns
   * from the lowest shown vertex; the edge mask is inherited.
   */
  method GetTestSubgraph(v: View, kHops: nat, maxVertices: nat) returns (r: Result<View, string>)
    requires ViewOk(v)
    ensures r.Failure? <==> Visible(v) == {}
    ensures r.Success? ==> IsTestCut(v, r.value, kHops, maxVertices)
  {
    var sel := GetNeighborsBfs(v, None, kHops, Some(maxVertices));
    if sel.Failure? {
      return Failure(sel.error);
    }
    var keep := sel.value;
    var vfilt: seq<bool> := [];
    for u := 0 to v.graph.vertexCount
      invariant |vfilt| == u
      invariant forall x :: 0 <= x < u ==> (vfilt[x] <==> x in keep)
    {
      vfilt := vfilt + [u in keep];
    }
    var w := View(v.graph, vfilt, v.ekeep);
    var s0 := FirstVisible(v);
    assert keep <= Reach.Within(ShownPairs(v), {s0}, kHops);
    Reach.WithinClosure(ShownPairs(v), {s0}, kHops);
    ShownStaysVisible(v, s0);
    assert keep <= Visible(v);
    assert Visible(w) == keep;
    r := Success(w);
  }

  /** Shown edges join shown vertices, so everything reachable from a shown vertex is shown. */
  lemma ShownStaysVisible(v: View, s: Vertex)
    requires ViewOk(v) && s in Visible(v)
    ensures Reach.Closure(ShownPairs(v), {s}) <= Visible(v)
  {
    forall w | w in Reach.Step(ShownPairs(v), Visible(v))
      ensures w in Visible(v)
    {
      var p :| p in ShownPairs(v) && p.0 in Visible(v) && p.1 == w;
      var i :| 0 <= i < |v.graph.edges| && Shows(v, i) && p == (v.graph.edges[i].source, v.graph.edges[i].target);
      assert v.graph.edges[i] in v.graph.edges;
    }
    Reach.ClosureLeast(ShownPairs(v), {s}, Visible(v));
  }

  // ---------------------------------------------------------------------------
  // process_node_betweenness, process_edge_betweenness, run_pipeline
  // ---------------------------------------------------------------------------

  /** One row of the node scores frame. */
  datatype NodeScore = NodeScore(nodeId: NodeId, share: real, rank: nat)

  /** One row of `df` in `process_edge_betweenness` before the merge: a shown edge's endpoint ids and its share. */
  datatype EdgeShare = EdgeShare(source: NodeId, destination: NodeId, share: real)

  /**
   * One row after the merge with the active channel rows: the channel row
   * the edge was paired with, or None when no active row has its endpoints
   * and the channel columns are missing.
   */
  datatype Merged = Merged(source: NodeId, destination: NodeId, share: real, channel: Option<Channel>)

  /** One row of the edge scores frame: a merged row and its rank among all merged rows. */
  datatype EdgeScore = EdgeScore(source: NodeId, destination: NodeId, share: real, channel: Option<Channel>, rank: nat)

  /** The shown vertices below `n`, in increasing order: `g_sub.vertices()`. */
  function VisibleOrder(v: View, n: nat): (vs: seq<Vertex>)
    requires ViewOk(v) && n <= v.graph.vertexCount
    ensures forall k :: 0 <= k < |vs| ==> vs[k] in Visible(v) && vs[k] < n
    ensures forall u :: u in Visible(v) && u < n ==> u in vs
    ensures forall k, l :: 0 <= k < l < |vs| ==> vs[k] < vs[l]
  {
    if n == 0 then []
    else VisibleOrder(v, n - 1) + (if v.vkeep[n - 1] then [n - 1] else [])
  }

  /** The indices of the shown edges below `m`, in increasing order. */
  function ShownOrder(v: View, m: nat): (ids: seq<nat>)
    requires ViewOk(v) && m <= |v.graph.edges|
    ensures forall k :: 0 <= k < |ids| ==> ids[k] < m && Shows(v, ids[k])
    ensures forall i :: 0 <= i < m && Shows(v, i) ==> i in ids
    ensures forall k, l :: 0 <= k < l < |ids| ==> ids[k] < ids[l]
  {
    if m == 0 then []
    else ShownOrder(v, m - 1) + (if Shows(v, m - 1) then [m - 1] else [])
  }

  /** The node shares in row order. */
  function NodeShares(v: View, vbetw: seq<real>): seq<real>
    requires ViewOk(v) && |vbetw| == v.graph.vertexCount
  {
    var vs := VisibleOrder(v, v.graph.vertexCount);
    seq(|vs|, k requires 0 <= k < |vs| => vbetw[vs[k]])
  }


  /** Whether `vertex_to_id` has an id for every shown vertex. */
  predicate VerticesKnown(v: View, vertexToId: map<Vertex, NodeId>)
    requires ViewOk(v)
  {
    forall u :: u in Visible(v) ==> u in vertexToId
  }

  /**
   * The node scores frame: one row per shown vertex, in vertex order, with
   * its id, its share and its "min" descending rank among the shown
   * vertices' shares. A vertex without an id raises KeyError, which gives an
   * empty frame.
   */
  function NodeScoresOf(v: View, vbetw: seq<real>, vertexToId: map<Vertex, NodeId>): seq<NodeScore>
    requires ViewOk(v) && |vbetw| == v.graph.vertexCount
  {
    var vs := VisibleOrder(v, v.graph.vertexCount);
    if VerticesKnown(v, vertexToId) then
      seq(|vs|, k requires 0 <= k < |vs| =>
        NodeScore(vertexToId[vs[k]], vbetw[vs[k]], Ranking.MinRank(NodeShares(v, vbetw), vbetw[vs[k]])))
    else []
  }

  /**
   * The node ranks order the shown vertices by share: one row is ahead of
   * another exactly when its share is larger, ties share a rank, and every
   * rank lies between 1 and the number of shown vertices.
   */
  lemma NodeScoresRanked(v: View, vbetw: seq<real>, vertexToId: map<Vertex, NodeId>, i: nat, j: nat)
    requires ViewOk(v) && |vbetw| == v.graph.vertexCount
    requires i < |NodeScoresOf(v, vbetw, vertexToId)| && j < |NodeScoresOf(v, vbetw, vertexToId)|
    ensures var rows := NodeScoresOf(v, vbetw, vertexToId);
      && 1 <= rows[i].rank <= |rows|
      && (rows[j].rank < rows[i].rank <==> rows[j].share > rows[i].share)
  {
    var s := NodeShares(v, vbetw);
    Ranking.RankBounds(s, i);
    Ranking.RankOrder(s, i, j);
  }

  /**
   * `process_node_betweenness`: one row per shown vertex with its id, its
   * share and its rank; KeyError gives an empty frame.
   */
  method ProcessNodeBetweenness(v: View, vbetw: seq<real>, vertexToId: map<Vertex, NodeId>) returns (rows: seq<NodeScore>)
    requires ViewOk(v) && |vbetw| == v.graph.vertexCount
    ensures rows == NodeScoresOf(v, vbetw, vertexToId)
  {
    var vs := VisibleOrder(v, v.graph.vertexCount);
    var ids: seq<NodeId> := [];
    for k := 0 to |vs|
      invariant |ids| == k
      invariant forall l :: 0 <= l < k ==> vs[l] in vertexToId && ids[l] == vertexToId[vs[l]]
    {
      if vs[k] !in vertexToId {
        return [];
      }
      ids := ids + [vertexToId[vs[k]]];
    }
    var shares := NodeShares(v, vbetw);
    var ranks := Ranking.RankMinDescending(shares);
    rows := seq(|vs|, k requires 0 <= k < |vs| => NodeScore(ids[k], shares[k], ranks[k]));
  }

  /** Whether `vertex_to_id` has an id for both ends of every shown edge. */
  predicate EndsKnown(v: View, vertexToId: map<Vertex, NodeId>)
    requires ViewOk(v)
  {
    forall i :: 0 <= i < |v.graph.edges| && Shows(v, i) ==>
      v.graph.edges[i].source in vertexToId && v.graph.edges[i].target in vertexToId
  }

  /** `df` before the merge: the shown edges in edge order, with their endpoint ids and shares. */
  function EdgeShareRows(v: View, ebetw: seq<real>, vertexToId: map<Vertex, NodeId>): seq<EdgeShare>
    requires ViewOk(v) && |ebetw| == |v.graph.edges| && EndsKnown(v, vertexToId)
  {
    var ids := ShownOrder(v, |v.graph.edges|);
    seq(|ids|, k requires 0 <= k < |ids| =>
      EdgeShare(vertexToId[v.graph.edges[ids[k]].source], vertexToId[v.graph.edges[ids[k]].target], ebetw[ids[k]]))
  }

  /** The merge key of a row of `df`. */
  function Key(x: EdgeShare): (NodeId, NodeId)
  {
    (x.source, x.destination)
  }

  /** The rows of `right` whose (source, destination) is `key`, in order. */
  function RowsWithKey(right: seq<Channel>, key: (NodeId, NodeId)): (ms: seq<Channel>)
    ensures forall c :: c in ms <==> c in right && Endpoints(c) == key
  {
    if right == [] then []
    else
      var last := right[|right| - 1];
      assert right == right[..|right| - 1] + [last];
      RowsWithKey(right[..|right| - 1], key) + (if Endpoints(last) == key then [last] else [])
  }

  /** The merged rows one row of `df` becomes. */
  function MergeRow(x: EdgeShare, right: seq<Channel>): seq<Merged>
  {
    var ms := RowsWithKey(right, Key(x));
    if ms == [] then [Merged(x.source, x.destination, x.share, None)]
    else seq(|ms|, j requires 0 <= j < |ms| => Merged(x.source, x.destination, x.share, Some(ms[j])))
  }

  /**
   * `pd.merge(df, right, on=['source', 'destination'], how='left')`: the
   * rows of `df` in order, each repeated once per row of `right` with the
   * same key, in `right`'s order, or kept once with missing right-hand
   * columns when no row of `right` has its key.
   */
  function LeftMerge(left: seq<EdgeShare>, right: seq<Channel>): seq<Merged>
  {
    if left == [] then []
    else LeftMerge(left[..|left| - 1], right) + MergeRow(left[|left| - 1], right)
  }

  /**
   * Every merged row is a row of `df` paired with a row of `right` on the
   * same endpoints, or left unpaired exactly because no row of `right` has
   * them.
   */
  lemma {:induction false} LeftMergeRowsMatch(left: seq<EdgeShare>, right: seq<Channel>)
    ensures forall m :: m in LeftMerge(left, right) ==>
      && EdgeShare(m.source, m.destination, m.share) in left
      && (m.channel.Some? ==> m.channel.value in right && Endpoints(m.channel.value) == (m.source, m.destination))
      && (m.channel.None? ==> forall c :: c in right ==> Endpoints(c) != (m.source, m.destination))
  {
    if left != [] {
      var init, x := left[..|left| - 1], left[|left| - 1];
      LeftMergeRowsMatch(init, right);
      assert left == init + [x];
      var ms := RowsWithKey(right, Key(x));
      forall m | m in MergeRow(x, right)
        ensures m.channel.Some? ==> m.channel.value in ms
      {
        if ms != [] {
          var j :| 0 <= j < |ms| && MergeRow(x, right)[j] == m;
        }
      }
    }
  }

  /**
   * Every row of `df` survives the merge: paired with each row of `right`
   * on its endpoints, or once on its own when there is none.
   */
  lemma {:induction false} LeftMergeKeepsRows(left: seq<EdgeShare>, right: seq<Channel>, i: nat)
    requires i < |left|
    ensures forall c :: c in right && Endpoints(c) == Key(left[i]) ==>
      Merged(left[i].source, left[i].destination, left[i].share, Some(c)) in LeftMerge(left, right)
    ensures (forall c :: c in right ==> Endpoints(c) != Key(left[i])) ==>
      Merged(left[i].source, left[i].destination, left[i].share, None) in LeftMerge(left, right)
  {
    var init, x := left[..|left| - 1], left[|left| - 1];
    assert LeftMerge(left, right) == LeftMerge(init, right) + MergeRow(x, right);
    if i < |left| - 1 {
      assert left[i] == init[i];
      LeftMergeKeepsRows(init, right, i);
    } else {
      var ms := RowsWithKey(right, Key(x));
      assert |ms| == 0 || (ms[0] in right && Endpoints(ms[0]) == Key(x));
      forall c | c in right && Endpoints(c) == Key(x)
        ensures Merged(x.source, x.destination, x.share, Some(c)) in MergeRow(x, right)
      {
        var j :| 0 <= j < |ms| && ms[j] == c;
        assert MergeRow(x, right)[j] == Merged(x.source, x.destination, x.share, Some(c));
      }
      if ms == [] {
        assert MergeRow(x, right)[0] == Merged(x.source, x.destination, x.share, None);
      }
    }
  }

  /**
   * The merge never loses a row, and it adds rows exactly when some row of
   * `df` has two or more rows of `right` on its endpoints: parallel
   * channels multiply the edge rows.
   */
  lemma {:induction false} LeftMergeSize(left: seq<EdgeShare>, right: seq<Channel>)
    ensures |LeftMerge(left, right)| >= |left|
    ensures |LeftMerge(left, right)| == |left| <==> forall i :: 0 <= i < |left| ==> |RowsWithKey(right, Key(left[i]))| <= 1
  {
    if left != [] {
      LeftMergeSize(left[..|left| - 1], right);
      MergeStepSize(left, right);
      SingleMatchesSplit(left, right);
    }
  }

  /** The last row of `df` adds one merged row per match, or one on its own. */
  lemma MergeStepSize(left: seq<EdgeShare>, right: seq<Channel>)
    requires left != []
    ensures var n := |RowsWithKey(right, Key(left[|left| - 1]))|;
      |LeftMerge(left, right)| == |LeftMerge(left[..|left| - 1], right)| + if n == 0 then 1 else n
  {
  }

  /** Every row of `df` has at most one match exactly when every row before the last and the last do. */
  lemma SingleMatchesSplit(left: seq<EdgeShare>, right: seq<Channel>)
    requires left != []
    ensures var init := left[..|left| - 1];
      (forall i :: 0 <= i < |left| ==> |RowsWithKey(right, Key(left[i]))| <= 1)
      <==> ((forall i :: 0 <= i < |init| ==> |RowsWithKey(right, Key(init[i]))| <= 1)
            && |RowsWithKey(right, Key(left[|left| - 1]))| <= 1)
  {
    assert forall i :: 0 <= i < |left| - 1 ==> left[..|left| - 1][i] == left[i];
  }

  /** The shares of the merged rows, in order. */
  function MergedShares(ms: seq<Merged>): seq<real>
  {
    seq(|ms|, k requires 0 <= k < |ms| => ms[k].share)
  }

  /** `df['rank'] = df['shortest_path_share'].rank(method='min', ascending=False)` on the merged frame. */
  function RankMerged(ms: seq<Merged>): seq<EdgeScore>
  {
    seq(|ms|, k requires 0 <= k < |ms| =>
      EdgeScore(ms[k].source, ms[k].destination, ms[k].share, ms[k].channel, Ranking.MinRank(MergedShares(ms), ms[k].share)))
  }

  /**
   * The ranks are taken over every merged row: a row is ahead of another
   * exactly when its share is larger, and every rank lies between 1 and the
   * number of merged rows.
   */
  lemma MergedRanks(ms: seq<Merged>, i: nat, j: nat)
    requires i < |ms| && j < |ms|
    ensures 1 <= RankMerged(ms)[i].rank <= |ms|
    ensures RankMerged(ms)[j].rank < RankMerged(ms)[i].rank <==> ms[j].share > ms[i].share
  {
    var s := MergedShares(ms);
    Ranking.RankBounds(s, i);
    Ranking.RankOrder(s, i, j);
  }

  /**
   * Two shown edges from two parallel active channels with equal shares and
   * one other edge become five rows, and the other edge is ranked fifth
   * rather than third.
   */
  lemma ParallelChannelsMultiplyRows(ab1: Channel, ab2: Channel, cd: Channel)
    requires Endpoints(ab1) == Endpoints(ab2) != Endpoints(cd)
    ensures var a, b, c, d := ab1.source, ab1.destination, cd.source, cd.destination;
      var rows := RankMerged(LeftMerge([EdgeShare(a, b, 0.5), EdgeShare(a, b, 0.5), EdgeShare(c, d, 0.3)], [ab1, ab2, cd]));
      && |rows| == 5
      && rows[0].rank == rows[1].rank == rows[2].rank == rows[3].rank == 1
      && rows[4].rank == 5 && rows[4].channel == Some(cd)
  {
    var a, b, c, d := ab1.source, ab1.destination, cd.source, cd.destination;
    ExampleMerge(ab1, ab2, cd);
    var ms := LeftMerge([EdgeShare(a, b, 0.5), EdgeShare(a, b, 0.5), EdgeShare(c, d, 0.3)], [ab1, ab2, cd]);
    var s := MergedShares(ms);
    assert s == [0.5, 0.5, 0.5, 0.5, 0.3];
    ExampleCounts(s);
  }

  /** The merge of the example: each parallel-channel edge twice, the other edge once. */
  lemma ExampleMerge(ab1: Channel, ab2: Channel, cd: Channel)
    requires Endpoints(ab1) == Endpoints(ab2) != Endpoints(cd)
    ensures var a, b, c, d := ab1.source, ab1.destination, cd.source, cd.destination;
      LeftMerge([EdgeShare(a, b, 0.5), EdgeShare(a, b, 0.5), EdgeShare(c, d, 0.3)], [ab1, ab2, cd])
        == [Merged(a, b, 0.5, Some(ab1)), Merged(a, b, 0.5, Some(ab2)),
            Merged(a, b, 0.5, Some(ab1)), Merged(a, b, 0.5, Some(ab2)), Merged(c, d, 0.3, Some(cd))]
  {
    var a, b, c, d := ab1.source, ab1.destination, cd.source, cd.destination;
    var right := [ab1, ab2, cd];
    var x, y := EdgeShare(a, b, 0.5), EdgeShare(c, d, 0.3);
    var mx := Merged(a, b, 0.5, Some(ab1));
    var mx2 := Merged(a, b, 0.5, Some(ab2));
    var my := Merged(c, d, 0.3, Some(cd));
    ExampleRows(ab1, ab2, cd);
    var left := [x, x, y];
    assert left[..2] == [x, x] && left[..2][..1] == [x] && left[..1][..0] == [];
    assert LeftMerge(left[..1], right) == [mx, mx2];
    assert LeftMerge(left[..2], right) == [mx, mx2, mx, mx2];
  }

  /** What each row of the example's `df` becomes. */
  lemma ExampleRows(ab1: Channel, ab2: Channel, cd: Channel)
    requires Endpoints(ab1) == Endpoints(ab2) != Endpoints(cd)
    ensures var a, b, c, d := ab1.source, ab1.destination, cd.source, cd.destination;
      && MergeRow(EdgeShare(a, b, 0.5), [ab1, ab2, cd]) == [Merged(a, b, 0.5, Some(ab1)), Merged(a, b, 0.5, Some(ab2))]
      && MergeRow(EdgeShare(c, d, 0.3), [ab1, ab2, cd]) == [Merged(c, d, 0.3, Some(cd))]
  {
    ExampleKeys(ab1, ab2, cd);
  }

  /** The channel rows of the example on each key. */
  lemma ExampleKeys(ab1: Channel, ab2: Channel, cd: Channel)
    requires Endpoints(ab1) == Endpoints(ab2) != Endpoints(cd)
    ensures RowsWithKey([ab1, ab2, cd], Endpoints(ab1)) == [ab1, ab2]
    ensures RowsWithKey([ab1, ab2, cd], Endpoints(cd)) == [cd]
  {
    var right := [ab1, ab2, cd];
    var k1, k2 := Endpoints(ab1), Endpoints(cd);
    assert right[..2] == [ab1, ab2] && right[..2][..1] == [ab1] && right[..1][..0] == [];
    assert RowsWithKey(right[..1], k1) == [ab1];
    assert RowsWithKey(right[..2], k1) == [ab1, ab2];
    assert RowsWithKey(right[..1], k2) == [];
    assert RowsWithKey(right[..2], k2) == [];
  }

  /** The counts of larger shares in the example. */
  lemma ExampleCounts(s: seq<real>)
    requires s == [0.5, 0.5, 0.5, 0.5, 0.3]
    ensures Ranking.CountAbove(s, 0.5) == 0 && Ranking.CountAbove(s, 0.3) == 4
  {
    assert s[..4] == [0.5, 0.5, 0.5, 0.5] && s[..4][..3] == [0.5, 0.5, 0.5];
    assert s[..3] == [0.5, 0.5, 0.5] && s[..3][..2] == [0.5, 0.5];
    assert s[..2] == [0.5, 0.5] && s[..2][..1] == [0.5] && s[..1] == [0.5] && s[..1][..0] == [];
    assert Ranking.CountAbove(s[..1], 0.5) == 0 && Ranking.CountAbove(s[..2], 0.5) == 0;
    assert Ranking.CountAbove(s[..3], 0.5) == 0 && Ranking.CountAbove(s[..4], 0.5) == 0;
    assert Ranking.CountAbove(s[..1], 0.3) == 1 && Ranking.CountAbove(s[..2], 0.3) == 2;
    assert Ranking.CountAbove(s[..3], 0.3) == 3 && Ranking.CountAbove(s[..4], 0.3) == 4;
  }

  /**
   * On a built graph every shown edge comes from an active row, so the
   * merge pairs every edge row with at least one channel row: no channel
   * column is ever missing.
   */
  lemma BuiltEdgesAlwaysMatch(channels: seq<Channel>, nodes: seq<NodeId>, v: View, ebetw: seq<real>)
    requires EndpointsKnown(channels, nodes)
    requires ViewOk(v) && v.graph == GraphOf(channels, nodes).graph && |ebetw| == |v.graph.edges|
    ensures EndsKnown(v, GraphOf(channels, nodes).vertexToId)
    ensures forall m :: m in LeftMerge(EdgeShareRows(v, ebetw, GraphOf(channels, nodes).vertexToId), Active(channels)) ==>
      m.channel.Some?
  {
    var b := GraphOf(channels, nodes);
    var a := Active(channels);
    forall i | 0 <= i < |v.graph.edges| && Shows(v, i)
      ensures v.graph.edges[i].source in b.vertexToId && v.graph.edges[i].target in b.vertexToId
    {
      EdgesRecoverActiveRows(channels, nodes, i);
    }
    var left := EdgeShareRows(v, ebetw, b.vertexToId);
    var ids := ShownOrder(v, |v.graph.edges|);
    forall x | x in left
      ensures exists c :: c in a && Endpoints(c) == Key(x)
    {
      var k :| 0 <= k < |left| && left[k] == x;
      EdgesRecoverActiveRows(channels, nodes, ids[k]);
      assert a[ids[k]] in a;
    }
    MatchedRowsStayPaired(left, a);
  }

  /** When every row of `df` has a row of `right` on its endpoints, no merged row lacks its channel columns. */
  lemma MatchedRowsStayPaired(left: seq<EdgeShare>, right: seq<Channel>)
    requires forall x :: x in left ==> exists c :: c in right && Endpoints(c) == Key(x)
    ensures forall m :: m in LeftMerge(left, right) ==> m.channel.Some?
  {
    LeftMergeRowsMatch(left, right);
    forall m | m in LeftMerge(left, right)
      ensures m.channel.Some?
    {
      assert EdgeShare(m.source, m.destination, m.share) in left;
      var c :| c in right && Endpoints(c) == (m.source, m.destination);
    }
  }

  /**
   * The edge scores frame: the shown edges' rows merged with the active
   * channel rows on their endpoints, then ranked over the merged rows. An
   * endpoint without an id raises KeyError, which gives an empty frame.
   */
  function EdgeScoresOf(v: View, ebetw: seq<real>, vertexToId: map<Vertex, NodeId>, channels: seq<Channel>): seq<EdgeScore>
    requires ViewOk(v) && |ebetw| == |v.graph.edges|
  {
    if EndsKnown(v, vertexToId) then RankMerged(LeftMerge(EdgeShareRows(v, ebetw, vertexToId), Active(channels)))
    else []
  }

  /**
   * `process_edge_betweenness`: the shown edges' endpoint ids and shares,
   * the left merge with `channels[channels.active]`, then the rank column.
   */
  method ProcessEdgeBetweenness(v: View, ebetw: seq<real>, vertexToId: map<Vertex, NodeId>, channels: seq<Channel>)
    returns (rows: seq<EdgeScore>)
    requires ViewOk(v) && |ebetw| == |v.graph.edges|
    ensures rows == EdgeScoresOf(v, ebetw, vertexToId, channels)
  {
    var data := ShownEdgeShares(v, ebetw, vertexToId);
    if data.None? {
      return [];
    }
    var merged := LeftMerge(data.value, Active(channels));
    var shares := MergedShares(merged);
    var ranks := Ranking.RankMinDescending(shares);
    rows := seq(|merged|, k requires 0 <= k < |merged| =>
      EdgeScore(merged[k].source, merged[k].destination, merged[k].share, merged[k].channel, ranks[k]));
  }

  /** The list comprehension building `df`: None when an endpoint has no id (KeyError). */
  method ShownEdgeShares(v: View, ebetw: seq<real>, vertexToId: map<Vertex, NodeId>) returns (data: Option<seq<EdgeShare>>)
    requires ViewOk(v) && |ebetw| == |v.graph.edges|
    ensures data.None? <==> !EndsKnown(v, vertexToId)
    ensures data.Some? ==> EndsKnown(v, vertexToId) && data.value == EdgeShareRows(v, ebetw, vertexToId)
  {
    var order := ShownOrder(v, |v.graph.edges|);
    var rows: seq<EdgeShare> := [];
    for k := 0 to |order|
      invariant |rows| == k
      invariant forall l :: 0 <= l < k ==>
        && v.graph.edges[order[l]].source in vertexToId && v.graph.edges[order[l]].target in vertexToId
        && rows[l] == EdgeShare(vertexToId[v.graph.edges[order[l]].source], vertexToId[v.graph.edges[order[l]].target], ebetw[order[l]])
    {
      var e := v.graph.edges[order[k]];
      if e.source !in vertexToId || e.target !in vertexToId {
        return None;
      }
      rows := rows + [EdgeShare(vertexToId[e.source], vertexToId[e.target], ebetw[order[k]])];
    }
    forall i | 0 <= i < |v.graph.edges| && Shows(v, i)
      ensures v.graph.edges[i].source in vertexToId && v.graph.edges[i].target in vertexToId
    {
      var l :| 0 <= l < |order| && order[l] == i;
    }
    data := Some(rows);
  }

  /** The draws and library results one transaction size needs: offsets, component labels, betweenness shares. */
  datatype BucketInput = BucketInput(offsets: seq<real>, labels: seq<nat>, nodeShares: seq<real>, edgeShares: seq<real>)

  /** What one transaction size produces: nothing (the exception is logged), or the two frames and whether each was written. */
  datatype BucketOutcome =
    | Skipped(reason: string)
    | Scored(nodes: seq<NodeScore>, edges: seq<EdgeScore>, nodesWritten: bool, edgesWritten: bool)

  /** Neither score table of a bucket was written to the warehouse. */
  predicate Unwritten(o: BucketOutcome)
  {
    o.Scored? ==> !o.nodesWritten && !o.edgesWritten
  }

  /** Whether a bucket's inputs fit the built graph. */
  predicate InputFits(input: BucketInput, vertexCount: nat, edgeCount: nat)
  {
    && |input.offsets| == edgeCount
    && (forall i :: 0 <= i < |input.offsets| ==> 0.0 <= input.offsets[i] <= 1.0)
    && |input.labels| == vertexCount && |input.nodeShares| == vertexCount && |input.edgeShares| == edgeCount
  }

  /**
   * `sub` is the view a bucket scores: the largest component the labels
   * give of `view`, or in test mode a cut of it as `get_test_subgraph`
   * makes.
   */
  ghost predicate Analysed(view: View, labels: seq<nat>, testMode: bool, sub: View)
    requires ViewOk(view) && |labels| == view.graph.vertexCount
  {
    exists scc: View ::
      && IsLargestSccView(view, labels, scc)
      && (if testMode then IsTestCut(scc, sub, 3, 200) else sub == scc)
  }

  /**
   * What one transaction size yields. It is skipped exactly when the
   * filtered view is empty. Otherwise both frames score the same analysed
   * view, and each frame is written exactly when it is non-empty and test
   * mode is off.
   */
  ghost predicate IsBucketResult(b: Built, channels: seq<Channel>, txSat: nat, input: BucketInput, testMode: bool, o: BucketOutcome)
  {
    && Consistent(b) && InputFits(input, b.graph.vertexCount, |b.graph.edges|)
    && var view := FilteredView(b, txSat);
    && (o.Skipped? <==> Visible(view) == {})
    && (o.Scored? ==>
      && (o.nodesWritten <==> !testMode && o.nodes != [])
      && (o.edgesWritten <==> !testMode && o.edges != [])
      && ScoresSomeView(b, channels, view, input, testMode, o))
  }

  /** Both frames of `o` score one view that analysing `view` yields. */
  ghost predicate ScoresSomeView(b: Built, channels: seq<Channel>, view: View, input: BucketInput, testMode: bool, o: BucketOutcome)
    requires ViewOk(view) && view.graph == b.graph && InputFits(input, b.graph.vertexCount, |b.graph.edges|)
    requires o.Scored?
  {
    exists sub: View ::
      && ViewOk(sub) && sub.graph == b.graph
      && Analysed(view, input.labels, testMode, sub)
      && o.nodes == NodeScoresOf(sub, input.nodeShares, b.vertexToId)
      && o.edges == EdgeScoresOf(sub, input.edgeShares, b.vertexToId, channels)
  }

  /**
   * The body of `run_pipeline`'s loop for one transaction size: reweight and
   * filter, keep the largest component, cut the test neighbourhood in test
   * mode, score, and write each non-empty frame unless in test mode.
   */
  method ProcessBucket(b: Built, channels: seq<Channel>, fee: array<real>, txSat: nat, input: BucketInput, testMode: bool)
    returns (outcome: BucketOutcome)
    requires Consistent(b) && fee.Length == |b.graph.edges|
    requires InputFits(input, b.graph.vertexCount, |b.graph.edges|)
    modifies fee
    ensures forall i :: 0 <= i < fee.Length ==> fee[i] == JitteredFee(TermsAt(b, i), txSat, input.offsets[i])
    ensures outcome.Skipped? <==> b.graph.vertexCount == 0
    ensures IsBucketResult(b, channels, txSat, input, testMode, outcome)
  {
    var view := UpdateFeesAndFilter(b, fee, txSat, input.offsets);
    FilterHidesNoVertex(b, txSat);
    var scc := LargestSccSubgraph(view, input.labels);
    assert b.graph.vertexCount > 0 ==> 0 in Visible(view);
    if scc.Failure? {
      return Skipped(scc.error);
    }
    var sub := scc.value;
    if testMode {
      var cut := GetTestSubgraph(sub, 3, 200);
      sub := cut.value;
    }
    var nodeRows := ProcessNodeBetweenness(sub, input.nodeShares, b.vertexToId);
    var edgeRows := ProcessEdgeBetweenness(sub, input.edgeShares, b.vertexToId, channels);
    outcome := Scored(nodeRows, edgeRows, nodeRows != [] && !testMode, edgeRows != [] && !testMode);
    assert IsLargestSccView(view, input.labels, scc.value)
      && (if testMode then IsTestCut(scc.value, sub, 3, 200) else sub == scc.value);
    assert Analysed(view, input.labels, testMode, sub);
  }

  /** `s` is a non-empty strongly connected component of the view, and no component of the view is larger. */
  ghost predicate LargestComponent(v: View, s: set<Vertex>)
    requires ViewOk(v)
  {
    && s != {}
    && (forall u :: u in s ==> s == Reach.SccOf(ShownPairs(v), Visible(v), u))
    && (forall w :: w in Visible(v) ==> |Reach.SccOf(ShownPairs(v), Visible(v), w)| <= |s|)
  }

  /**
   * Outside test mode, with genuine component labels, a scored bucket ranks
   * one strongly connected component of the filtered view that no other
   * component outgrows, and every frame row scores one of its vertices.
   */
  lemma ScoredBucketRanksLargestScc(b: Built, channels: seq<Channel>, txSat: nat, input: BucketInput, o: BucketOutcome)
    requires IsBucketResult(b, channels, txSat, input, false, o) && o.Scored?
    requires SccLabelling(FilteredView(b, txSat), input.labels)
    ensures exists scc: View ::
      && IsLargestSccView(FilteredView(b, txSat), input.labels, scc)
      && o.nodes == NodeScoresOf(scc, input.nodeShares, b.vertexToId)
      && o.edges == EdgeScoresOf(scc, input.edgeShares, b.vertexToId, channels)
      && LargestComponent(FilteredView(b, txSat), Visible(scc))
  {
    var view := FilteredView(b, txSat);
    var sub :| ViewOk(sub) && sub.graph == b.graph && Analysed(view, input.labels, false, sub)
      && o.nodes == NodeScoresOf(sub, input.nodeShares, b.vertexToId)
      && o.edges == EdgeScoresOf(sub, input.edgeShares, b.vertexToId, channels);
    var scc :| IsLargestSccView(view, input.labels, scc) && sub == scc;
    LargestSccViewIsLargestScc(view, input.labels, scc);
    assert IsLargestSccView(view, input.labels, scc)
      && o.nodes == NodeScoresOf(scc, input.nodeShares, b.vertexToId)
      && o.edges == EdgeScoresOf(scc, input.edgeShares, b.vertexToId, channels)
      && LargestComponent(view, Visible(scc));
  }

  /**
   * `run_pipeline`: build the graph once (a failure there ends the run),
   * then process the three transaction sizes in order on the same graph,
   * each one overwriting the fee property.
   */
  method RunPipeline(channels: seq<Channel>, nodes: seq<NodeId>, testMode: bool, inputs: seq<BucketInput>)
    returns (r: Result<seq<BucketOutcome>, NodeId>)
    requires |inputs| == |TxTypes|
    requires forall k :: 0 <= k < |inputs| ==> InputFits(inputs[k], |nodes|, |Active(channels)|)
    ensures r.Failure? <==> !EndpointsKnown(channels, nodes)
    ensures r.Success? ==> |r.value| == |TxTypes|
    ensures r.Success? ==> forall k :: 0 <= k < |r.value| ==> (r.value[k].Skipped? <==> nodes == [])
    ensures r.Success? && testMode ==> forall k :: 0 <= k < |r.value| ==> Unwritten(r.value[k])
    ensures r.Success? ==> forall k :: 0 <= k < |r.value| ==>
      IsBucketResult(GraphOf(channels, nodes), channels, TxTypes[k].1, inputs[k], testMode, r.value[k])
  {
    var built := BuildGraph(channels, nodes);
    if built.Failure? {
      return Failure(built.error);
    }
    var b := built.value;
    BuiltGraphIsConsistent(channels, nodes);
    assert b.graph.vertexCount == |nodes| && |b.graph.edges| == |Active(channels)|;
    var fee := new real[|b.graph.edges|](_ => 0.0);
    var outcomes := ProcessBuckets(b, channels, fee, testMode, inputs);
    forall k | 0 <= k < |outcomes|
      ensures (outcomes[k].Skipped? <==> nodes == []) && (testMode ==> Unwritten(outcomes[k]))
    {
      BucketResultFacts(b, channels, TxTypes[k].1, inputs[k], testMode, outcomes[k]);
    }
    r := Success(outcomes);
  }

  /** The loop over `tx_types`: one bucket per size, in order, on the same graph and fee property. */
  method ProcessBuckets(b: Built, channels: seq<Channel>, fee: array<real>, testMode: bool, inputs: seq<BucketInput>)
    returns (outcomes: seq<BucketOutcome>)
    requires Consistent(b) && fee.Length == |b.graph.edges| && |inputs| == |TxTypes|
    requires forall k :: 0 <= k < |inputs| ==> InputFits(inputs[k], b.graph.vertexCount, |b.graph.edges|)
    modifies fee
    ensures |outcomes| == |TxTypes|
    ensures forall k :: 0 <= k < |outcomes| ==> IsBucketResult(b, channels, TxTypes[k].1, inputs[k], testMode, outcomes[k])
  {
    outcomes := [];
    for k := 0 to |TxTypes|
      invariant |outcomes| == k
      invariant forall l :: 0 <= l < k ==> IsBucketResult(b, channels, TxTypes[l].1, inputs[l], testMode, outcomes[l])
    {
      var outcome := ProcessBucket(b, channels, fee, TxTypes[k].1, inputs[k], testMode);
      outcomes := outcomes + [outcome];
    }
  }

  /** A bucket is skipped exactly when the graph has no vertex, and test mode writes nothing. */
  lemma BucketResultFacts(b: Built, channels: seq<Channel>, txSat: nat, input: BucketInput, testMode: bool, o: BucketOutcome)
    requires IsBucketResult(b, channels, txSat, input, testMode, o)
    ensures o.Skipped? <==> b.graph.vertexCount == 0
    ensures testMode ==> Unwritten(o)
  {
    FilterHidesNoVertex(b, txSat);
    assert b.graph.vertexCount > 0 ==> 0 in Visible(FilteredView(b, txSat));
  }
}
