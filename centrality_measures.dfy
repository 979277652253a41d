/**
 * `centrality_measures.py`: node betweenness of the channel graph for three
 * payment sizes. The multigraph of the active channels is built once; for
 * each size every edge's `fee` attribute is overwritten in place with a
 * weight derived from the BOLT #7 fee, the channels whose HTLC bounds refuse
 * the amount are dropped, a largest strongly connected component of what
 * remains is analysed, and its nodes are ranked by their share.
 */
module CentralityMeasures {
  import opened Wrappers
  import opened Snapshot
  import opened Nx
  import opened Seqs
  import Ranking

  /**
   * The `fee` attribute for an amount: the BOLT #7 fee in millisatoshi,
   * rounded down, times 1000, plus 1.
   */
  function Weight(c: Channel, txSat: nat): nat
  {
    Bolt7FeeFloor(c, txSat);
    Bolt7Fee(c, txSat).Floor * 1000 + 1
  }

  /**
   * A weight is never zero, always one more than a multiple of 1000, and
   * the multiple is the BOLT #7 fee rounded down.
   */
  lemma WeightEncodesFee(c: Channel, txSat: nat)
    ensures Weight(c, txSat) >= 1 && Weight(c, txSat) % 1000 == 1
    ensures var f := (Weight(c, txSat) - 1) / 1000;
      f as real <= Bolt7Fee(c, txSat) < f as real + 1.0
  {
    var f := Bolt7Fee(c, txSat).Floor;
    Bolt7FeeFloor(c, txSat);
    assert Weight(c, txSat) == f * 1000 + 1;
    assert (f * 1000) / 1000 == f;
  }

  /** A larger payment never gets a smaller weight on the same channel. */
  lemma WeightMonotone(c: Channel, small: nat, large: nat)
    requires small <= large
    ensures Weight(c, small) <= Weight(c, large)
  {
    Bolt7FeeFloor(c, small);
    Bolt7FeeFloor(c, large);
    assert small * c.feePerMillionth <= large * c.feePerMillionth by {
      assert (large - small) * c.feePerMillionth >= 0;
    }
  }

  /** Every edge's `fee` attribute rewritten for an amount; rows and order unchanged. */
  function Reweighted(es: seq<Edge>, txSat: nat): (r: seq<Edge>)
  {
    seq(|es|, i requires 0 <= i < |es| => Edge(es[i].row, Weight(es[i].row, txSat)))
  }

  /**
   * Rewriting for a second amount leaves no trace of the first: each
   * size's weights overwrite the previous size's in place.
   */
  lemma ReweightOverwrites(es: seq<Edge>, first: nat, second: nat)
    ensures Reweighted(Reweighted(es, first), second) == Reweighted(es, second)
  {
  }

  /** Rewriting weights keeps every edge between the same two nodes. */
  lemma ReweightInside(es: seq<Edge>, txSat: nat, nodes: seq<NodeId>)
    requires forall e :: e in es ==> Src(e) in nodes && Dst(e) in nodes
    ensures forall e :: e in Reweighted(es, txSat) ==> Src(e) in nodes && Dst(e) in nodes
  {
    var r := Reweighted(es, txSat);
    forall e | e in r
      ensures Src(e) in nodes && Dst(e) in nodes
    {
      var i :| 0 <= i < |r| && r[i] == e;
      assert es[i] in es;
    }
  }

  /**
   * The loop over `DG.out_edges(keys=True, data=True)`: every edge's `fee`
   * attribute is overwritten in place with the weight for `txSat`.
   */
  method SetBucketWeights(dg: MultiDiGraph, txSat: nat)
    requires dg.Valid()
    modifies dg
    ensures dg.Valid() && dg.nodes == old(dg.nodes)
    ensures dg.edges == Reweighted(old(dg.edges), txSat)
  {
    ghost var es := dg.edges;
    for k := 0 to |dg.edges|
      invariant dg.nodes == old(dg.nodes) && |dg.edges| == |es|
      invariant forall i :: 0 <= i < k ==> dg.edges[i] == Edge(es[i].row, Weight(es[i].row, txSat))
      invariant forall i :: k <= i < |es| ==> dg.edges[i] == es[i]
    {
      dg.edges := dg.edges[k := Edge(dg.edges[k].row, Weight(dg.edges[k].row, txSat))];
    }
    assert dg.edges == Reweighted(es, txSat);
    ReweightInside(es, txSat, dg.nodes);
  }

  /**
   * The `sufficient_edges` generator: the edges, in order, whose HTLC bounds
   * admit the amount strictly at both ends.
   */
  function Sufficient(es: seq<Edge>, txSat: nat): (r: seq<Edge>)
    ensures |r| <= |es|
    ensures forall e :: e in r <==> e in es && HtlcAdmits(e.row, txSat)
  {
    if es == [] then []
    else
      var e := es[|es| - 1];
      Sufficient(es[..|es| - 1], txSat) + (if HtlcAdmits(e.row, txSat) then [e] else [])
  }

  /**
   * `filtered_DG` keeps a node exactly when one of its channels admits the
   * amount: nodes with no sufficient edge disappear.
   */
  lemma FilteredNodes(es: seq<Edge>, txSat: nat, x: NodeId)
    ensures x in EndpointOrder(Sufficient(es, txSat)) <==>
      exists e :: e in es && HtlcAdmits(e.row, txSat) && (x == Src(e) || x == Dst(e))
  {
    var f := Sufficient(es, txSat);
    if x in EndpointOrder(f) {
      var e :| e in f && (x == Src(e) || x == Dst(e));
    }
  }

  /** `nx.betweenness_centrality` as the library provides it: one share per node of the graph, in node order. */
  ghost predicate BetweennessOk(betweenness: (seq<NodeId>, seq<Edge>) -> seq<real>)
  {
    forall ns, es :: |betweenness(ns, es)| == |ns|
  }

  /** One row of `nodescores`: the node, its share of shortest paths, its rank, and the size's name. */
  datatype Score = Score(nodeId: NodeId, share: real, rank: nat, txType: string)

  function Ids(rows: seq<Score>): seq<NodeId>
  {
    seq(|rows|, i requires 0 <= i < |rows| => rows[i].nodeId)
  }

  /**
   * What one size yields on `DG`'s edges `es`: the rows are the nodes of a
   * largest strongly connected component of the filtered graph, in its node
   * order, each with its betweenness share in that component and its "min"
   * descending rank among them.
   */
  ghost predicate IsBucketResult(es: seq<Edge>, txType: string, txSat: nat,
                                 betweenness: (seq<NodeId>, seq<Edge>) -> seq<real>, rows: seq<Score>)
    requires BetweennessOk(betweenness)
  {
    var w := Sufficient(Reweighted(es, txSat), txSat);
    var fn := EndpointOrder(w);
    var ns := Ids(rows);
    var scc := Elems(ns);
    var shares := betweenness(ns, Induced(w, scc));
    && scc in Sccs(fn, w)
    && (forall c :: c in Sccs(fn, w) ==> |c| <= |scc|)
    && ns == KeepNodes(fn, scc)
    && forall i :: 0 <= i < |rows| ==>
         rows[i].share == shares[i] && rows[i].rank == Ranking.MinRank(shares, shares[i]) && rows[i].txType == txType
  }

  /**
   * One pass of the loop over `tx_types`: weights, the HTLC filter, the
   * largest component (ValueError from `max` when no channel admits the
   * amount), betweenness and ranks.
   */
  method ProcessBucket(dg: MultiDiGraph, txType: string, txSat: nat,
                       betweenness: (seq<NodeId>, seq<Edge>) -> seq<real>, ghost es: seq<Edge>)
    returns (r: Result<seq<Score>, string>)
    requires dg.Valid() && dg.edges == es && BetweennessOk(betweenness)
    modifies dg
    ensures dg.Valid() && dg.nodes == old(dg.nodes) && dg.edges == Reweighted(es, txSat)
    ensures r.Failure? <==> Sufficient(Reweighted(es, txSat), txSat) == []
    ensures r.Failure? ==> r.error == "ValueError"
    ensures r.Success? ==> IsBucketResult(es, txType, txSat, betweenness, r.value)
  {
    SetBucketWeights(dg, txSat);
    var w := Sufficient(dg.edges, txSat);
    var filtered := new MultiDiGraph.FromEdges(w);
    var largest := LargestScc(filtered);
    EndpointOrderEmpty(w);
    if largest.None? {
      return Failure("ValueError");
    }
    var scc := largest.value;
    var newDG := new MultiDiGraph.Subgraph(filtered, scc);
    var shares := betweenness(newDG.nodes, newDG.edges);
    var ranks := Ranking.RankMinDescending(shares);
    BucketResult(es, txType, txSat, betweenness, scc, shares, ranks);
    return Success(ScoreRows(newDG.nodes, shares, ranks, txType));
  }

  /** The rows of `nodescores`, one per node of the analysed component. */
  function ScoreRows(ns: seq<NodeId>, shares: seq<real>, ranks: seq<nat>, txType: string): (rows: seq<Score>)
    requires |shares| == |ns| && |ranks| == |ns|
    ensures Ids(rows) == ns
  {
    seq(|ns|, i requires 0 <= i < |ns| => Score(ns[i], shares[i], ranks[i], txType))
  }

  /** Rows built from a largest component, its betweenness and its ranks are what a size yields. */
  lemma BucketResult(es: seq<Edge>, txType: string, txSat: nat, betweenness: (seq<NodeId>, seq<Edge>) -> seq<real>,
                     scc: set<NodeId>, shares: seq<real>, ranks: seq<nat>)
    requires BetweennessOk(betweenness)
    requires var w := Sufficient(Reweighted(es, txSat), txSat);
      && scc in Sccs(EndpointOrder(w), w)
      && (forall c :: c in Sccs(EndpointOrder(w), w) ==> |c| <= |scc|)
      && shares == betweenness(KeepNodes(EndpointOrder(w), scc), Induced(w, scc))
    requires |ranks| == |shares| && forall i :: 0 <= i < |shares| ==> ranks[i] == Ranking.MinRank(shares, shares[i])
    ensures var w := Sufficient(Reweighted(es, txSat), txSat);
      IsBucketResult(es, txType, txSat, betweenness, ScoreRows(KeepNodes(EndpointOrder(w), scc), shares, ranks, txType))
  {
    var w := Sufficient(Reweighted(es, txSat), txSat);
    SccNodes(w, scc);
  }

  /** Only the current size's weights matter: a size's result is the same on `DG` before or after an earlier size. */
  lemma BucketResultAfterEarlierSize(es: seq<Edge>, earlier: nat, txType: string, txSat: nat,
                                     betweenness: (seq<NodeId>, seq<Edge>) -> seq<real>, rows: seq<Score>)
    requires BetweennessOk(betweenness)
    ensures IsBucketResult(Reweighted(es, earlier), txType, txSat, betweenness, rows) <==>
      IsBucketResult(es, txType, txSat, betweenness, rows)
    ensures Sufficient(Reweighted(Reweighted(es, earlier), txSat), txSat) == Sufficient(Reweighted(es, txSat), txSat)
  {
    ReweightOverwrites(es, earlier, txSat);
  }

  /** A component's node list, taken in the graph's order, holds exactly that component. */
  lemma SccNodes(w: seq<Edge>, scc: set<NodeId>)
    requires scc in Sccs(EndpointOrder(w), w)
    ensures Elems(KeepNodes(EndpointOrder(w), scc)) == scc
  {
    var fn := EndpointOrder(w);
    var x :| x in fn && scc == Reach.SccOf(Pairs(w), Elems(fn), x);
  }

  /**
   * The `k`-th entry of `results` is what the `k`-th size yields on the
   * graph of the active channels, for every `k` below `|results|`.
   */
  ghost predicate BucketsHold(es: seq<Edge>, betweenness: (seq<NodeId>, seq<Edge>) -> seq<real>, results: seq<seq<Score>>)
    requires BetweennessOk(betweenness)
    decreases |results|
  {
    && |results| <= |TxTypes|
    && (results != [] ==>
          var k := |results| - 1;
          BucketsHold(es, betweenness, results[..k]) && IsBucketResult(es, TxTypes[k].0, TxTypes[k].1, betweenness, results[k]))
  }

  /**
   * The whole script: the graph of the active channels, then the three sizes
   * in order until one raises. Each size's result depends only on the
   * channels and that size, since its weights overwrite the previous ones.
   */
  method RunCentrality(channels: seq<Channel>, betweenness: (seq<NodeId>, seq<Edge>) -> seq<real>)
    returns (results: seq<seq<Score>>, error: Option<string>)
    requires BetweennessOk(betweenness)
    ensures |results| <= |TxTypes| && (error.None? <==> |results| == |TxTypes|)
    ensures BucketsHold(ActiveEdges(channels), betweenness, results)
    ensures error.Some? ==>
      error.value == "ValueError" && Sufficient(Reweighted(ActiveEdges(channels), TxTypes[|results|].1), TxTypes[|results|].1) == []
  {
    var a := ActiveEdges(channels);
    var dg := new MultiDiGraph.FromEdges(a);
    results := [];
    for k := 0 to |TxTypes|
      invariant dg.Valid() && |results| == k
      invariant dg.edges == if k == 0 then a else Reweighted(a, TxTypes[k - 1].1)
      invariant BucketsHold(a, betweenness, results)
    {
      var (name, txSat) := TxTypes[k];
      ghost var before := dg.edges;
      var r := ProcessBucket(dg, name, txSat, betweenness, dg.edges);
      if k > 0 {
        BucketResultAfterEarlierSize(a, TxTypes[k - 1].1, name, txSat, betweenness, if r.Success? then r.value else []);
      }
      if r.Failure? {
        return results, Some(r.error);
      }
      assert (results + [r.value])[..k] == results;
      results := results + [r.value];
    }
    error := None;
  }
}
