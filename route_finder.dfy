/**
 * The competitive route finder, in the three versions the repository
 * carries: `compatative_route_finder.py`, `fee-optimizer_bq.py` and
 * `fee-optimizer.py`. From the largest strongly connected component of the
 * active channel graph, with the home node's own fees set to zero, each
 * trial draws an origin and an amount, zeroes the origin's fees, drops
 * channels too small for the amount, prices the rest, and finds cheapest
 * routes inside the origin's component. For every destination whose route
 * passes through the home node it records the peer before and the channel
 * after the home node, and reports how much more the cheapest route costs
 * once the home node is gone.
 */
module RouteFinder {
  import opened Wrappers
  import opened Snapshot
  import opened Nx
  import opened Seqs
  import Reach

  /** The three scripts. */
  datatype Variant =
    | CompetitiveRouteFinder  // compatative_route_finder.py
    | FeeOptimizerBq          // fee-optimizer_bq.py
    | FeeOptimizer            // fee-optimizer.py

  /** The origin's fees are zeroed on the trial's copy, not on the shared graph. */
  predicate ZeroesOnCopy(v: Variant)
  {
    v != FeeOptimizer
  }

  /** The ppm column is divided by 10^6 before pricing. */
  predicate ScalesPpm(v: Variant)
  {
    v != FeeOptimizer
  }

  /** The comparison graph is the origin's component rather than the whole trial graph. */
  predicate ComparesOnScc(v: Variant)
  {
    v != FeeOptimizer
  }

  // ---------------------------------------------------------------------
  // Zeroing a node's fees

  /** The edge with its base fee and ppm set to zero. */
  function Zeroed(e: Edge): Edge
  {
    e.(row := e.row.(baseFeeMsat := 0, feePerMillionth := 0))
  }

  /** The edges with every out-edge of `u` zeroed. */
  function ZeroFrom(es: seq<Edge>, u: NodeId): seq<Edge>
  {
    seq(|es|, i requires 0 <= i < |es| => if Src(es[i]) == u then Zeroed(es[i]) else es[i])
  }

  /**
   * Zeroing changes no endpoint, leaves every edge not leaving `u` as it
   * was, and leaves every out-edge of `u` with no fee terms.
   */
  lemma ZeroFromEffect(es: seq<Edge>, u: NodeId)
    ensures Pairs(ZeroFrom(es, u)) == Pairs(es)
    ensures forall e :: e in ZeroFrom(es, u) && Src(e) == u ==> e.row.baseFeeMsat == 0 && e.row.feePerMillionth == 0
    ensures forall e :: e in es && Src(e) != u ==> e in ZeroFrom(es, u)
    ensures forall e :: e in ZeroFrom(es, u) ==> e in es || (Src(e) == u && e.row.baseFeeMsat == 0 && e.row.feePerMillionth == 0)
  {
    var r := ZeroFrom(es, u);
    forall p | p in Pairs(es)
      ensures p in Pairs(r)
    {
      var e :| e in es && p == (Src(e), Dst(e));
      var i :| 0 <= i < |es| && es[i] == e;
      assert (Src(r[i]), Dst(r[i])) == p;
    }
    forall p | p in Pairs(r)
      ensures p in Pairs(es)
    {
      var e :| e in r && p == (Src(e), Dst(e));
      var i :| 0 <= i < |r| && r[i] == e;
      assert (Src(es[i]), Dst(es[i])) == p;
    }
    forall e | e in es && Src(e) != u
      ensures e in r
    {
      var i :| 0 <= i < |es| && es[i] == e;
      assert r[i] == e;
    }
    forall e | e in r
      ensures e in es || (Src(e) == u && e.row.baseFeeMsat == 0 && e.row.feePerMillionth == 0)
    {
      var i :| 0 <= i < |r| && r[i] == e;
    }
  }

  /** Sets base fee and ppm to zero on every out-edge of `u`, in place. */
  method ZeroOutEdges(g: MultiDiGraph, u: NodeId)
    requires g.Valid()
    modifies g
    ensures g.Valid() && g.nodes == old(g.nodes)
    ensures g.edges == ZeroFrom(old(g.edges), u)
  {
    ghost var es := g.edges;
    for k := 0 to |g.edges|
      invariant g.nodes == old(g.nodes) && |g.edges| == |es|
      invariant forall i :: 0 <= i < k ==> g.edges[i] == ZeroFrom(es, u)[i]
      invariant forall i :: k <= i < |es| ==> g.edges[i] == es[i]
    {
      if Src(g.edges[k]) == u {
        g.edges := g.edges[k := Zeroed(g.edges[k])];
      }
    }
    assert g.edges == ZeroFrom(es, u);
    ZeroFromEffect(es, u);
    assert forall e :: e in g.edges ==> (Src(e), Dst(e)) in Pairs(es);
  }

  /**
   * The `channels` dict: each successor of `home` mapped to the short
   * channel id of the last edge to it.
   */
  function HomeChannels(es: seq<Edge>, home: NodeId): (m: map<NodeId, string>)
    ensures forall d :: d in m <==> (home, d) in Pairs(es)
  {
    if es == [] then map[]
    else
      var e := es[|es| - 1];
      assert forall f :: f in es <==> f in es[..|es| - 1] || f == e;
      var m0 := HomeChannels(es[..|es| - 1], home);
      if Src(e) == home then m0[Dst(e) := e.row.shortChannelId] else m0
  }

  /** The channel id kept for a successor is that of the last parallel edge to it. */
  lemma {:induction false} HomeChannelsLastWins(es: seq<Edge>, home: NodeId, i: nat)
    requires i < |es| && Src(es[i]) == home
    requires forall j :: i < j < |es| ==> (Src(es[j]), Dst(es[j])) != (home, Dst(es[i]))
    ensures HomeChannels(es, home)[Dst(es[i])] == es[i].row.shortChannelId
  {
    var init := es[..|es| - 1];
    if i < |es| - 1 {
      assert init[i] == es[i];
      HomeChannelsLastWins(init, home, i);
    }
  }

  /**
   * Zeroes the home node's out-edges and records its channels, as the
   * loop over `DG.out_edges(mynode)` does.
   */
  method ZeroHomeEdges(g: MultiDiGraph, home: NodeId) returns (channels: map<NodeId, string>)
    requires g.Valid()
    modifies g
    ensures g.Valid() && g.nodes == old(g.nodes)
    ensures g.edges == ZeroFrom(old(g.edges), home)
    ensures channels == HomeChannels(old(g.edges), home)
  {
    var es := g.edges;
    channels := map[];
    for k := 0 to |es|
      invariant channels == HomeChannels(es[..k], home)
    {
      assert es[..k + 1][..k] == es[..k];
      if Src(es[k]) == home {
        channels := channels[Dst(es[k]) := es[k].row.shortChannelId];
      }
    }
    assert es[..|es|] == es;
    ZeroOutEdges(g, home);
  }

  // ---------------------------------------------------------------------
  // Pricing a trial's channels

  /** `satoshis < 2.5*tx_sat`: the channel is too small for the amount. */
  predicate UnderCapacity(c: Channel, txSat: nat)
  {
    (c.satoshis as real) < 2.5 * (txSat as real)
  }

  /**
   * `math.floor(a + tx_sat*b*1000)`, where `b` is the ppm divided by 10^6 in
   * the two newer scripts and the ppm itself in `fee-optimizer.py`.
   */
  function TrialFee(v: Variant, c: Channel, txSat: nat): nat
  {
    var b := if ScalesPpm(v) then c.feePerMillionth as real / 1000000.0 else c.feePerMillionth as real;
    (c.baseFeeMsat as real + (txSat as real) * b * 1000.0).Floor
  }

  /**
   * The scaled fee is the BOLT #7 fee rounded down; the unscaled one charges
   * 10^6 times the proportional part.
   */
  lemma TrialFeeIsBolt7(v: Variant, c: Channel, txSat: nat)
    ensures ScalesPpm(v) ==> TrialFee(v, c, txSat) == Bolt7Fee(c, txSat).Floor
    ensures !ScalesPpm(v) ==>
      (TrialFee(v, c, txSat) - c.baseFeeMsat) as real == 1000000.0 * (Bolt7Fee(c, txSat) - c.baseFeeMsat as real)
    ensures !ScalesPpm(v) ==> TrialFee(v, c, txSat) == c.baseFeeMsat + txSat * c.feePerMillionth * 1000
  {
    var a, p, t := c.baseFeeMsat as real, c.feePerMillionth as real, txSat as real;
    if ScalesPpm(v) {
      assert a + t * (p / 1000000.0) * 1000.0 == Bolt7Fee(c, txSat);
    } else {
      assert a + t * p * 1000.0 == (c.baseFeeMsat + txSat * c.feePerMillionth * 1000) as real;
      assert Bolt7Fee(c, txSat) - a == (txSat * c.feePerMillionth) as real / 1000.0;
    }
  }

  /** The edge with its `fee` attribute set for the trial. */
  function Priced(v: Variant, e: Edge, txSat: nat): Edge
  {
    Edge(e.row, TrialFee(v, e.row, txSat))
  }

  /**
   * The edges that survive the capacity test, each priced; the under-capacity
   * ones are removed.
   */
  function CapacityFiltered(v: Variant, es: seq<Edge>, txSat: nat): (r: seq<Edge>)
    ensures |r| <= |es|
  {
    if es == [] then []
    else
      var f := es[|es| - 1];
      CapacityFiltered(v, es[..|es| - 1], txSat) + (if UnderCapacity(f.row, txSat) then [] else [Priced(v, f, txSat)])
  }

  /** Exactly the channels with enough capacity survive, each priced. */
  lemma {:induction false} CapacityFilteredFacts(v: Variant, es: seq<Edge>, txSat: nat)
    ensures forall f :: f in es && !UnderCapacity(f.row, txSat) ==> Priced(v, f, txSat) in CapacityFiltered(v, es, txSat)
    ensures forall e :: e in CapacityFiltered(v, es, txSat) ==>
      exists f :: f in es && !UnderCapacity(f.row, txSat) && e == Priced(v, f, txSat)
  {
    if es != [] {
      var f := es[|es| - 1];
      assert forall x :: x in es <==> x in es[..|es| - 1] || x == f;
      CapacityFilteredFacts(v, es[..|es| - 1], txSat);
    }
  }

  /** One more channel: priced and appended when it has enough capacity. */
  lemma CapacityFilteredStep(v: Variant, es: seq<Edge>, txSat: nat, k: nat)
    requires k < |es|
    ensures CapacityFiltered(v, es[..k + 1], txSat) ==
      CapacityFiltered(v, es[..k], txSat) + if UnderCapacity(es[k].row, txSat) then [] else [Priced(v, es[k], txSat)]
  {
    assert es[..k + 1][..k] == es[..k];
  }

  /** Filtering and pricing keeps every channel between the graph's nodes. */
  lemma CapacityFilteredInside(v: Variant, es: seq<Edge>, txSat: nat, nodes: seq<NodeId>)
    requires forall e :: e in es ==> Src(e) in nodes && Dst(e) in nodes
    ensures forall e :: e in CapacityFiltered(v, es, txSat) ==> Src(e) in nodes && Dst(e) in nodes
  {
    CapacityFilteredFacts(v, es, txSat);
    forall e | e in CapacityFiltered(v, es, txSat)
      ensures Src(e) in nodes && Dst(e) in nodes
    {
      var f :| f in es && !UnderCapacity(f.row, txSat) && e == Priced(v, f, txSat);
    }
  }

  /**
   * Prices every channel with enough capacity and removes the others, as the
   * loop collecting `useless_edges` followed by `remove_edge` does.
   */
  method ApplyCapacityFilter(v: Variant, g: MultiDiGraph, txSat: nat)
    requires g.Valid()
    modifies g
    ensures g.Valid() && g.nodes == old(g.nodes)
    ensures g.edges == CapacityFiltered(v, old(g.edges), txSat)
  {
    var es := g.edges;
    var kept := [];
    for k := 0 to |es|
      invariant unchanged(g)
      invariant kept == CapacityFiltered(v, es[..k], txSat)
    {
      CapacityFilteredStep(v, es, txSat, k);
      if !UnderCapacity(es[k].row, txSat) {
        kept := kept + [Priced(v, es[k], txSat)];
      }
    }
    assert es[..|es|] == es;
    CapacityFilteredInside(v, es, txSat, g.nodes);
    g.edges := kept;
  }

  // ---------------------------------------------------------------------
  // The graphs of one trial

  /** `i_DG`: the shared graph with the origin's fees zeroed, filtered and priced. */
  function TrialEdges(v: Variant, dgEdges: seq<Edge>, origin: NodeId, txSat: nat): seq<Edge>
  {
    CapacityFiltered(v, ZeroFrom(dgEdges, origin), txSat)
  }

  /** The nodes of the origin's component of `i_DG`. */
  function OriginScc(v: Variant, nodes: seq<NodeId>, dgEdges: seq<Edge>, origin: NodeId, txSat: nat): set<NodeId>
  {
    Reach.SccOf(Pairs(TrialEdges(v, dgEdges, origin, txSat)), Elems(nodes), origin)
  }

  /** `ii_DG`: the edges inside the origin's component. */
  function SccEdges(v: Variant, nodes: seq<NodeId>, dgEdges: seq<Edge>, origin: NodeId, txSat: nat): seq<Edge>
  {
    Induced(TrialEdges(v, dgEdges, origin, txSat), OriginScc(v, nodes, dgEdges, origin, txSat))
  }

  /** `i_DG2`: the comparison graph with the home node removed. */
  function CompareEdges(v: Variant, nodes: seq<NodeId>, dgEdges: seq<Edge>, home: NodeId, origin: NodeId, txSat: nat): seq<Edge>
  {
    if ComparesOnScc(v) then
      var scc := OriginScc(v, nodes, dgEdges, origin, txSat);
      Induced(SccEdges(v, nodes, dgEdges, origin, txSat), Elems(KeepNodes(nodes, scc)) - {home})
    else
      Induced(TrialEdges(v, dgEdges, origin, txSat), Elems(nodes) - {home})
  }

  /** Every edge of the trial graph joins two nodes of the shared graph, under the same endpoints. */
  lemma TrialEdgesInside(v: Variant, nodes: seq<NodeId>, dgEdges: seq<Edge>, origin: NodeId, txSat: nat)
    requires forall e :: e in dgEdges ==> Src(e) in nodes && Dst(e) in nodes
    ensures forall e :: e in TrialEdges(v, dgEdges, origin, txSat) ==> Src(e) in nodes && Dst(e) in nodes
    ensures Pairs(TrialEdges(v, dgEdges, origin, txSat)) <= Pairs(dgEdges)
  {
    var z := ZeroFrom(dgEdges, origin);
    ZeroFromEffect(dgEdges, origin);
    CapacityFilteredFacts(v, z, txSat);
    var t := TrialEdges(v, dgEdges, origin, txSat);
    forall e | e in t
      ensures (Src(e), Dst(e)) in Pairs(dgEdges)
    {
      var f :| f in z && !UnderCapacity(f.row, txSat) && e == Priced(v, f, txSat);
      assert (Src(f), Dst(f)) in Pairs(z);
    }
    forall e | e in t
      ensures Src(e) in nodes && Dst(e) in nodes
    {
      var p := (Src(e), Dst(e));
      var d :| d in dgEdges && p == (Src(d), Dst(d));
    }
  }

  // ---------------------------------------------------------------------
  // Routes through the home node

  /** `path.index(x)`: the first position of `x` on the path. */
  function IndexOf(p: seq<NodeId>, x: NodeId): (i: nat)
    requires x in p
    ensures i < |p| && p[i] == x
    ensures forall j :: 0 <= j < i ==> p[j] != x
  {
    if p[0] == x then 0 else 1 + IndexOf(p[1..], x)
  }

  /** `path[i - 1]`, where Python reads index -1 as the last element. */
  function Before(p: seq<NodeId>, i: nat): NodeId
    requires i < |p|
  {
    if i == 0 then p[|p| - 1] else p[i - 1]
  }

  /** Dijkstra's path to `dest` runs through `home`, and `dest` is not `home`. */
  predicate ViaHome(home: NodeId, dest: NodeId, p: seq<NodeId>)
  {
    home in p && dest != home
  }

  /** Each path is non-empty and ends at the destination it is listed under. */
  predicate PathsEnd(paths: seq<(NodeId, seq<NodeId>)>)
  {
    forall k :: 0 <= k < |paths| ==> |paths[k].1| > 0 && paths[k].1[|paths[k].1| - 1] == paths[k].0
  }

  /** The node after `home` on a path that does not end at `home`. */
  function NextHop(p: seq<NodeId>, home: NodeId): NodeId
    requires home in p && p[|p| - 1] != home
  {
    p[IndexOf(p, home) + 1]
  }

  /** Every path through home leaves it towards a node `channels` knows. */
  predicate HopsKnown(paths: seq<(NodeId, seq<NodeId>)>, home: NodeId, channels: map<NodeId, string>)
  {
    && PathsEnd(paths)
    && forall k :: 0 <= k < |paths| && ViaHome(home, paths[k].0, paths[k].1) ==> NextHop(paths[k].1, home) in channels
  }

  /** One entry of `destinations`: the destination, the peer before home, home's channel after it. */
  datatype Hop = Hop(dest: NodeId, peer: NodeId, channel: string)

  /** The hop recorded for a path through home. */
  function HopOf(dest: NodeId, p: seq<NodeId>, home: NodeId, channels: map<NodeId, string>): Hop
    requires ViaHome(home, dest, p) && p[|p| - 1] == dest && NextHop(p, home) in channels
  {
    Hop(dest, Before(p, IndexOf(p, home)), channels[NextHop(p, home)])
  }

  /** The `destinations` list: one hop per path through home, in path order. */
  function Routed(paths: seq<(NodeId, seq<NodeId>)>, home: NodeId, channels: map<NodeId, string>): (hops: seq<Hop>)
    requires HopsKnown(paths, home, channels)
    ensures |hops| <= |paths|
    ensures hops == [] <==> forall k :: 0 <= k < |paths| ==> !ViaHome(home, paths[k].0, paths[k].1)
    ensures forall h :: h in hops ==> exists k :: 0 <= k < |paths| && paths[k].0 == h.dest && ViaHome(home, h.dest, paths[k].1)
  {
    if paths == [] then []
    else
      var n := |paths| - 1;
      var rest := Routed(paths[..n], home, channels);
      if ViaHome(home, paths[n].0, paths[n].1) then
        rest + [HopOf(paths[n].0, paths[n].1, home, channels)]
      else
        rest
  }

  /** Every path through home to another node yields its hop, with the peer before home and home's channel after it. */
  lemma {:induction false} RoutedExact(paths: seq<(NodeId, seq<NodeId>)>, home: NodeId, channels: map<NodeId, string>, k: nat)
    requires HopsKnown(paths, home, channels)
    requires k < |paths| && ViaHome(home, paths[k].0, paths[k].1)
    ensures HopOf(paths[k].0, paths[k].1, home, channels) in Routed(paths, home, channels)
  {
    var n := |paths| - 1;
    if k < n {
      assert paths[..n][k] == paths[k];
      RoutedExact(paths[..n], home, channels, k);
    }
  }

  /** Every recorded hop is the hop of some path through home. */
  lemma {:induction false} RoutedSound(paths: seq<(NodeId, seq<NodeId>)>, home: NodeId, channels: map<NodeId, string>, h: Hop)
    requires HopsKnown(paths, home, channels)
    requires h in Routed(paths, home, channels)
    ensures exists k :: 0 <= k < |paths| && ViaHome(home, paths[k].0, paths[k].1) && h == HopOf(paths[k].0, paths[k].1, home, channels)
  {
    var n := |paths| - 1;
    if h in Routed(paths[..n], home, channels) {
      RoutedSound(paths[..n], home, channels, h);
      var k :| 0 <= k < n && ViaHome(home, paths[..n][k].0, paths[..n][k].1)
        && h == HopOf(paths[..n][k].0, paths[..n][k].1, home, channels);
      assert paths[..n][k] == paths[k];
    } else {
      assert h == HopOf(paths[n].0, paths[n].1, home, channels);
    }
  }

  /**
   * When the origin is the home node, every path starts at home, so the
   * "peer before home" is read at index -1: it is the destination itself.
   */
  lemma {:induction false} PeerIsDestinationFromHome(paths: seq<(NodeId, seq<NodeId>)>, home: NodeId, channels: map<NodeId, string>)
    requires HopsKnown(paths, home, channels)
    requires forall k :: 0 <= k < |paths| ==> paths[k].1[0] == home
    ensures forall h :: h in Routed(paths, home, channels) ==> h.peer == h.dest
  {
    if paths != [] {
      PeerIsDestinationFromHome(paths[..|paths| - 1], home, channels);
    }
  }

  /** Collects the destinations whose path runs through home, as the loop over `paths.items()` does. */
  method CollectHops(paths: seq<(NodeId, seq<NodeId>)>, home: NodeId, channels: map<NodeId, string>) returns (hops: seq<Hop>)
    requires HopsKnown(paths, home, channels)
    ensures hops == Routed(paths, home, channels)
  {
    hops := [];
    for k := 0 to |paths|
      invariant hops == Routed(paths[..k], home, channels)
    {
      assert paths[..k + 1][..k] == paths[..k];
      var (dest, p) := paths[k];
      if home in p && dest != home {
        var idx := IndexOf(p, home);
        hops := hops + [Hop(dest, Before(p, idx), channels[p[idx + 1]])];
      }
    }
    assert paths[..|paths|] == paths;
  }

  /** A node path in a graph whose edges stay inside `keep`, and that starts inside, stays inside. */
  lemma NodePathInside(es: seq<Edge>, keep: set<NodeId>, s: NodeId, t: NodeId, p: seq<NodeId>)
    requires forall e :: e in es ==> Src(e) in keep && Dst(e) in keep
    requires s in keep && IsNodePath(es, s, t, p)
    ensures forall x :: x in p ==> x in keep
  {
    forall i | 0 <= i < |p|
      ensures p[i] in keep
    {
      if i > 0 {
        var q := (p[i - 1], p[i]);
        assert q in Pairs(es);
        var e :| e in es && q == (Src(e), Dst(e));
      }
    }
  }

  /**
   * `channels[path[path.index(mynode)+1]]` never raises KeyError: a path
   * through home leaves it along an edge of the shared graph, and `channels`
   * holds every successor of home there.
   */
  lemma RoutesAreKnown(es: seq<Edge>, dgEdges: seq<Edge>, origin: NodeId, home: NodeId, channels: map<NodeId, string>, r: Sssp)
    requires SsspOk(es, origin, r) && Pairs(es) <= Pairs(dgEdges)
    requires forall d :: (home, d) in Pairs(dgEdges) ==> d in channels
    ensures HopsKnown(r.paths, home, channels)
  {
    assert forall k :: 0 <= k < |r.paths| ==> IsNodePath(es, origin, r.paths[k].0, r.paths[k].1);
    NodePathsKnown(es, dgEdges, origin, home, channels, r.paths);
  }

  /** `RoutesAreKnown` for any list of node paths from the origin. */
  lemma NodePathsKnown(es: seq<Edge>, dgEdges: seq<Edge>, origin: NodeId, home: NodeId, channels: map<NodeId, string>,
                       paths: seq<(NodeId, seq<NodeId>)>)
    requires forall k :: 0 <= k < |paths| ==> IsNodePath(es, origin, paths[k].0, paths[k].1)
    requires Pairs(es) <= Pairs(dgEdges)
    requires forall d :: (home, d) in Pairs(dgEdges) ==> d in channels
    ensures HopsKnown(paths, home, channels)
  {
    forall k | 0 <= k < |paths|
      ensures |paths[k].1| > 0 && paths[k].1[|paths[k].1| - 1] == paths[k].0
    {
      assert IsNodePath(es, origin, paths[k].0, paths[k].1);
    }
    forall k | 0 <= k < |paths| && ViaHome(home, paths[k].0, paths[k].1)
      ensures NextHop(paths[k].1, home) in channels
    {
      var p := paths[k].1;
      assert IsNodePath(es, origin, paths[k].0, p);
      var i := IndexOf(p, home);
      assert i < |p| - 1;
      assert (home, p[i + 1]) in Pairs(es);
    }
  }

  // ---------------------------------------------------------------------
  // The comparison

  /** One reported comparison: origin, destination, home node, peer, channel, amount and fee differential. */
  datatype Row = Row(source: NodeId, destination: NodeId, node: NodeId, peer: NodeId, channelId: string, txSat: nat, fee: int)

  /** The row `val` gets for a hop whose destination costs `theirs` without home. */
  function RowOf(h: Hop, origin: NodeId, home: NodeId, txSat: nat, theirs: nat, ours: nat): Row
  {
    Row(origin, h.dest, home, h.peer, h.channel, txSat, theirs as int - ours as int)
  }

  /** The hop's destination has a truthy cost without home: present and not zero. */
  predicate Truthy(h: Hop, without: map<NodeId, nat>)
  {
    h.dest in without && without[h.dest] != 0
  }

  /** The rows of `val`, in the order of `destinations`. */
  function Compared(hops: seq<Hop>, origin: NodeId, home: NodeId, txSat: nat, with: map<NodeId, nat>, without: map<NodeId, nat>): (rows: seq<Row>)
    requires forall h :: h in hops ==> h.dest in with
    ensures |rows| <= |hops|
  {
    if hops == [] then []
    else
      var h := hops[|hops| - 1];
      Compared(hops[..|hops| - 1], origin, home, txSat, with, without) +
        (if Truthy(h, without) then [RowOf(h, origin, home, txSat, without[h.dest], with[h.dest])] else [])
  }

  /**
   * A destination gets a row exactly when its cost without home is truthy,
   * and the row's fee is that cost minus the cost with home.
   */
  lemma {:induction false} ComparedRows(hops: seq<Hop>, origin: NodeId, home: NodeId, txSat: nat, with: map<NodeId, nat>, without: map<NodeId, nat>)
    requires forall h :: h in hops ==> h.dest in with
    ensures forall row :: row in Compared(hops, origin, home, txSat, with, without) ==>
      exists h :: h in hops && Truthy(h, without) && row == RowOf(h, origin, home, txSat, without[h.dest], with[h.dest])
    ensures forall h :: h in hops && Truthy(h, without) ==>
      RowOf(h, origin, home, txSat, without[h.dest], with[h.dest]) in Compared(hops, origin, home, txSat, with, without)
  {
    if hops != [] {
      var init := hops[..|hops| - 1];
      assert forall x :: x in hops <==> x in init || x == hops[|hops| - 1];
      ComparedRows(init, origin, home, txSat, with, without);
    }
  }

  /** One more destination adds at most its own row at the end. */
  lemma ComparedStep(hops: seq<Hop>, k: nat, origin: NodeId, home: NodeId, txSat: nat, with: map<NodeId, nat>, without: map<NodeId, nat>)
    requires k < |hops| && forall h :: h in hops ==> h.dest in with
    ensures
      var h := hops[k];
      Compared(hops[..k + 1], origin, home, txSat, with, without) ==
        Compared(hops[..k], origin, home, txSat, with, without) +
          (if Truthy(h, without) then [RowOf(h, origin, home, txSat, without[h.dest], with[h.dest])] else [])
  {
    assert hops[..k + 1][..k] == hops[..k];
  }

  /** Builds `val`, as the loop over `destinations` does. */
  method CompareRoutes(hops: seq<Hop>, origin: NodeId, home: NodeId, txSat: nat, with: map<NodeId, nat>, without: map<NodeId, nat>)
    returns (rows: seq<Row>)
    requires forall h :: h in hops ==> h.dest in with
    ensures rows == Compared(hops, origin, home, txSat, with, without)
  {
    rows := [];
    for k := 0 to |hops|
      invariant rows == Compared(hops[..k], origin, home, txSat, with, without)
    {
      ComparedStep(hops, k, origin, home, txSat, with, without);
      var h := hops[k];
      var theirs := if h.dest in without then without[h.dest] else 0;
      if theirs != 0 {
        var fee := theirs as int - with[h.dest] as int;
        rows := rows + [Row(origin, h.dest, home, h.peer, h.channel, txSat, fee)];
      }
    }
    assert hops[..|hops|] == hops;
  }

  /**
   * A cheapest route that avoids home never beats the cheapest route in the
   * origin's component, whether the home-free graph is a subgraph of the
   * component or of the whole trial graph: a walk from the origin to a node
   * of its component never leaves the component.
   */
  lemma ShortestWithinSccNoDearer(iEdges: seq<Edge>, nodes: set<NodeId>, origin: NodeId, cmp: seq<Edge>, to: NodeId, cw: nat, cwo: nat)
    requires forall e :: e in iEdges ==> Src(e) in nodes && Dst(e) in nodes
    requires origin in nodes
    requires forall e :: e in cmp ==> e in iEdges
    requires to in Reach.Closure(Pairs(Induced(iEdges, Reach.SccOf(Pairs(iEdges), nodes, origin))), {origin})
    requires IsShortestCost(Induced(iEdges, Reach.SccOf(Pairs(iEdges), nodes, origin)), origin, to, cw)
    requires IsShortestCost(cmp, origin, to, cwo)
    ensures cw <= cwo
  {
    var w :| IsWalk(cmp, origin, to, w) && Cost(w) == cwo;
    assert IsWalk(iEdges, origin, to, w);
    ReachedInScc(iEdges, nodes, origin, to);
    WalkStaysInScc(iEdges, nodes, origin, to, w);
  }

  /** What the origin reaches inside its component belongs to the component. */
  lemma ReachedInScc(iEdges: seq<Edge>, nodes: set<NodeId>, origin: NodeId, to: NodeId)
    requires origin in nodes
    requires to in Reach.Closure(Pairs(Induced(iEdges, Reach.SccOf(Pairs(iEdges), nodes, origin))), {origin})
    ensures to in Reach.SccOf(Pairs(iEdges), nodes, origin)
  {
    var scc := Reach.SccOf(Pairs(iEdges), nodes, origin);
    var ii := Induced(iEdges, scc);
    Reach.SccPartition(Pairs(iEdges), nodes, origin, origin);
    Reach.ClosureWithinTargets(Pairs(ii), {origin});
    if to != origin {
      var q :| q in Pairs(ii) && q.1 == to;
      var e :| e in ii && q == (Src(e), Dst(e));
    }
  }
  // ---------------------------------------------------------------------
  // One trial

  /** `nx.single_source_dijkstra` as the library provides it, for every graph and source. */
  ghost predicate DijkstraOk(sssp: (seq<Edge>, NodeId) -> Sssp)
  {
    forall es, s {:trigger SsspOk(es, s, sssp(es, s))} :: SsspOk(es, s, sssp(es, s))
  }

  /** The shared graph's edges join its nodes, and `channels` knows every successor of home. */
  ghost predicate TrialReady(nodes: seq<NodeId>, dgEdges: seq<Edge>, home: NodeId, channels: map<NodeId, string>)
  {
    && (forall e :: e in dgEdges ==> Src(e) in nodes && Dst(e) in nodes)
    && forall d :: (home, d) in Pairs(dgEdges) ==> d in channels
  }

  /** What one pass of the trial loop leaves behind: the destinations found, the rows, and whether they were written. */
  datatype TrialOutcome = TrialOutcome(origin: NodeId, txSat: nat, hops: seq<Hop>, rows: seq<Row>, written: bool)

  /** The paths Dijkstra reports through home name nodes `channels` knows, and destinations with a cost. */
  lemma TrialKnowsHops(v: Variant, nodes: seq<NodeId>, dgEdges: seq<Edge>, home: NodeId, channels: map<NodeId, string>,
                       origin: NodeId, txSat: nat, with: Sssp)
    requires TrialReady(nodes, dgEdges, home, channels)
    requires SsspOk(SccEdges(v, nodes, dgEdges, origin, txSat), origin, with)
    ensures HopsKnown(with.paths, home, channels)
    ensures forall h :: h in Routed(with.paths, home, channels) ==> h.dest in with.dist
  {
    TrialEdgesInside(v, nodes, dgEdges, origin, txSat);
    var ii := SccEdges(v, nodes, dgEdges, origin, txSat);
    assert Pairs(ii) <= Pairs(TrialEdges(v, dgEdges, origin, txSat)) by {
      forall p | p in Pairs(ii)
        ensures p in Pairs(TrialEdges(v, dgEdges, origin, txSat))
      {
        var e :| e in ii && p == (Src(e), Dst(e));
      }
    }
    RoutesAreKnown(ii, dgEdges, origin, home, channels, with);
  }

  /**
   * One pass of the trial loop, given the shared graph's state when it
   * starts: cheapest routes inside the origin's component, the destinations
   * routed through home, and, when there are any, the comparison without
   * home. Removing home and then running Dijkstra from an origin that is
   * home raises NodeNotFound.
   */
  function Trial(v: Variant, nodes: seq<NodeId>, dgEdges: seq<Edge>, home: NodeId, channels: map<NodeId, string>,
                 origin: NodeId, txSat: nat, sssp: (seq<Edge>, NodeId) -> Sssp): Result<TrialOutcome, string>
    requires TrialReady(nodes, dgEdges, home, channels) && DijkstraOk(sssp)
  {
    var with := sssp(SccEdges(v, nodes, dgEdges, origin, txSat), origin);
    TrialKnowsHops(v, nodes, dgEdges, home, channels, origin, txSat, with);
    var hops := Routed(with.paths, home, channels);
    if hops == [] then Success(TrialOutcome(origin, txSat, [], [], false))
    else if origin == home then Failure("NodeNotFound")
    else
      var without := sssp(CompareEdges(v, nodes, dgEdges, home, origin, txSat), origin);
      var rows := Compared(hops, origin, home, txSat, with.dist, without.dist);
      Success(TrialOutcome(origin, txSat, hops, rows, v != CompetitiveRouteFinder || rows != []))
  }

  /**
   * What a trial promises: it fails exactly when the origin is home and some
   * route runs through home; a destination is recorded exactly when its
   * route runs through home (per destination, with its peer and channel:
   * TrialRecordsHops); every reported differential is non-negative;
   * the first script writes only a non-empty `val`, the other two write
   * whenever a route ran through home.
   */
  lemma TrialFacts(v: Variant, nodes: seq<NodeId>, dgEdges: seq<Edge>, home: NodeId, channels: map<NodeId, string>,
                   origin: NodeId, txSat: nat, sssp: (seq<Edge>, NodeId) -> Sssp)
    requires TrialReady(nodes, dgEdges, home, channels) && DijkstraOk(sssp) && origin in nodes
    ensures
      var paths := sssp(SccEdges(v, nodes, dgEdges, origin, txSat), origin).paths;
      var r := Trial(v, nodes, dgEdges, home, channels, origin, txSat, sssp);
      && (r.Failure? <==> origin == home && exists k :: 0 <= k < |paths| && ViaHome(home, paths[k].0, paths[k].1))
      && (r.Success? ==> (r.value.hops == [] <==> forall k :: 0 <= k < |paths| ==> !ViaHome(home, paths[k].0, paths[k].1)))
      && (r.Success? ==> forall row :: row in r.value.rows ==> row.fee >= 0)
      && (r.Success? ==> (r.value.written <==> if v == CompetitiveRouteFinder then r.value.rows != [] else r.value.hops != []))
  {
    var iEdges := TrialEdges(v, dgEdges, origin, txSat);
    var scc := OriginScc(v, nodes, dgEdges, origin, txSat);
    var ii := SccEdges(v, nodes, dgEdges, origin, txSat);
    var with := sssp(ii, origin);
    TrialKnowsHops(v, nodes, dgEdges, home, channels, origin, txSat, with);
    var hops := Routed(with.paths, home, channels);
    if hops != [] && origin != home {
      DifferentialsNonNegative(v, nodes, dgEdges, home, channels, origin, txSat, sssp);
    }
  }

  /** A successful trial's destinations are the hops `Routed` collects from Dijkstra's paths. */
  lemma TrialHops(v: Variant, nodes: seq<NodeId>, dgEdges: seq<Edge>, home: NodeId, channels: map<NodeId, string>,
                  origin: NodeId, txSat: nat, sssp: (seq<Edge>, NodeId) -> Sssp)
    requires TrialReady(nodes, dgEdges, home, channels) && DijkstraOk(sssp)
    ensures
      var paths := sssp(SccEdges(v, nodes, dgEdges, origin, txSat), origin).paths;
      var r := Trial(v, nodes, dgEdges, home, channels, origin, txSat, sssp);
      HopsKnown(paths, home, channels) && (r.Success? ==> r.value.hops == Routed(paths, home, channels))
  {
    var with := sssp(SccEdges(v, nodes, dgEdges, origin, txSat), origin);
    TrialKnowsHops(v, nodes, dgEdges, home, channels, origin, txSat, with);
  }

  /**
   * A successful trial records, for every route Dijkstra reports through
   * home to another node, that destination with the peer before home and
   * home's channel after it, and records nothing else.
   */
  lemma TrialRecordsHops(v: Variant, nodes: seq<NodeId>, dgEdges: seq<Edge>, home: NodeId, channels: map<NodeId, string>,
                         origin: NodeId, txSat: nat, sssp: (seq<Edge>, NodeId) -> Sssp)
    requires TrialReady(nodes, dgEdges, home, channels) && DijkstraOk(sssp)
    ensures
      var paths := sssp(SccEdges(v, nodes, dgEdges, origin, txSat), origin).paths;
      var r := Trial(v, nodes, dgEdges, home, channels, origin, txSat, sssp);
      HopsKnown(paths, home, channels) &&
      (r.Success? ==> forall k :: 0 <= k < |paths| && ViaHome(home, paths[k].0, paths[k].1) ==>
          HopOf(paths[k].0, paths[k].1, home, channels) in r.value.hops) &&
      (r.Success? ==> forall h :: h in r.value.hops ==>
          exists k :: 0 <= k < |paths| && ViaHome(home, paths[k].0, paths[k].1) && h == HopOf(paths[k].0, paths[k].1, home, channels))
  {
    var with := sssp(SccEdges(v, nodes, dgEdges, origin, txSat), origin);
    TrialHops(v, nodes, dgEdges, home, channels, origin, txSat, sssp);
    var hops := Routed(with.paths, home, channels);
    forall k | 0 <= k < |with.paths| && ViaHome(home, with.paths[k].0, with.paths[k].1)
      ensures HopOf(with.paths[k].0, with.paths[k].1, home, channels) in hops
    {
      RoutedExact(with.paths, home, channels, k);
    }
    forall h | h in hops
      ensures exists k :: 0 <= k < |with.paths| && ViaHome(home, with.paths[k].0, with.paths[k].1) && h == HopOf(with.paths[k].0, with.paths[k].1, home, channels)
    {
      RoutedSound(with.paths, home, channels, h);
    }
  }

  /** Every differential in `val` is non-negative: dropping home never makes a destination cheaper. */
  lemma DifferentialsNonNegative(v: Variant, nodes: seq<NodeId>, dgEdges: seq<Edge>, home: NodeId, channels: map<NodeId, string>,
                                 origin: NodeId, txSat: nat, sssp: (seq<Edge>, NodeId) -> Sssp)
    requires TrialReady(nodes, dgEdges, home, channels) && DijkstraOk(sssp) && origin in nodes
    ensures
      var with := sssp(SccEdges(v, nodes, dgEdges, origin, txSat), origin);
      var without := sssp(CompareEdges(v, nodes, dgEdges, home, origin, txSat), origin);
      HopsKnown(with.paths, home, channels) &&
      var hops := Routed(with.paths, home, channels);
      (forall h :: h in hops ==> h.dest in with.dist) &&
      forall row :: row in Compared(hops, origin, home, txSat, with.dist, without.dist) ==> row.fee >= 0
  {
    var iEdges := TrialEdges(v, dgEdges, origin, txSat);
    var with := sssp(SccEdges(v, nodes, dgEdges, origin, txSat), origin);
    TrialKnowsHops(v, nodes, dgEdges, home, channels, origin, txSat, with);
    var hops := Routed(with.paths, home, channels);
    var cmp := CompareEdges(v, nodes, dgEdges, home, origin, txSat);
    var without := sssp(cmp, origin);
    assert SsspOk(cmp, origin, without);
    TrialEdgesInside(v, nodes, dgEdges, origin, txSat);
    assert forall e :: e in cmp ==> e in iEdges;
    ComparedRows(hops, origin, home, txSat, with.dist, without.dist);
    forall row | row in Compared(hops, origin, home, txSat, with.dist, without.dist)
      ensures row.fee >= 0
    {
      var h :| h in hops && Truthy(h, without.dist) && row == RowOf(h, origin, home, txSat, without.dist[h.dest], with.dist[h.dest]);
      ShortestWithinSccNoDearer(iEdges, Elems(nodes), origin, cmp, h.dest, with.dist[h.dest], without.dist[h.dest]);
    }
  }

  /** A channel with no fee terms costs nothing to cross, whatever the amount. */
  lemma TrialFeeOfZeroed(v: Variant, c: Channel, txSat: nat)
    requires c.baseFeeMsat == 0 && c.feePerMillionth == 0
    ensures TrialFee(v, c, txSat) == 0
  {
    var b := if ScalesPpm(v) then c.feePerMillionth as real / 1000000.0 else c.feePerMillionth as real;
    assert b == 0.0;
    assert (txSat as real) * b == 0.0;
  }

  /** On a node's own out-edges, with its fee terms zeroed, a trial's fee is zero. */
  lemma OwnHopsAreFree(v: Variant, dgEdges: seq<Edge>, x: NodeId, origin: NodeId, txSat: nat)
    requires x == origin || forall e :: e in dgEdges && Src(e) == x ==> e.row.baseFeeMsat == 0 && e.row.feePerMillionth == 0
    ensures forall e :: e in TrialEdges(v, dgEdges, origin, txSat) && Src(e) == x ==> e.fee == 0
  {
    var z := ZeroFrom(dgEdges, origin);
    ZeroFromEffect(dgEdges, origin);
    CapacityFilteredFacts(v, z, txSat);
    forall e | e in TrialEdges(v, dgEdges, origin, txSat) && Src(e) == x
      ensures e.fee == 0
    {
      var f :| f in z && !UnderCapacity(f.row, txSat) && e == Priced(v, f, txSat);
      if x != origin {
        var i :| 0 <= i < |z| && z[i] == f;
        assert f == dgEdges[i];
      }
      TrialFeeOfZeroed(v, f.row, txSat);
    }
  }

  /** Every node on a Dijkstra path of the origin's component is a node of the component. */
  lemma RouteNodesInScc(v: Variant, nodes: seq<NodeId>, dgEdges: seq<Edge>, origin: NodeId, txSat: nat, with: Sssp, k: nat)
    requires origin in nodes && k < |with.paths|
    requires SsspOk(SccEdges(v, nodes, dgEdges, origin, txSat), origin, with)
    ensures forall x :: x in with.paths[k].1 ==> x in OriginScc(v, nodes, dgEdges, origin, txSat)
  {
    var iEdges := TrialEdges(v, dgEdges, origin, txSat);
    Reach.SccPartition(Pairs(iEdges), Elems(nodes), origin, origin);
    NodePathInside(SccEdges(v, nodes, dgEdges, origin, txSat), OriginScc(v, nodes, dgEdges, origin, txSat),
                   origin, with.paths[k].0, with.paths[k].1);
  }

  /**
   * `i_DG`: the origin's out-edges zeroed (on a copy, or on the shared graph
   * in `fee-optimizer.py` before copying), then filtered and priced.
   */
  method TrialGraph(v: Variant, dg: MultiDiGraph, origin: NodeId, txSat: nat) returns (i: MultiDiGraph)
    requires dg.Valid()
    modifies dg
    ensures fresh(i) && i.Valid() && i.nodes == old(dg.nodes)
    ensures i.edges == TrialEdges(v, old(dg.edges), origin, txSat)
    ensures dg.Valid() && dg.nodes == old(dg.nodes)
    ensures dg.edges == if ZeroesOnCopy(v) then old(dg.edges) else ZeroFrom(old(dg.edges), origin)
  {
    if ZeroesOnCopy(v) {
      i := new MultiDiGraph.Copy(dg);
      ZeroOutEdges(i, origin);
    } else {
      ZeroOutEdges(dg, origin);
      i := new MultiDiGraph.Copy(dg);
    }
    ApplyCapacityFilter(v, i, txSat);
  }

  /**
   * The routes of a trial: the origin's component of `i_DG`, Dijkstra from
   * the origin inside it, and the destinations routed through home.
   */
  method ComponentRoutes(v: Variant, i: MultiDiGraph, home: NodeId, channels: map<NodeId, string>,
                         origin: NodeId, txSat: nat, sssp: (seq<Edge>, NodeId) -> Sssp,
                         ghost dgEdges: seq<Edge>)
    returns (ii: MultiDiGraph, with: Sssp, hops: seq<Hop>)
    requires i.Valid() && i.edges == TrialEdges(v, dgEdges, origin, txSat)
    requires TrialReady(i.nodes, dgEdges, home, channels) && DijkstraOk(sssp)
    ensures fresh(ii) && ii.Valid()
    ensures ii.nodes == KeepNodes(i.nodes, OriginScc(v, i.nodes, dgEdges, origin, txSat))
    ensures ii.edges == SccEdges(v, i.nodes, dgEdges, origin, txSat)
    ensures with == sssp(SccEdges(v, i.nodes, dgEdges, origin, txSat), origin)
    ensures HopsKnown(with.paths, home, channels) && hops == Routed(with.paths, home, channels)
  {
    var scc := Reach.SccOf(Pairs(i.edges), Elems(i.nodes), origin);
    ii := new MultiDiGraph.Subgraph(i, scc);
    with := sssp(ii.edges, origin);
    TrialKnowsHops(v, i.nodes, dgEdges, home, channels, origin, txSat, with);
    hops := CollectHops(with.paths, home, channels);
  }

  /**
   * `i_DG2`: a copy of the origin's component (of the whole trial graph in
   * `fee-optimizer.py`) with home removed.
   */
  method HomeFreeGraph(v: Variant, i: MultiDiGraph, ii: MultiDiGraph, home: NodeId, origin: NodeId, txSat: nat,
                       ghost nodes: seq<NodeId>, ghost dgEdges: seq<Edge>)
    returns (i2: MultiDiGraph)
    requires i.nodes == nodes && i.Valid() && i.edges == TrialEdges(v, dgEdges, origin, txSat)
    requires ii.Valid() && ii.nodes == KeepNodes(nodes, OriginScc(v, nodes, dgEdges, origin, txSat))
    requires ii.edges == SccEdges(v, nodes, dgEdges, origin, txSat)
    requires home in OriginScc(v, nodes, dgEdges, origin, txSat)
    ensures fresh(i2) && i2.edges == CompareEdges(v, nodes, dgEdges, home, origin, txSat)
  {
    if ComparesOnScc(v) {
      i2 := new MultiDiGraph.Copy(ii);
    } else {
      i2 := new MultiDiGraph.Copy(i);
    }
    i2.RemoveNode(home);
  }

  /**
   * The comparison of a trial that found routes through home: copy the
   * comparison graph, remove home, and run Dijkstra from the origin again;
   * NodeNotFound when the origin is home.
   */
  method CompareWithoutHome(v: Variant, i: MultiDiGraph, ii: MultiDiGraph, home: NodeId, channels: map<NodeId, string>,
                            origin: NodeId, txSat: nat, sssp: (seq<Edge>, NodeId) -> Sssp,
                            ghost nodes: seq<NodeId>, ghost dgEdges: seq<Edge>, with: Sssp, hops: seq<Hop>)
    returns (r: Result<TrialOutcome, string>)
    requires i.nodes == nodes
    requires i.Valid() && origin in i.nodes && i.edges == TrialEdges(v, dgEdges, origin, txSat)
    requires TrialReady(i.nodes, dgEdges, home, channels) && DijkstraOk(sssp)
    requires ii.Valid() && ii.nodes == KeepNodes(i.nodes, OriginScc(v, i.nodes, dgEdges, origin, txSat))
    requires ii.edges == SccEdges(v, i.nodes, dgEdges, origin, txSat)
    requires with == sssp(SccEdges(v, i.nodes, dgEdges, origin, txSat), origin)
    requires HopsKnown(with.paths, home, channels) && hops == Routed(with.paths, home, channels) && hops != []
    ensures r == Trial(v, nodes, dgEdges, home, channels, origin, txSat, sssp)
  {
    var k :| 0 <= k < |with.paths| && ViaHome(home, with.paths[k].0, with.paths[k].1);
    RouteNodesInScc(v, nodes, dgEdges, origin, txSat, with, k);
    var i2 := HomeFreeGraph(v, i, ii, home, origin, txSat, nodes, dgEdges);
    if origin == home {
      TrialFromHome(v, nodes, dgEdges, home, channels, origin, txSat, sssp);
      return Failure("NodeNotFound");
    }
    var without := sssp(i2.edges, origin);
    TrialKnowsHops(v, nodes, dgEdges, home, channels, origin, txSat, with);
    var rows := CompareRoutes(hops, origin, home, txSat, with.dist, without.dist);
    var written := v != CompetitiveRouteFinder || rows != [];
    TrialCompared(v, nodes, dgEdges, home, channels, origin, txSat, sssp, rows);
    return Success(TrialOutcome(origin, txSat, hops, rows, written));
  }

  /** A trial from home that finds a route through home raises NodeNotFound. */
  lemma TrialFromHome(v: Variant, nodes: seq<NodeId>, dgEdges: seq<Edge>, home: NodeId, channels: map<NodeId, string>,
                      origin: NodeId, txSat: nat, sssp: (seq<Edge>, NodeId) -> Sssp)
    requires TrialReady(nodes, dgEdges, home, channels) && DijkstraOk(sssp) && origin == home
    requires
      var with := sssp(SccEdges(v, nodes, dgEdges, origin, txSat), origin);
      HopsKnown(with.paths, home, channels) && Routed(with.paths, home, channels) != []
    ensures Trial(v, nodes, dgEdges, home, channels, origin, txSat, sssp) == Failure("NodeNotFound")
  {
  }

  /** A trial from elsewhere that finds routes through home reports the comparison rows. */
  lemma TrialCompared(v: Variant, nodes: seq<NodeId>, dgEdges: seq<Edge>, home: NodeId, channels: map<NodeId, string>,
                      origin: NodeId, txSat: nat, sssp: (seq<Edge>, NodeId) -> Sssp, rows: seq<Row>)
    requires TrialReady(nodes, dgEdges, home, channels) && DijkstraOk(sssp) && origin != home
    requires
      var with := sssp(SccEdges(v, nodes, dgEdges, origin, txSat), origin);
      var without := sssp(CompareEdges(v, nodes, dgEdges, home, origin, txSat), origin);
      && HopsKnown(with.paths, home, channels)
      && var hops := Routed(with.paths, home, channels);
      && hops != []
      && (forall h :: h in hops ==> h.dest in with.dist)
      && rows == Compared(hops, origin, home, txSat, with.dist, without.dist)
    ensures
      var with := sssp(SccEdges(v, nodes, dgEdges, origin, txSat), origin);
      var hops := Routed(with.paths, home, channels);
      Trial(v, nodes, dgEdges, home, channels, origin, txSat, sssp) ==
        Success(TrialOutcome(origin, txSat, hops, rows, v != CompetitiveRouteFinder || rows != []))
  {
  }

  /**
   * One pass of the trial loop: zero the origin's out-edges (on a copy, or
   * on the shared graph in `fee-optimizer.py`), filter and price, restrict
   * to the origin's component, collect the routes through home, and compare
   * with home removed.
   */
  method RunTrial(v: Variant, dg: MultiDiGraph, home: NodeId, channels: map<NodeId, string>,
                  origin: NodeId, txSat: nat, sssp: (seq<Edge>, NodeId) -> Sssp)
    returns (r: Result<TrialOutcome, string>)
    requires dg.Valid() && origin in dg.nodes
    requires TrialReady(dg.nodes, dg.edges, home, channels) && DijkstraOk(sssp)
    modifies dg
    ensures dg.Valid() && dg.nodes == old(dg.nodes)
    ensures dg.edges == if ZeroesOnCopy(v) then old(dg.edges) else ZeroFrom(old(dg.edges), origin)
    ensures r == Trial(v, old(dg.nodes), old(dg.edges), home, channels, origin, txSat, sssp)
  {
    ghost var nodes, dgEdges := dg.nodes, dg.edges;
    var i := TrialGraph(v, dg, origin, txSat);
    var ii, with, hops := ComponentRoutes(v, i, home, channels, origin, txSat, sssp, dgEdges);
    if hops == [] {
      return Success(TrialOutcome(origin, txSat, [], [], false));
    }
    r := CompareWithoutHome(v, i, ii, home, channels, origin, txSat, sssp, nodes, dgEdges, with, hops);
  }
  // ---------------------------------------------------------------------
  // The whole run

  /** One pass of the loop's random draws: an index into the node list, and `tx_sat`. */
  datatype Draw = Draw(pick: nat, txSat: nat)

  /** `nodes[random.randint(0, len(nodes)-1)]`: any index of the list, taken modulo its length. */
  function OriginOf(nodes: seq<NodeId>, d: Draw): NodeId
    requires |nodes| > 0
  {
    nodes[d.pick % |nodes|]
  }

  /**
   * The shared graph's edges when the trial after `draws` begins. The two
   * newer scripts zero origins on a copy, so it never changes;
   * `fee-optimizer.py` zeroes them on the shared graph, so every earlier
   * origin stays zeroed.
   */
  function DgBefore(v: Variant, dgEdges: seq<Edge>, nodes: seq<NodeId>, draws: seq<Draw>): (r: seq<Edge>)
    requires |nodes| > 0
    ensures ZeroesOnCopy(v) ==> r == dgEdges
  {
    if ZeroesOnCopy(v) || draws == [] then dgEdges
    else ZeroFrom(DgBefore(v, dgEdges, nodes, draws[..|draws| - 1]), OriginOf(nodes, draws[|draws| - 1]))
  }

  /** Zeroing never changes which nodes the shared graph's edges join. */
  lemma {:induction false} DgBeforePairs(v: Variant, dgEdges: seq<Edge>, nodes: seq<NodeId>, draws: seq<Draw>)
    requires |nodes| > 0
    ensures Pairs(DgBefore(v, dgEdges, nodes, draws)) == Pairs(dgEdges)
  {
    if !ZeroesOnCopy(v) && draws != [] {
      var init := draws[..|draws| - 1];
      DgBeforePairs(v, dgEdges, nodes, init);
      ZeroFromEffect(DgBefore(v, dgEdges, nodes, init), OriginOf(nodes, draws[|draws| - 1]));
    }
  }

  /** Every trial starts from a graph as ready as the first one. */
  lemma DgBeforeReady(v: Variant, dgEdges: seq<Edge>, nodes: seq<NodeId>, home: NodeId, channels: map<NodeId, string>, draws: seq<Draw>)
    requires |nodes| > 0 && TrialReady(nodes, dgEdges, home, channels)
    ensures TrialReady(nodes, DgBefore(v, dgEdges, nodes, draws), home, channels)
  {
    var es := DgBefore(v, dgEdges, nodes, draws);
    DgBeforePairs(v, dgEdges, nodes, draws);
    forall e | e in es
      ensures Src(e) in nodes && Dst(e) in nodes
    {
      assert (Src(e), Dst(e)) in Pairs(dgEdges);
      var d :| d in dgEdges && (Src(e), Dst(e)) == (Src(d), Dst(d));
    }
  }

  /** A node whose out-edges carry no fee terms keeps them so through any number of trials. */
  lemma {:induction false} ZeroingKept(v: Variant, dgEdges: seq<Edge>, nodes: seq<NodeId>, draws: seq<Draw>, x: NodeId)
    requires |nodes| > 0
    requires forall e :: e in dgEdges && Src(e) == x ==> e.row.baseFeeMsat == 0 && e.row.feePerMillionth == 0
    ensures forall e :: e in DgBefore(v, dgEdges, nodes, draws) && Src(e) == x ==> e.row.baseFeeMsat == 0 && e.row.feePerMillionth == 0
  {
    if !ZeroesOnCopy(v) && draws != [] {
      var init := draws[..|draws| - 1];
      ZeroingKept(v, dgEdges, nodes, init, x);
      ZeroFromEffect(DgBefore(v, dgEdges, nodes, init), OriginOf(nodes, draws[|draws| - 1]));
    }
  }

  /**
   * In `fee-optimizer.py` the zeroing accumulates: once a node has been an
   * origin, its out-edges carry no fee terms in every later trial.
   */
  lemma {:induction false} ZeroingAccumulates(dgEdges: seq<Edge>, nodes: seq<NodeId>, draws: seq<Draw>, k: nat)
    requires |nodes| > 0 && k < |draws|
    ensures forall e :: e in DgBefore(FeeOptimizer, dgEdges, nodes, draws) && Src(e) == OriginOf(nodes, draws[k]) ==>
      e.row.baseFeeMsat == 0 && e.row.feePerMillionth == 0
  {
    var init := draws[..|draws| - 1];
    var last := OriginOf(nodes, draws[|draws| - 1]);
    ZeroFromEffect(DgBefore(FeeOptimizer, dgEdges, nodes, init), last);
    if k < |draws| - 1 {
      assert init[k] == draws[k];
      ZeroingAccumulates(dgEdges, nodes, init, k);
    }
  }

  /** One more trial applies that trial's zeroing, if any. */
  lemma DgBeforeStep(v: Variant, dgEdges: seq<Edge>, nodes: seq<NodeId>, draws: seq<Draw>, k: nat)
    requires |nodes| > 0 && k < |draws|
    ensures DgBefore(v, dgEdges, nodes, draws[..k + 1]) ==
      if ZeroesOnCopy(v) then DgBefore(v, dgEdges, nodes, draws[..k])
      else ZeroFrom(DgBefore(v, dgEdges, nodes, draws[..k]), OriginOf(nodes, draws[k]))
  {
    assert draws[..k + 1][..k] == draws[..k];
  }

  /**
   * `DG`: the nodes of a largest strongly connected component of `wDG`, in
   * `wDG`'s order, with the edges between them, home's fee terms zeroed, and
   * the `channels` dict read off them.
   */
  ghost predicate SharedGraph(w: seq<Edge>, home: NodeId, nodes: seq<NodeId>, dgEdges: seq<Edge>, channels: map<NodeId, string>)
  {
    var wn := EndpointOrder(w);
    var scc := Elems(nodes);
    && scc in Sccs(wn, w)
    && (forall c :: c in Sccs(wn, w) ==> |c| <= |scc|)
    && nodes == KeepNodes(wn, scc)
    && dgEdges == ZeroFrom(Induced(w, scc), home)
    && channels == HomeChannels(Induced(w, scc), home)
  }

  /**
   * What a run leaves: `DG` and `channels`, the outcome of each trial that
   * completed, and the exception that stopped the run, if one did.
   */
  datatype RunOutcome = RunOutcome(dgNodes: seq<NodeId>, dgEdges: seq<Edge>, channels: map<NodeId, string>,
                                   trials: seq<TrialOutcome>, error: Option<string>)

  /** The largest component's node list is its node set, and is never empty. */
  lemma LargestSccNodes(w: seq<Edge>, scc: set<NodeId>)
    requires scc in Sccs(EndpointOrder(w), w)
    ensures Elems(KeepNodes(EndpointOrder(w), scc)) == scc
    ensures KeepNodes(EndpointOrder(w), scc) != []
  {
    var wn := EndpointOrder(w);
    var x :| x in wn && scc == Reach.SccOf(Pairs(w), Elems(wn), x);
    Reach.SccPartition(Pairs(w), Elems(wn), x, x);
    assert x in KeepNodes(wn, scc);
  }

  /**
   * `wDG` from the active channels, `DG` as a largest component of it, and
   * home's fees zeroed; `ok` is false when `wDG` is empty and `max()` raises
   * ValueError.
   */
  method BuildSharedGraph(g: seq<Channel>, home: NodeId) returns (ok: bool, dg: MultiDiGraph, channels: map<NodeId, string>)
    ensures fresh(dg) && dg.Valid()
    ensures ok <==> Active(g) != []
    ensures ok ==> dg.nodes != [] && SharedGraph(ActiveEdges(g), home, dg.nodes, dg.edges, channels)
    ensures ok ==> TrialReady(dg.nodes, dg.edges, home, channels)
  {
    var w := ActiveEdges(g);
    var wdg := new MultiDiGraph.FromEdges(w);
    var largest := LargestScc(wdg);
    if largest.None? {
      ActiveEdgesNodes(g);
      return false, wdg, map[];
    }
    var scc := largest.value;
    LargestSccNodes(w, scc);
    dg := new MultiDiGraph.Subgraph(wdg, scc);
    channels := ZeroHomeEdges(dg, home);
    ActiveEdgesNodes(g);
    ZeroFromEffect(Induced(w, scc), home);
    ok := true;
  }

  /**
   * The `for i in range(number_of_runs)` loop as a value: the outcomes of
   * the trials that completed, in order, and the exception that stopped the
   * loop, if one did. Trial `k` runs on `DG` as the earlier trials left it.
   */
  function Run(v: Variant, nodes: seq<NodeId>, dgEdges: seq<Edge>, home: NodeId, channels: map<NodeId, string>,
               draws: seq<Draw>, sssp: (seq<Edge>, NodeId) -> Sssp): (r: (seq<TrialOutcome>, Option<string>))
    requires |nodes| > 0 && TrialReady(nodes, dgEdges, home, channels) && DijkstraOk(sssp)
    ensures |r.0| <= |draws| && (r.1.None? <==> |r.0| == |draws|)
    decreases |draws|
  {
    if draws == [] then ([], None)
    else
      var init := draws[..|draws| - 1];
      var prev := Run(v, nodes, dgEdges, home, channels, init, sssp);
      if prev.1.Some? then prev
      else
        DgBeforeReady(v, dgEdges, nodes, home, channels, init);
        var d := draws[|draws| - 1];
        match Trial(v, nodes, DgBefore(v, dgEdges, nodes, init), home, channels, OriginOf(nodes, d), d.txSat, sssp)
        case Success(t) => (prev.0 + [t], None)
        case Failure(e) => (prev.0, Some(e))
  }

  /**
   * Each completed trial `k` is the trial on the `k`-th draw against `DG` as
   * the first `k` draws left it, and the exception that stops the loop is the
   * one the next trial raises.
   */
  lemma {:induction false} RunOutcomes(v: Variant, nodes: seq<NodeId>, dgEdges: seq<Edge>, home: NodeId,
                                       channels: map<NodeId, string>, draws: seq<Draw>, sssp: (seq<Edge>, NodeId) -> Sssp, k: nat)
    requires |nodes| > 0 && TrialReady(nodes, dgEdges, home, channels) && DijkstraOk(sssp)
    requires k <= |Run(v, nodes, dgEdges, home, channels, draws, sssp).0| && k < |draws|
    ensures TrialReady(nodes, DgBefore(v, dgEdges, nodes, draws[..k]), home, channels)
    ensures var r := Run(v, nodes, dgEdges, home, channels, draws, sssp);
      var t := Trial(v, nodes, DgBefore(v, dgEdges, nodes, draws[..k]), home, channels,
                     OriginOf(nodes, draws[k]), draws[k].txSat, sssp);
      && (k < |r.0| ==> t == Success(r.0[k]))
      && (k == |r.0| ==> t == Failure(r.1.value))
  {
    DgBeforeReady(v, dgEdges, nodes, home, channels, draws[..k]);
    var n := |draws| - 1;
    var init := draws[..n];
    assert draws[..n + 1] == draws;
    var prev := Run(v, nodes, dgEdges, home, channels, init, sssp);
    if prev.1.Some? {
      RunStops(v, nodes, dgEdges, home, channels, draws, sssp, n);
    } else {
      DgBeforeReady(v, dgEdges, nodes, home, channels, init);
      var t := Trial(v, nodes, DgBefore(v, dgEdges, nodes, init), home, channels,
                     OriginOf(nodes, draws[n]), draws[n].txSat, sssp);
      RunStep(v, nodes, dgEdges, home, channels, draws, sssp, n, t);
    }
    if k < n {
      assert init[..k] == draws[..k];
      assert init[k] == draws[k];
      RunOutcomes(v, nodes, dgEdges, home, channels, init, sssp, k);
    }
  }

  /** One more draw: the loop either records the next trial's outcome or stops with its exception. */
  lemma RunStep(v: Variant, nodes: seq<NodeId>, dgEdges: seq<Edge>, home: NodeId, channels: map<NodeId, string>,
                draws: seq<Draw>, sssp: (seq<Edge>, NodeId) -> Sssp, k: nat, t: Result<TrialOutcome, string>)
    requires |nodes| > 0 && TrialReady(nodes, dgEdges, home, channels) && DijkstraOk(sssp) && k < |draws|
    requires Run(v, nodes, dgEdges, home, channels, draws[..k], sssp).1.None?
    requires TrialReady(nodes, DgBefore(v, dgEdges, nodes, draws[..k]), home, channels)
    requires t == Trial(v, nodes, DgBefore(v, dgEdges, nodes, draws[..k]), home, channels,
                        OriginOf(nodes, draws[k]), draws[k].txSat, sssp)
    ensures var prev := Run(v, nodes, dgEdges, home, channels, draws[..k], sssp);
      Run(v, nodes, dgEdges, home, channels, draws[..k + 1], sssp) ==
        if t.Success? then (prev.0 + [t.value], None) else (prev.0, Some(t.error))
  {
    assert draws[..k + 1][..k] == draws[..k];
  }

  /** Once a trial has raised, later draws are never used. */
  lemma {:induction false} RunStops(v: Variant, nodes: seq<NodeId>, dgEdges: seq<Edge>, home: NodeId,
                                    channels: map<NodeId, string>, draws: seq<Draw>, sssp: (seq<Edge>, NodeId) -> Sssp, j: nat)
    requires |nodes| > 0 && TrialReady(nodes, dgEdges, home, channels) && DijkstraOk(sssp)
    requires j <= |draws| && Run(v, nodes, dgEdges, home, channels, draws[..j], sssp).1.Some?
    ensures Run(v, nodes, dgEdges, home, channels, draws, sssp) == Run(v, nodes, dgEdges, home, channels, draws[..j], sssp)
    decreases |draws|
  {
    if j < |draws| {
      var init := draws[..|draws| - 1];
      assert init[..j] == draws[..j];
      RunStops(v, nodes, dgEdges, home, channels, init, sssp, j);
    } else {
      assert draws[..j] == draws;
    }
  }

  /**
   * The trial loop on `DG`: one trial per draw, stopping at the first trial
   * that raises.
   */
  method RunTrials(v: Variant, dg: MultiDiGraph, home: NodeId, channels: map<NodeId, string>, draws: seq<Draw>,
                   sssp: (seq<Edge>, NodeId) -> Sssp, ghost nodes: seq<NodeId>, ghost dgEdges: seq<Edge>)
    returns (trials: seq<TrialOutcome>, error: Option<string>)
    requires dg.nodes == nodes && dg.edges == dgEdges
    requires dg.Valid() && nodes != [] && TrialReady(nodes, dgEdges, home, channels) && DijkstraOk(sssp)
    modifies dg
    ensures (trials, error) == Run(v, nodes, dgEdges, home, channels, draws, sssp)
  {
    trials := [];
    for k := 0 to |draws|
      invariant dg.Valid() && dg.nodes == nodes
      invariant dg.edges == DgBefore(v, dgEdges, nodes, draws[..k])
      invariant (trials, None) == Run(v, nodes, dgEdges, home, channels, draws[..k], sssp)
    {
      var origin := dg.nodes[draws[k].pick % |dg.nodes|];
      ghost var before := dg.edges;
      DgBeforeStep(v, dgEdges, nodes, draws, k);
      DgBeforeReady(v, dgEdges, nodes, home, channels, draws[..k]);
      var r := RunTrial(v, dg, home, channels, origin, draws[k].txSat, sssp);
      RunStep(v, nodes, dgEdges, home, channels, draws, sssp, k, r);
      if r.Failure? {
        RunStops(v, nodes, dgEdges, home, channels, draws, sssp, k + 1);
        return trials, Some(r.error);
      }
      trials := trials + [r.value];
    }
    assert draws[..|draws|] == draws;
    error := None;
  }

  /**
   * `run_route_finding`: builds `DG` (ValueError when no channel is
   * active), then runs one trial per draw until the draws run out or a
   * trial raises.
   */
  method RunRouteFinding(v: Variant, g: seq<Channel>, home: NodeId, draws: seq<Draw>, sssp: (seq<Edge>, NodeId) -> Sssp)
    returns (out: RunOutcome)
    requires DijkstraOk(sssp)
    requires forall k :: 0 <= k < |draws| ==> 1 <= draws[k].txSat <= 1000000
    ensures out.dgNodes == [] <==> Active(g) == []
    ensures out.dgNodes == [] ==> out.trials == [] && out.error == Some("ValueError")
    ensures out.dgNodes != [] ==> SharedGraph(ActiveEdges(g), home, out.dgNodes, out.dgEdges, out.channels)
    ensures out.dgNodes != [] ==> TrialReady(out.dgNodes, out.dgEdges, home, out.channels)
    ensures out.dgNodes != [] ==>
      (out.trials, out.error) == Run(v, out.dgNodes, out.dgEdges, home, out.channels, draws, sssp)
  {
    var ok, dg, channels := BuildSharedGraph(g, home);
    if !ok {
      return RunOutcome([], [], map[], [], Some("ValueError"));
    }
    var nodes, dgEdges := dg.nodes, dg.edges;
    var trials, error := RunTrials(v, dg, home, channels, draws, sssp, nodes, dgEdges);
    return RunOutcome(nodes, dgEdges, channels, trials, error);
  }
}
