/**
 * Reachability over a directed graph given as its set of (source, target)
 * pairs (parallel edges do not matter to reachability): the successor step, the reflexive-transitive
 * closure, reachability within a bounded number of edges, and strongly
 * connected components. graph-tool's `label_components`, its BFS and
 * networkx's `strongly_connected_components` are all specified against
 * these definitions.
 */
module Reach {

  /** The targets of the edges that leave `s`. */
  function Step<V>(es: set<(V, V)>, s: set<V>): set<V>
  {
    set p | p in es && p.0 in s :: p.1
  }

  /** Every edge target. */
  function Targets<V>(es: set<(V, V)>): set<V>
  {
    set p | p in es :: p.1
  }

  /** A step that adds something shrinks the set of targets not yet reached. */
  lemma StepShrinksUnreached<V>(es: set<(V, V)>, s: set<V>)
    requires !(s + Step(es, s) <= s)
    ensures Targets(es) - (s + Step(es, s)) < Targets(es) - s
  {
    var w :| w in Step(es, s) && w !in s;
    var p :| p in es && p.0 in s && p.1 == w;
    assert w in Targets(es);
  }

  /** Everything reachable from `s` along the edges, `s` included. */
  function Closure<V>(es: set<(V, V)>, s: set<V>): (c: set<V>)
    ensures s <= c
    ensures Step(es, c) <= c
    decreases Targets(es) - s
  {
    var next := s + Step(es, s);
    if next <= s then s
    else
      StepShrinksUnreached(es, s);
      Closure(es, next)
  }

  /** The closure is the least superset of `s` that no edge leaves. */
  lemma {:induction false} ClosureLeast<V>(es: set<(V, V)>, s: set<V>, t: set<V>)
    requires s <= t && Step(es, t) <= t
    ensures Closure(es, s) <= t
    decreases Targets(es) - s
  {
    var next := s + Step(es, s);
    if !(next <= s) {
      StepShrinksUnreached(es, s);
      ClosureLeast(es, next, t);
    }
  }

  /** Everything the closure adds is the target of some edge. */
  lemma ClosureWithinTargets<V>(es: set<(V, V)>, s: set<V>)
    ensures Closure(es, s) <= s + Targets(es)
  {
    ClosureLeast(es, s, s + Targets(es));
  }

  /** `w` can be reached from `u`. */
  predicate Reaches<V(==)>(es: set<(V, V)>, u: V, w: V)
  {
    w in Closure(es, {u})
  }

  /** Reachability is transitive. */
  lemma ReachesTrans<V>(es: set<(V, V)>, u: V, v: V, w: V)
    requires Reaches(es, u, v) && Reaches(es, v, w)
    ensures Reaches(es, u, w)
  {
    ClosureLeast(es, {v}, Closure(es, {u}));
  }

  /** Dropping edges never makes more vertices reachable. */
  lemma ClosureSubgraph<V>(small: set<(V, V)>, big: set<(V, V)>, s: set<V>)
    requires small <= big
    ensures Closure(small, s) <= Closure(big, s)
  {
    ClosureLeast(small, s, Closure(big, s));
  }

  /** The vertices reachable from `s` in at most `n` edges. */
  function Within<V>(es: set<(V, V)>, s: set<V>, n: nat): (r: set<V>)
    ensures s <= r
  {
    if n == 0 then s
    else Within(es, s, n - 1) + Step(es, Within(es, s, n - 1))
  }

  /** A bounded neighbourhood lies inside the closure. */
  lemma {:induction false} WithinClosure<V>(es: set<(V, V)>, s: set<V>, n: nat)
    ensures Within(es, s, n) <= Closure(es, s)
  {
    if n > 0 {
      WithinClosure(es, s, n - 1);
    }
  }

  /** Allowing more edges never shrinks a bounded neighbourhood. */
  lemma {:induction false} WithinMonotone<V>(es: set<(V, V)>, s: set<V>, m: nat, n: nat)
    requires m <= n
    ensures Within(es, s, m) <= Within(es, s, n)
    decreases n
  {
    if m < n {
      WithinMonotone(es, s, m, n - 1);
      var prev := Within(es, s, n - 1);
      assert Within(es, s, n) == prev + Step(es, prev);
    }
  }

  /** The strongly connected component of `u` among `nodes`. */
  function SccOf<V(==)>(es: set<(V, V)>, nodes: set<V>, u: V): (c: set<V>)
    ensures c <= nodes
  {
    set w | w in nodes && Reaches(es, u, w) && Reaches(es, w, u)
  }

  /** A vertex of `nodes` belongs to its own component, and components do not overlap. */
  lemma SccPartition<V>(es: set<(V, V)>, nodes: set<V>, u: V, w: V)
    requires u in nodes
    ensures u in SccOf(es, nodes, u)
    ensures w in SccOf(es, nodes, u) ==> SccOf(es, nodes, w) == SccOf(es, nodes, u)
  {
    if w in SccOf(es, nodes, u) {
      forall x | x in SccOf(es, nodes, w)
        ensures x in SccOf(es, nodes, u)
      {
        ReachesTrans(es, u, w, x);
        ReachesTrans(es, x, w, u);
      }
      forall x | x in SccOf(es, nodes, u)
        ensures x in SccOf(es, nodes, w)
      {
        ReachesTrans(es, w, u, x);
        ReachesTrans(es, x, u, w);
      }
    }
  }
}
