/** Sequences read as ordered collections without repeats: node lists, column lists. */
module Seqs {

  predicate Distinct<T(==)>(xs: seq<T>)
  {
    forall i, j :: 0 <= i < j < |xs| ==> xs[i] != xs[j]
  }

  function Elems<T>(xs: seq<T>): set<T>
  {
    set x | x in xs
  }

  /** `xs` followed by those of `ys` not already present, in order of first appearance. */
  function AddNew<T(==, !new)>(xs: seq<T>, ys: seq<T>): (r: seq<T>)
    requires Distinct(xs)
    ensures Distinct(r) && xs <= r
    ensures forall x :: x in r <==> x in xs || x in ys
  {
    if ys == [] then xs
    else
      var rest := AddNew(xs, ys[..|ys| - 1]);
      var y := ys[|ys| - 1];
      if y in rest then rest else rest + [y]
  }
}
