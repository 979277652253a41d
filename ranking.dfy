/**
 * The ranking both centrality scripts apply to betweenness shares:
 * pandas' `rank(method='min', ascending=False)`. A subject's rank is one plus
 * the number of subjects with a strictly greater share, so tied subjects
 * share the lowest rank their group could take.
 */
module Ranking {

  /** Number of entries of `s` strictly greater than `x`. */
  function CountAbove(s: seq<real>, x: real): (n: nat)
    ensures n <= |s|
  {
    if s == [] then 0
    else CountAbove(s[..|s| - 1], x) + (if s[|s| - 1] > x then 1 else 0)
  }

  /** The "min" descending rank of share `x` among `s`. */
  function MinRank(s: seq<real>, x: real): nat
  {
    1 + CountAbove(s, x)
  }

  /**
   * Ranks every share, as `df['shortest_path_share'].rank(method='min',
   * ascending=False)` does: each rank is one plus the count of strictly
   * greater shares, so equal shares get equal ranks.
   */
  method RankMinDescending(s: seq<real>) returns (r: seq<nat>)
    ensures |r| == |s|
    ensures forall i :: 0 <= i < |s| ==> r[i] == MinRank(s, s[i])
    ensures forall i, j :: 0 <= i < |s| && 0 <= j < |s| && s[i] == s[j] ==> r[i] == r[j]
  {
    r := [];
    for i := 0 to |s|
      invariant |r| == i
      invariant forall k :: 0 <= k < i ==> r[k] == MinRank(s, s[k])
    {
      var above := 0;
      for j := 0 to |s|
        invariant above == CountAbove(s[..j], s[i])
      {
        assert s[..j + 1][..j] == s[..j];
        if s[j] > s[i] {
          above := above + 1;
        }
      }
      assert s[..|s|] == s;
      r := r + [1 + above];
    }
  }

  /** Raising the threshold never increases the count above it. */
  lemma {:induction false} CountAboveAntitone(s: seq<real>, x: real, y: real)
    requires x <= y
    ensures CountAbove(s, y) <= CountAbove(s, x)
  {
    if s != [] {
      CountAboveAntitone(s[..|s| - 1], x, y);
    }
  }

  /**
   * A threshold below some entry `y` of `s` counts that entry, which a
   * threshold at `y` does not: the count drops by at least one.
   */
  lemma {:induction false} CountAboveDropsPastEntry(s: seq<real>, x: real, y: real)
    requires x < y && y in s
    ensures CountAbove(s, y) + 1 <= CountAbove(s, x)
  {
    var init := s[..|s| - 1];
    if s[|s| - 1] == y {
      CountAboveAntitone(init, x, y);
    } else {
      assert y in init;
      CountAboveDropsPastEntry(init, x, y);
    }
  }

  /**
   * Subject j is ranked strictly ahead of subject i exactly when its share
   * is strictly greater: ties never separate, and greater shares always do.
   */
  lemma RankOrder(s: seq<real>, i: nat, j: nat)
    requires i < |s| && j < |s|
    ensures MinRank(s, s[j]) < MinRank(s, s[i]) <==> s[j] > s[i]
  {
    if s[j] > s[i] {
      CountAboveDropsPastEntry(s, s[i], s[j]);
    } else {
      CountAboveAntitone(s, s[j], s[i]);
    }
  }

  /** Every rank lies between 1 and the number of subjects. */
  lemma {:induction false} RankBounds(s: seq<real>, i: nat)
    requires i < |s|
    ensures 1 <= MinRank(s, s[i]) <= |s|
  {
    var init := s[..|s| - 1];
    if i < |s| - 1 {
      assert s[i] == init[i];
      RankBounds(init, i);
    } else {
      assert CountAbove(init, s[i]) <= |init|;
    }
  }

  /** Rank 1 goes exactly to the subjects holding the largest share. */
  lemma {:induction false} RankOneIsMaximum(s: seq<real>, i: nat)
    requires i < |s|
    ensures MinRank(s, s[i]) == 1 <==> forall j :: 0 <= j < |s| ==> s[j] <= s[i]
  {
    if exists j :: 0 <= j < |s| && s[j] > s[i] {
      var j :| 0 <= j < |s| && s[j] > s[i];
      RankOrder(s, i, j);
      RankBounds(s, j);
    } else {
      ZeroAbove(s, s[i]);
    }
  }

  /** Nothing above the threshold counts as nothing. */
  lemma {:induction false} ZeroAbove(s: seq<real>, x: real)
    requires forall j :: 0 <= j < |s| ==> s[j] <= x
    ensures CountAbove(s, x) == 0
  {
    if s != [] {
      ZeroAbove(s[..|s| - 1], x);
    }
  }
}
