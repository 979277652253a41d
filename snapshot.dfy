/**
 * The channel snapshot every analysis reads: one row per direction of a
 * payment channel, as gossiped in a `channel_update` message (BOLT #7), and
 * the two per-amount rules all scripts share: the routing fee and the HTLC
 * bounds test.
 */
module Snapshot {

  /** A node's public key, as it appears in the `source`/`destination` columns. */
  type NodeId = string

  /**
   * One row of the channels table. The amounts are the columns of the same
   * name: fees in millisatoshi and parts per million, HTLC bounds in
   * millisatoshi, the channel capacity in satoshi.
   */
  datatype Channel = Channel(
    source: NodeId,
    destination: NodeId,
    shortChannelId: string,
    active: bool,
    baseFeeMsat: nat,
    feePerMillionth: nat,
    htlcMinimumMsat: int,
    htlcMaximumMsat: int,
    satoshis: nat)

  /**
   * The fee, in millisatoshi, that the channel's source charges to forward
   * `txSat` satoshi: fee_base_msat + amount_msat * fee_proportional_millionths / 10^6
   * (section "The channel_update Message" of BOLT #7), as an exact rational.
   */
  function Bolt7Fee(c: Channel, txSat: nat): (fee: real)
    ensures fee >= c.baseFeeMsat as real
    ensures txSat == 0 || c.feePerMillionth == 0 ==> fee == c.baseFeeMsat as real
  {
    c.baseFeeMsat as real + (txSat * 1000) as real * (c.feePerMillionth as real / 1000000.0)
  }

  /**
   * Rounding the BOLT #7 fee down is plain integer arithmetic: no rational
   * is needed to compute it.
   */
  lemma Bolt7FeeFloor(c: Channel, txSat: nat)
    ensures Bolt7Fee(c, txSat).Floor == c.baseFeeMsat + txSat * c.feePerMillionth / 1000
  {
    var n := txSat * c.feePerMillionth;
    var q, m := n / 1000, n % 1000;
    assert n == 1000 * q + m;
    assert (txSat * 1000) as real * (c.feePerMillionth as real / 1000000.0) == n as real / 1000.0;
    assert n as real / 1000.0 == q as real + m as real / 1000.0;
    assert 0.0 <= m as real / 1000.0 < 1.0;
  }

  /**
   * The HTLC bounds test of the centrality scripts: the amount in
   * millisatoshi must lie strictly between the channel's minimum and maximum.
   */
  predicate HtlcAdmits(c: Channel, txSat: nat)
  {
    c.htlcMinimumMsat < txSat * 1000 < c.htlcMaximumMsat
  }

  /** An amount equal to either bound is refused: the test is strict at both ends. */
  lemma HtlcBoundsAreExclusive(c: Channel, txSat: nat)
    requires txSat * 1000 == c.htlcMinimumMsat || txSat * 1000 == c.htlcMaximumMsat
    ensures !HtlcAdmits(c, txSat)
  {
  }

  /** Python's `int()` on a rational: truncation toward zero. */
  function Trunc(x: real): (r: int)
    ensures x >= 0.0 ==> r as real <= x < r as real + 1.0
    ensures x < 0.0 ==> r as real - 1.0 < x <= r as real
  {
    if x >= 0.0 then x.Floor else -((-x).Floor)
  }

  /**
   * The transaction sizes both centrality scripts analyse, by name and in
   * satoshi, in the order they are processed.
   */
  const TxTypes: seq<(string, nat)> := [("common", 80000), ("micro", 200), ("macro", 4000000)]

  /** The channels whose `active` flag is set, in snapshot order. */
  function Active(cs: seq<Channel>): (r: seq<Channel>)
    ensures |r| <= |cs|
    ensures forall c :: c in r <==> c in cs && c.active
  {
    if cs == [] then []
    else Active(cs[..|cs| - 1]) + (if cs[|cs| - 1].active then [cs[|cs| - 1]] else [])
  }

  /** The mask keeps each active row as often as the table holds it, and no inactive row. */
  lemma {:induction false} ActiveCounts(cs: seq<Channel>)
    ensures forall c :: multiset(Active(cs))[c] == if c.active then multiset(cs)[c] else 0
  {
    if cs != [] {
      var init, last := cs[..|cs| - 1], cs[|cs| - 1];
      ActiveCounts(init);
      assert cs == init + [last];
      assert Active(cs) == Active(init) + (if last.active then [last] else []);
    }
  }
}
