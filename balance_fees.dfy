/**
 * `update_fees` of `5satoshi/fee-updates.py`: for every channel in normal
 * operation, a fee rate from the share of the channel's funds on our side,
 * a randomised HTLC maximum below our balance, and the condition under which
 * the node is told to apply them with `setchannel` or, in test mode, they are
 * only printed. Amounts are millisatoshi; the float arithmetic of the script
 * is taken as exact rational arithmetic.
 */
module BalanceFees {
  import opened Wrappers
  import opened Snapshot
  import Arith

  /** One row of `listpeerchannels`: the columns `update_fees` reads. */
  datatype PeerChannel = PeerChannel(
    state: string,
    channelId: string,
    toUsMsat: nat,
    totalMsat: nat,
    feePpm: nat,
    maxHtlcOutMsat: int)

  /** The arguments of one `setchannel` call (or of the line test mode prints instead). */
  datatype Update = Update(channelId: string, feeBase: nat, feePpm: nat, htlcMax: int)

  const Normal := "CHANNELD_NORMAL"

  /** The cap on the fee rate, in parts per million. */
  const MaxPpm: nat := 10000

  /** `balance = (msat_to_us + 1) / msat_total`. */
  function Balance(toUs: nat, total: nat): real
    requires total > 0
  {
    (toUs + 1) as real / total as real
  }

  /** `pow(math.floor(1 / balance), 2)`, capped at 10000. */
  function NewPpm(toUs: nat, total: nat): (ppm: nat)
    requires total > 0
    ensures ppm <= MaxPpm
  {
    var f := (1.0 / Balance(toUs, total)).Floor;
    assert f >= 0;
    var sq := f * f;
    if sq > MaxPpm then MaxPpm else sq
  }

  /** The rate rule needs no rationals: the square of total / (to_us + 1) in integer division, capped. */
  lemma NewPpmIsQuotientSquared(toUs: nat, total: nat)
    requires total > 0
    ensures var q := total / (toUs + 1);
      NewPpm(toUs, total) == if q * q > MaxPpm then MaxPpm else q * q
  {
    var d := toUs + 1;
    assert 1.0 / Balance(toUs, total) == total as real / d as real;
    Arith.FloorOfRatio(total, d);
  }

  /** The more of the channel's funds are on our side, the lower the rate. */
  lemma NewPpmAntitone(less: nat, more: nat, total: nat)
    requires total > 0 && less <= more
    ensures NewPpm(more, total) <= NewPpm(less, total)
  {
    NewPpmIsQuotientSquared(less, total);
    NewPpmIsQuotientSquared(more, total);
    var qa, qb := total / (less + 1), total / (more + 1);
    Arith.DivAntitone(total, less + 1, more + 1);
    Arith.SquareMonotone(qb, qa);
  }

  /** Once our side holds more than the whole channel minus one msat (`balance > 1`), the rate is zero. */
  lemma NewPpmZeroWhenFull(toUs: nat, total: nat)
    requires total > 0 && toUs + 1 > total
    ensures NewPpm(toUs, total) == 0
  {
    NewPpmIsQuotientSquared(toUs, total);
  }

  /**
   * `int(msat_to_us - random.random() * 0.1 * msat_total)`, replaced by
   * `msat_to_us` when negative; `r` is the random draw.
   */
  function NewHtlcMax(toUs: nat, total: nat, r: real): int
  {
    var t := Trunc(toUs as real - r * 0.1 * total as real);
    if t < 0 then toUs else t
  }

  /**
   * For a draw in [0, 1) the new HTLC maximum is never negative, never above
   * our balance, and less than one msat below to_us - total / 10.
   */
  lemma NewHtlcMaxBounds(toUs: nat, total: nat, r: real)
    requires 0.0 <= r < 1.0
    ensures 0 <= NewHtlcMax(toUs, total, r) <= toUs
    ensures NewHtlcMax(toUs, total, r) as real > toUs as real - total as real / 10.0 - 1.0
  {
    var s := 0.1 * total as real;
    Arith.FractionOf(r, s);
    assert r * 0.1 * total as real == r * s;
    var x := toUs as real - r * s;
    assert s == total as real / 10.0;
    assert x >= toUs as real - s;
    var t := Trunc(x);
    if t >= 0 {
      assert t as real > x - 1.0;
    }
  }

  /** The `if` of line 34: the HTLC maximum is out of band, `update_all` is set, or `balance > 1`. */
  predicate NeedsUpdate(c: PeerChannel, updateAll: bool)
    requires c.totalMsat > 0
  {
    || c.toUsMsat as real - 0.1 * c.totalMsat as real > c.maxHtlcOutMsat as real
    || c.toUsMsat < c.maxHtlcOutMsat
    || updateAll
    || Balance(c.toUsMsat, c.totalMsat) > 1.0
  }

  /**
   * A channel is left alone exactly when `update_all` is off, our balance
   * plus one msat does not exceed the total, and the HTLC maximum lies in
   * the band from to_us - total / 10 up to to_us.
   */
  lemma LeftAloneExactly(c: PeerChannel, updateAll: bool)
    requires c.totalMsat > 0
    ensures !NeedsUpdate(c, updateAll) <==>
      && !updateAll
      && c.toUsMsat + 1 <= c.totalMsat
      && c.toUsMsat as real - c.totalMsat as real / 10.0 <= c.maxHtlcOutMsat as real
      && c.maxHtlcOutMsat <= c.toUsMsat
  {
    var t := c.totalMsat as real;
    assert Balance(c.toUsMsat, c.totalMsat) > 1.0 <==> (c.toUsMsat + 1) as real > t;
  }

  /** The update a channel gets: base fee 0, the balance rate and the new HTLC maximum. */
  function UpdateOf(c: PeerChannel, r: real): Update
    requires c.totalMsat > 0
  {
    Update(c.channelId, 0, NewPpm(c.toUsMsat, c.totalMsat), NewHtlcMax(c.toUsMsat, c.totalMsat, r))
  }

  /**
   * One pass of the loop over the rows: nothing for a channel not in normal
   * operation, ZeroDivisionError for a normal channel with a zero total,
   * otherwise the update when the condition holds.
   */
  function Decide(c: PeerChannel, updateAll: bool, r: real): Result<Option<Update>, string>
  {
    if c.state != Normal then Success(None)
    else if c.totalMsat == 0 then Failure("ZeroDivisionError")
    else if NeedsUpdate(c, updateAll) then Success(Some(UpdateOf(c, r)))
    else Success(None)
  }

  /**
   * The loop as a value: the updates issued, in row order, and the exception
   * that stopped it, if one did; `draws[i]` is the draw of row `i`.
   */
  function Planned(rows: seq<PeerChannel>, updateAll: bool, draws: seq<real>): (p: (seq<Update>, Option<string>))
    requires |draws| == |rows|
  {
    if rows == [] then ([], None)
    else
      var n := |rows| - 1;
      var prev := Planned(rows[..n], updateAll, draws[..n]);
      if prev.1.Some? then prev
      else match Decide(rows[n], updateAll, draws[n])
        case Failure(e) => (prev.0, Some(e))
        case Success(None) => prev
        case Success(Some(u)) => (prev.0 + [u], None)
  }

  /** One more row extends the plan by that row's decision. */
  lemma PlannedStep(rows: seq<PeerChannel>, updateAll: bool, draws: seq<real>, k: nat)
    requires |draws| == |rows| && k < |rows|
    ensures var prev := Planned(rows[..k], updateAll, draws[..k]);
      Planned(rows[..k + 1], updateAll, draws[..k + 1]) ==
        if prev.1.Some? then prev
        else match Decide(rows[k], updateAll, draws[k])
          case Failure(e) => (prev.0, Some(e))
          case Success(None) => prev
          case Success(Some(u)) => (prev.0 + [u], None)
  {
    assert rows[..k + 1][..k] == rows[..k];
    assert draws[..k + 1][..k] == draws[..k];
  }

  /** After an exception the remaining rows are never looked at. */
  lemma {:induction false} PlannedStops(rows: seq<PeerChannel>, updateAll: bool, draws: seq<real>, j: nat)
    requires |draws| == |rows| && j <= |rows| && Planned(rows[..j], updateAll, draws[..j]).1.Some?
    ensures Planned(rows, updateAll, draws) == Planned(rows[..j], updateAll, draws[..j])
    decreases |rows|
  {
    if j < |rows| {
      var n := |rows| - 1;
      assert rows[..n][..j] == rows[..j];
      assert draws[..n][..j] == draws[..j];
      PlannedStops(rows[..n], updateAll, draws[..n], j);
    } else {
      assert rows[..j] == rows && draws[..j] == draws;
    }
  }

  /**
   * `update_fees`: in test mode every update is printed and `setchannel` is
   * never called; otherwise every update is a `setchannel` call. A
   * ZeroDivisionError ends the loop.
   */
  method UpdateFees(rows: seq<PeerChannel>, test: bool, updateAll: bool, draws: seq<real>)
    returns (calls: seq<Update>, printed: seq<Update>, error: Option<string>)
    requires |draws| == |rows|
    ensures test ==> calls == [] && (printed, error) == Planned(rows, updateAll, draws)
    ensures !test ==> printed == [] && (calls, error) == Planned(rows, updateAll, draws)
  {
    var issued: seq<Update> := [];
    for k := 0 to |rows|
      invariant (issued, None) == Planned(rows[..k], updateAll, draws[..k])
    {
      PlannedStep(rows, updateAll, draws, k);
      var c := rows[k];
      if c.state == Normal {
        if c.totalMsat == 0 {
          PlannedStops(rows, updateAll, draws, k + 1);
          error := Some("ZeroDivisionError");
          if test {
            return [], issued, error;
          }
          return issued, [], error;
        }
        var newFee := NewPpm(c.toUsMsat, c.totalMsat);
        var newHtlcMax := NewHtlcMax(c.toUsMsat, c.totalMsat, draws[k]);
        if NeedsUpdate(c, updateAll) {
          issued := issued + [Update(c.channelId, 0, newFee, newHtlcMax)];
        }
      }
    }
    assert rows[..|rows|] == rows && draws[..|draws|] == draws;
    error := None;
    if test {
      calls, printed := [], issued;
    } else {
      calls, printed := issued, [];
    }
  }

  /**
   * Every update issued comes from a normal channel that met the condition,
   * and is that channel's update: base fee 0, the balance rate, the new HTLC
   * maximum for its draw.
   */
  lemma {:induction false} PlannedSound(rows: seq<PeerChannel>, updateAll: bool, draws: seq<real>, u: Update)
    requires |draws| == |rows| && u in Planned(rows, updateAll, draws).0
    ensures exists i :: 0 <= i < |rows| && rows[i].state == Normal && rows[i].totalMsat > 0 &&
                        NeedsUpdate(rows[i], updateAll) && u == UpdateOf(rows[i], draws[i])
  {
    var n := |rows| - 1;
    var prev := Planned(rows[..n], updateAll, draws[..n]);
    if u in prev.0 {
      PlannedSound(rows[..n], updateAll, draws[..n], u);
      var i :| 0 <= i < n && rows[..n][i].state == Normal && rows[..n][i].totalMsat > 0 &&
        NeedsUpdate(rows[..n][i], updateAll) && u == UpdateOf(rows[..n][i], draws[..n][i]);
      assert rows[..n][i] == rows[i] && draws[..n][i] == draws[i];
    } else {
      assert u == UpdateOf(rows[n], draws[n]);
    }
  }

  /**
   * When the loop runs to the end, every normal channel that meets the
   * condition gets its update.
   */
  lemma {:induction false} PlannedComplete(rows: seq<PeerChannel>, updateAll: bool, draws: seq<real>, i: nat)
    requires |draws| == |rows| && Planned(rows, updateAll, draws).1.None?
    requires i < |rows| && rows[i].state == Normal
    ensures rows[i].totalMsat > 0
    ensures NeedsUpdate(rows[i], updateAll) ==> UpdateOf(rows[i], draws[i]) in Planned(rows, updateAll, draws).0
  {
    var n := |rows| - 1;
    var prev := Planned(rows[..n], updateAll, draws[..n]);
    assert prev.1.None?;
    if i < n {
      assert rows[..n][i] == rows[i] && draws[..n][i] == draws[i];
      PlannedComplete(rows[..n], updateAll, draws[..n], i);
    }
  }

  /** The loop stops exactly at a normal channel whose total is zero. */
  lemma {:induction false} PlannedFails(rows: seq<PeerChannel>, updateAll: bool, draws: seq<real>)
    requires |draws| == |rows|
    ensures Planned(rows, updateAll, draws).1.Some? <==>
      exists i :: 0 <= i < |rows| && rows[i].state == Normal && rows[i].totalMsat == 0
    ensures Planned(rows, updateAll, draws).1.Some? ==> Planned(rows, updateAll, draws).1.value == "ZeroDivisionError"
  {
    if rows != [] {
      var n := |rows| - 1;
      PlannedFails(rows[..n], updateAll, draws[..n]);
      if exists i :: 0 <= i < n && rows[..n][i].state == Normal && rows[..n][i].totalMsat == 0 {
        var i :| 0 <= i < n && rows[..n][i].state == Normal && rows[..n][i].totalMsat == 0;
        assert rows[i] == rows[..n][i];
      }
      if exists i :: 0 <= i < |rows| && rows[i].state == Normal && rows[i].totalMsat == 0 {
        var i :| 0 <= i < |rows| && rows[i].state == Normal && rows[i].totalMsat == 0;
        if i < n {
          assert rows[..n][i] == rows[i];
        }
      }
    }
  }

  /**
   * With draws from `random.random()`, every issued update keeps the base
   * fee at 0, the rate at most 10000 ppm, and the HTLC maximum between 0 and
   * the channel's balance on our side.
   */
  lemma PlannedBounded(rows: seq<PeerChannel>, updateAll: bool, draws: seq<real>, u: Update)
    requires |draws| == |rows| && forall i :: 0 <= i < |draws| ==> 0.0 <= draws[i] < 1.0
    requires u in Planned(rows, updateAll, draws).0
    ensures u.feeBase == 0 && u.feePpm <= MaxPpm
    ensures exists i :: 0 <= i < |rows| && rows[i].channelId == u.channelId && 0 <= u.htlcMax <= rows[i].toUsMsat
  {
    PlannedSound(rows, updateAll, draws, u);
    var i :| 0 <= i < |rows| && rows[i].state == Normal && rows[i].totalMsat > 0 &&
      NeedsUpdate(rows[i], updateAll) && u == UpdateOf(rows[i], draws[i]);
    NewHtlcMaxBounds(rows[i].toUsMsat, rows[i].totalMsat, draws[i]);
  }
}
