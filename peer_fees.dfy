/**
 * `fee-updates/fee-updates.py`: for every peer, the first channel's fee rate
 * from the share of its funds on our side, and a `setchannelfee` call with
 * base fee 0 whenever the rate differs from the current one. Amounts are
 * millisatoshi; the float arithmetic of the script is taken as exact
 * rational arithmetic.
 */
module PeerFees {
  import opened Wrappers
  import Arith

  /** The fields of a peer's channel the script reads. */
  datatype PeerChan = PeerChan(channelId: string, toUsMsat: nat, totalMsat: nat, feePpm: nat)

  /** One row of `listpeers`: the peer's channels, in the order listed. */
  datatype Peer = Peer(channels: seq<PeerChan>)

  /** The arguments of one `setchannelfee(channel_id, base, ppm)` call. */
  datatype FeeCall = SetChannelFee(channelId: string, base: nat, ppm: int)

  /** `factor = 0.95`. */
  const Factor: real := 0.95

  /** `balance = msat_to_us / (msat_total + 1)`. */
  function Balance(toUs: nat, total: nat): real
  {
    toUs as real / (total + 1) as real
  }

  /** `256 * pow(math.floor(1 / (balance * factor)), 2) - 1`; a zero balance divides by zero. */
  function NewFee(toUs: nat, total: nat): int
    requires toUs > 0
  {
    var f := (1.0 / (Balance(toUs, total) * Factor)).Floor;
    256 * f * f - 1
  }

  /** The floor in the rule, in integers: 20 (total + 1) / (19 to_us). */
  function Quotient(toUs: nat, total: nat): nat
    requires toUs > 0
  {
    Arith.Div(20 * (total + 1), 19 * toUs)
  }

  /** The rule needs no rationals: 256 times the square of the integer quotient, minus one. */
  lemma NewFeeIsQuotient(toUs: nat, total: nat)
    requires toUs > 0
    ensures NewFee(toUs, total) == 256 * Quotient(toUs, total) * Quotient(toUs, total) - 1
  {
    var n, d := 20 * (total + 1), 19 * toUs;
    var x, y := toUs as real, (total + 1) as real;
    var b := Balance(toUs, total);
    assert b * y == x;
    var r := 1.0 / (b * Factor);
    assert r * (b * Factor) == 1.0;
    assert 19.0 * x == 20.0 * y * (b * Factor);
    assert r * (19.0 * x) == 20.0 * y;
    assert r == n as real / d as real;
    Arith.FloorOfRatio(n, d);
  }

  /**
   * While our side holds no more than the whole channel the floor is at
   * least 1, so the rate is at least 255; it is always one less than 256
   * times a square.
   */
  lemma NewFeeAtLeast255(toUs: nat, total: nat)
    requires 0 < toUs <= total
    ensures NewFee(toUs, total) >= 255
    ensures (NewFee(toUs, total) + 1) % 256 == 0
  {
    NewFeeIsQuotient(toUs, total);
    var q := Quotient(toUs, total);
    Arith.QuotientIsLargest(20 * (total + 1), 19 * toUs, 1);
    ScaledSquareMonotone(1, q);
  }

  /** The more of the channel's funds are on our side, the lower the rate. */
  lemma NewFeeAntitone(less: nat, more: nat, total: nat)
    requires 0 < less <= more
    ensures NewFee(more, total) <= NewFee(less, total)
  {
    NewFeeIsQuotient(less, total);
    NewFeeIsQuotient(more, total);
    QuotientAntitone(less, more, total);
    ScaledSquareMonotone(Quotient(more, total), Quotient(less, total));
  }

  lemma QuotientAntitone(less: nat, more: nat, total: nat)
    requires 0 < less <= more
    ensures Quotient(more, total) <= Quotient(less, total)
  {
    var a, b := 19 * less, 19 * more;
    Arith.DivAntitone(20 * (total + 1), a, b);
  }

  /** Rates of the form 256 q^2 - 1 grow with q, and are one less than a multiple of 256. */
  lemma ScaledSquareMonotone(x: nat, y: nat)
    requires x <= y
    ensures 256 * x * x - 1 <= 256 * y * y - 1
    ensures (256 * y * y) % 256 == 0
  {
    Arith.SquareMonotone(x, y);
    var sx, sy := x * x, y * y;
    assert 256 * x * x == 256 * sx && 256 * y * y == 256 * sy;
  }

  /**
   * One pass of the loop: IndexError for a peer without channels,
   * ZeroDivisionError when the first channel has nothing on our side,
   * otherwise a call exactly when the current rate differs from the new one.
   */
  function Decide(p: Peer): Result<Option<FeeCall>, string>
  {
    if p.channels == [] then Failure("IndexError")
    else
      var c := p.channels[0];
      if c.toUsMsat == 0 then Failure("ZeroDivisionError")
      else if c.feePpm != NewFee(c.toUsMsat, c.totalMsat) then Success(Some(SetChannelFee(c.channelId, 0, NewFee(c.toUsMsat, c.totalMsat))))
      else Success(None)
  }

  /** The loop as a value: the calls made, in peer order, and the exception that stopped it, if one did. */
  function Planned(peers: seq<Peer>): (seq<FeeCall>, Option<string>)
  {
    if peers == [] then ([], None)
    else
      var n := |peers| - 1;
      var prev := Planned(peers[..n]);
      if prev.1.Some? then prev
      else match Decide(peers[n])
        case Failure(e) => (prev.0, Some(e))
        case Success(None) => prev
        case Success(Some(call)) => (prev.0 + [call], None)
  }

  /** One more peer extends the plan by that peer's decision. */
  lemma PlannedStep(peers: seq<Peer>, k: nat)
    requires k < |peers|
    ensures var prev := Planned(peers[..k]);
      Planned(peers[..k + 1]) ==
        if prev.1.Some? then prev
        else match Decide(peers[k])
          case Failure(e) => (prev.0, Some(e))
          case Success(None) => prev
          case Success(Some(call)) => (prev.0 + [call], None)
  {
    assert peers[..k + 1][..k] == peers[..k];
  }

  /** After an exception the remaining peers are never looked at. */
  lemma {:induction false} PlannedStops(peers: seq<Peer>, j: nat)
    requires j <= |peers| && Planned(peers[..j]).1.Some?
    ensures Planned(peers) == Planned(peers[..j])
    decreases |peers|
  {
    if j < |peers| {
      var n := |peers| - 1;
      assert peers[..n][..j] == peers[..j];
      PlannedStops(peers[..n], j);
    } else {
      assert peers[..j] == peers;
    }
  }

  /** The script's loop over the peers, making each `setchannelfee` call it decides on. */
  method UpdatePeerFees(peers: seq<Peer>) returns (calls: seq<FeeCall>, error: Option<string>)
    ensures (calls, error) == Planned(peers)
  {
    calls := [];
    for k := 0 to |peers|
      invariant (calls, None) == Planned(peers[..k])
    {
      PlannedStep(peers, k);
      if |peers[k].channels| == 0 {
        PlannedStops(peers, k + 1);
        return calls, Some("IndexError");
      }
      var c := peers[k].channels[0];
      if c.toUsMsat == 0 {
        PlannedStops(peers, k + 1);
        return calls, Some("ZeroDivisionError");
      }
      var newFee := NewFee(c.toUsMsat, c.totalMsat);
      if c.feePpm != newFee {
        calls := calls + [SetChannelFee(c.channelId, 0, newFee)];
      }
    }
    assert peers[..|peers|] == peers;
    error := None;
  }

  /**
   * Every call sets base fee 0 and the new rate of a peer's first channel,
   * and is made only when that rate differs from the current one.
   */
  lemma {:induction false} PlannedSound(peers: seq<Peer>, call: FeeCall)
    requires call in Planned(peers).0
    ensures call.base == 0
    ensures exists i :: 0 <= i < |peers| && |peers[i].channels| > 0 && peers[i].channels[0].toUsMsat > 0 &&
                        var c := peers[i].channels[0];
                        call == SetChannelFee(c.channelId, 0, NewFee(c.toUsMsat, c.totalMsat)) &&
                        c.feePpm != NewFee(c.toUsMsat, c.totalMsat)
  {
    var n := |peers| - 1;
    var prev := Planned(peers[..n]);
    if call in prev.0 {
      PlannedSound(peers[..n], call);
      var i :| 0 <= i < n && |peers[..n][i].channels| > 0 && peers[..n][i].channels[0].toUsMsat > 0 &&
               var c := peers[..n][i].channels[0];
               call == SetChannelFee(c.channelId, 0, NewFee(c.toUsMsat, c.totalMsat)) &&
               c.feePpm != NewFee(c.toUsMsat, c.totalMsat);
      assert peers[..n][i] == peers[i];
    }
  }

  /**
   * When the loop runs to the end, every peer whose first channel's rate
   * differs from its new rate gets its call.
   */
  lemma {:induction false} PlannedComplete(peers: seq<Peer>, i: nat)
    requires Planned(peers).1.None? && i < |peers|
    ensures |peers[i].channels| > 0 && peers[i].channels[0].toUsMsat > 0
    ensures var c := peers[i].channels[0];
      c.feePpm != NewFee(c.toUsMsat, c.totalMsat) ==>
        SetChannelFee(c.channelId, 0, NewFee(c.toUsMsat, c.totalMsat)) in Planned(peers).0
  {
    var n := |peers| - 1;
    assert Planned(peers[..n]).1.None?;
    if i < n {
      assert peers[..n][i] == peers[i];
      PlannedComplete(peers[..n], i);
    }
  }

  /** The loop stops exactly at a peer without channels or with nothing on our side of its first channel. */
  lemma {:induction false} PlannedFails(peers: seq<Peer>)
    ensures Planned(peers).1.Some? <==>
      exists i :: 0 <= i < |peers| && (|peers[i].channels| == 0 || peers[i].channels[0].toUsMsat == 0)
  {
    if peers != [] {
      var n := |peers| - 1;
      PlannedFails(peers[..n]);
      if exists i :: 0 <= i < n && (|peers[..n][i].channels| == 0 || peers[..n][i].channels[0].toUsMsat == 0) {
        var i :| 0 <= i < n && (|peers[..n][i].channels| == 0 || peers[..n][i].channels[0].toUsMsat == 0);
        assert peers[i] == peers[..n][i];
      }
      if exists i :: 0 <= i < |peers| && (|peers[i].channels| == 0 || peers[i].channels[0].toUsMsat == 0) {
        var i :| 0 <= i < |peers| && (|peers[i].channels| == 0 || peers[i].channels[0].toUsMsat == 0);
        if i < n {
          assert peers[..n][i] == peers[i];
        }
      }
    }
  }
}
