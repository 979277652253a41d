/**
 * The closure report: every channel of every peer that is not in normal
 * operation becomes a closure record with 'unknown' for what its
 * `close_info` lacks. The records are sorted by closing time, latest first,
 * and the first few are reported.
 */
module ClosureReport {
  import opened Wrappers

  const Normal: string := "CHANNELD_NORMAL"
  const Unknown: string := "unknown"

  /**
   * A channel's `close_info` object: the three keys the report reads, and
   * how many other keys it has.
   */
  datatype CloseInfo = CloseInfo(closer: Option<string>, reason: Option<string>, closedAt: Option<int>, otherKeys: nat)

  /** One entry of a peer's `channels`, with the keys the report reads; absent keys are `None`. */
  datatype PeerChannel = PeerChannel(channel: Option<string>, state: Option<string>, closeInfo: Option<CloseInfo>)

  /** One entry of `listpeers`; `None` when it has no `channels` key. */
  datatype Peer = Peer(channels: Option<seq<PeerChannel>>)

  /** The text shown for the closing time: 'unknown', or that instant formatted in UTC. */
  datatype ClosedAtText = UnknownTime | Utc(seconds: int)

  datatype ClosureRecord = ClosureRecord(
    shortChannelId: string,
    state: Option<string>,
    closer: string,
    reason: string,
    closedAt: Option<int>,
    closedAtStr: ClosedAtText)

  /** Python's truth value of a `close_info` value: present and not an empty object. */
  predicate Truthy(ci: Option<CloseInfo>)
  {
    ci.Some? && (ci.value.closer.Some? || ci.value.reason.Some? || ci.value.closedAt.Some? || ci.value.otherKeys > 0)
  }

  function GetOr(v: Option<string>, default: string): string
  {
    if v.Some? then v.value else default
  }

  /** `parse_close_info`: the record for one channel, or `None` when it has no usable `close_info`. */
  function ParseCloseInfo(ch: PeerChannel): (r: Option<ClosureRecord>)
    ensures r.None? <==> !Truthy(ch.closeInfo)
    ensures r.Some? ==> r.value.state == ch.state && r.value.closedAt == ch.closeInfo.value.closedAt
    ensures r.Some? ==> r.value.shortChannelId == if ch.channel.Some? then ch.channel.value else Unknown
    ensures r.Some? ==> r.value.closer == if ch.closeInfo.value.closer.Some? then ch.closeInfo.value.closer.value else Unknown
    ensures r.Some? ==> r.value.reason == if ch.closeInfo.value.reason.Some? then ch.closeInfo.value.reason.value else Unknown
    ensures r.Some? ==> (r.value.closedAtStr == UnknownTime <==> r.value.closedAt.None? || r.value.closedAt == Some(0))
    ensures r.Some? && r.value.closedAtStr.Utc? ==> Some(r.value.closedAtStr.seconds) == r.value.closedAt
  {
    if !Truthy(ch.closeInfo) then None
    else
      var ci := ch.closeInfo.value;
      var text := if ci.closedAt.Some? && ci.closedAt.value != 0 then Utc(ci.closedAt.value) else UnknownTime;
      Some(ClosureRecord(GetOr(ch.channel, Unknown), ch.state, GetOr(ci.closer, Unknown), GetOr(ci.reason, Unknown), ci.closedAt, text))
  }

  /** `channel.get('state', '')`. */
  function StateOf(ch: PeerChannel): string
  {
    GetOr(ch.state, "")
  }

  /** `peer.get('channels', [])`. */
  function ChannelsOf(p: Peer): seq<PeerChannel>
  {
    if p.channels.Some? then p.channels.value else []
  }

  /** What the inner loop appends for `chans`: one entry per channel not in normal operation. */
  function CollectedFrom(chans: seq<PeerChannel>): (cs: seq<Option<ClosureRecord>>)
    ensures |cs| <= |chans|
  {
    if chans == [] then []
    else
      var n := |chans| - 1;
      CollectedFrom(chans[..n]) + (if StateOf(chans[n]) != Normal then [ParseCloseInfo(chans[n])] else [])
  }

  /** What both loops append, peer by peer. */
  function Collected(peers: seq<Peer>): seq<Option<ClosureRecord>>
  {
    if peers == [] then []
    else Collected(peers[..|peers| - 1]) + CollectedFrom(ChannelsOf(peers[|peers| - 1]))
  }

  /** Each channel not in normal operation contributes its entry. */
  lemma {:induction false} CollectedFromHas(chans: seq<PeerChannel>, k: nat)
    requires k < |chans| && StateOf(chans[k]) != Normal
    ensures ParseCloseInfo(chans[k]) in CollectedFrom(chans)
  {
    var n := |chans| - 1;
    if k < n {
      assert chans[..n][k] == chans[k];
      CollectedFromHas(chans[..n], k);
    }
  }

  /** Every entry collected comes from a channel not in normal operation. */
  lemma {:induction false} CollectedFromOrigin(chans: seq<PeerChannel>, x: Option<ClosureRecord>)
    requires x in CollectedFrom(chans)
    ensures exists k :: 0 <= k < |chans| && StateOf(chans[k]) != Normal && ParseCloseInfo(chans[k]) == x
  {
    var n := |chans| - 1;
    if x in CollectedFrom(chans[..n]) {
      CollectedFromOrigin(chans[..n], x);
      var k :| 0 <= k < n && StateOf(chans[..n][k]) != Normal && ParseCloseInfo(chans[..n][k]) == x;
      assert chans[..n][k] == chans[k];
    }
  }

  /** Each peer's entries are among those collected. */
  lemma {:induction false} CollectedHas(peers: seq<Peer>, p: nat, x: Option<ClosureRecord>)
    requires p < |peers| && x in CollectedFrom(ChannelsOf(peers[p]))
    ensures x in Collected(peers)
  {
    var n := |peers| - 1;
    if p < n {
      assert peers[..n][p] == peers[p];
      CollectedHas(peers[..n], p, x);
    }
  }

  /** Every entry collected comes from one of the peers. */
  lemma {:induction false} CollectedOrigin(peers: seq<Peer>, x: Option<ClosureRecord>)
    requires x in Collected(peers)
    ensures exists p :: 0 <= p < |peers| && x in CollectedFrom(ChannelsOf(peers[p]))
  {
    var n := |peers| - 1;
    if x in Collected(peers[..n]) {
      CollectedOrigin(peers[..n], x);
      var p :| 0 <= p < n && x in CollectedFrom(ChannelsOf(peers[..n][p]));
      assert peers[..n][p] == peers[p];
    }
  }

  lemma CollectedStep(peers: seq<Peer>, p: nat)
    requires p < |peers|
    ensures Collected(peers[..p + 1]) == Collected(peers[..p]) + CollectedFrom(ChannelsOf(peers[p]))
  {
    assert peers[..p + 1][..p] == peers[..p];
  }

  lemma CollectedFromStep(chans: seq<PeerChannel>, c: nat)
    requires c < |chans|
    ensures CollectedFrom(chans[..c + 1])
            == CollectedFrom(chans[..c]) + (if StateOf(chans[c]) != Normal then [ParseCloseInfo(chans[c])] else [])
  {
    assert chans[..c + 1][..c] == chans[..c];
  }

  /** `x.get('closed_at', 0)` for a record whose closing time is known. */
  function Key(r: ClosureRecord): int
    requires r.closedAt.Some?
  {
    r.closedAt.value
  }

  predicate AllTimed(rs: seq<ClosureRecord>)
  {
    forall i :: 0 <= i < |rs| ==> rs[i].closedAt.Some?
  }

  predicate SortedDesc(rs: seq<ClosureRecord>)
    requires AllTimed(rs)
  {
    forall i, j :: 0 <= i < j < |rs| ==> Key(rs[i]) >= Key(rs[j])
  }

  /** `x` placed after every record at least as late, so earlier entries stay first among equals. */
  function Insert(x: ClosureRecord, rs: seq<ClosureRecord>): (r: seq<ClosureRecord>)
    requires x.closedAt.Some? && AllTimed(rs)
    ensures |r| == |rs| + 1 && AllTimed(r)
    ensures multiset(r) == multiset(rs) + multiset{x}
  {
    if rs == [] then [x]
    else if Key(rs[0]) >= Key(x) then
      assert rs == [rs[0]] + rs[1..];
      [rs[0]] + Insert(x, rs[1..])
    else [x] + rs
  }

  /** `closures.sort(key=..., reverse=True)`: a stable sort by closing time, latest first. */
  function SortDesc(rs: seq<ClosureRecord>): (r: seq<ClosureRecord>)
    requires AllTimed(rs)
    ensures |r| == |rs| && AllTimed(r)
    ensures multiset(r) == multiset(rs)
  {
    if rs == [] then []
    else
      var n := |rs| - 1;
      assert rs == rs[..n] + [rs[n]];
      Insert(rs[n], SortDesc(rs[..n]))
  }

  lemma {:induction false} InsertSorted(x: ClosureRecord, rs: seq<ClosureRecord>)
    requires x.closedAt.Some? && AllTimed(rs) && SortedDesc(rs)
    ensures SortedDesc(Insert(x, rs))
  {
    if rs != [] && Key(rs[0]) >= Key(x) {
      InsertSorted(x, rs[1..]);
      var r := Insert(x, rs);
      forall i, j | 0 <= i < j < |r|
        ensures Key(r[i]) >= Key(r[j])
      {
        if i == 0 {
          assert r[j] in multiset(Insert(x, rs[1..]));
          assert r[j] == x || r[j] in multiset(rs[1..]);
          if r[j] != x {
            var k :| 0 <= k < |rs[1..]| && rs[1..][k] == r[j];
            assert rs[k + 1] == r[j];
          }
        }
      }
    }
  }

  /** The sort's result is ordered latest first. */
  lemma {:induction false} SortDescSorted(rs: seq<ClosureRecord>)
    requires AllTimed(rs)
    ensures SortedDesc(SortDesc(rs))
  {
    if rs != [] {
      var n := |rs| - 1;
      SortDescSorted(rs[..n]);
      InsertSorted(rs[n], SortDesc(rs[..n]));
    }
  }

  /** `closures[:limit]`, with Python's meaning of a negative bound. */
  function Prefix<T>(s: seq<T>, limit: int): (r: seq<T>)
    ensures r <= s
    ensures limit >= 0 ==> |r| == if limit < |s| then limit else |s|
    ensures limit < 0 ==> |r| == if -limit < |s| then |s| + limit else 0
  {
    if limit >= 0 then (if limit < |s| then s[..limit] else s)
    else if -limit < |s| then s[..|s| + limit] else []
  }

  function Unwrapped(cs: seq<Option<ClosureRecord>>): (rs: seq<ClosureRecord>)
    requires forall i :: 0 <= i < |cs| ==> cs[i].Some?
    ensures |rs| == |cs| && forall i :: 0 <= i < |cs| ==> cs[i] == Some(rs[i])
  {
    seq(|cs|, i requires 0 <= i < |cs| => cs[i].value)
  }

  /**
   * `get_recent_closures`: the latest `limit` closures, or the exception the
   * sort raises. A `None` entry fails when its key is read; two or more
   * entries one of whose closing time is `None` fail when compared.
   */
  function RecentClosures(peers: seq<Peer>, limit: int): Result<seq<ClosureRecord>, string>
  {
    var cs := Collected(peers);
    if exists i :: 0 <= i < |cs| && cs[i].None? then Failure("AttributeError")
    else
      var rs := Unwrapped(cs);
      if |rs| < 2 then Success(Prefix(rs, limit))
      else if !AllTimed(rs) then Failure("TypeError")
      else Success(Prefix(SortDesc(rs), limit))
  }

  /** The inner loop of `get_recent_closures`: one peer's channels appended to `closures`. */
  method CollectChannels(closures: seq<Option<ClosureRecord>>, chans: seq<PeerChannel>) returns (out: seq<Option<ClosureRecord>>)
    ensures out == closures + CollectedFrom(chans)
  {
    out := closures;
    for c := 0 to |chans|
      invariant out == closures + CollectedFrom(chans[..c])
    {
      CollectedFromStep(chans, c);
      var state := StateOf(chans[c]);
      if state != Normal {
        var info := ParseCloseInfo(chans[c]);
        out := out + [info];
      }
    }
    assert chans[..|chans|] == chans;
  }

  /** The outer loop of `get_recent_closures`, over the peers `listpeers` returned. */
  method CollectClosures(peers: seq<Peer>) returns (closures: seq<Option<ClosureRecord>>)
    ensures closures == Collected(peers)
  {
    closures := [];
    for p := 0 to |peers|
      invariant closures == Collected(peers[..p])
    {
      CollectedStep(peers, p);
      closures := CollectChannels(closures, ChannelsOf(peers[p]));
    }
    assert peers[..|peers|] == peers;
  }

  /** `get_recent_closures`: the loops, the sort and the slice. */
  method GetRecentClosures(peers: seq<Peer>, limit: int) returns (r: Result<seq<ClosureRecord>, string>)
    ensures r == RecentClosures(peers, limit)
  {
    var closures := CollectClosures(peers);
    // the sort reads every entry's key first
    for i := 0 to |closures|
      invariant forall k :: 0 <= k < i ==> closures[k].Some?
    {
      if closures[i].None? {
        return Failure("AttributeError");
      }
    }
    var rs := Unwrapped(closures);
    if |rs| < 2 {
      return Success(Prefix(rs, limit));
    }
    for i := 0 to |rs|
      invariant forall k :: 0 <= k < i ==> rs[k].closedAt.Some?
    {
      if rs[i].closedAt.None? {
        return Failure("TypeError");
      }
    }
    r := Success(Prefix(SortDesc(rs), limit));
  }

  /** A successful report lists at most `limit` closures, latest first. */
  lemma ReportIsLatestFirst(peers: seq<Peer>, limit: int)
    requires RecentClosures(peers, limit).Success?
    ensures var r := RecentClosures(peers, limit).value;
            (limit >= 0 ==> |r| <= limit) &&
            forall i, j :: 0 <= i < j < |r| && r[i].closedAt.Some? && r[j].closedAt.Some? ==> r[i].closedAt.value >= r[j].closedAt.value
  {
    var rs := Unwrapped(Collected(peers));
    if |rs| >= 2 {
      SortDescSorted(rs);
    }
  }

  /** No closure left out of a report is later than one listed. */
  lemma ReportKeepsTheLatest(peers: seq<Peer>, limit: int, x: ClosureRecord, y: ClosureRecord)
    requires RecentClosures(peers, limit).Success? && |Collected(peers)| >= 2
    requires x in RecentClosures(peers, limit).value && Some(y) in Collected(peers) && y !in RecentClosures(peers, limit).value
    ensures x.closedAt.Some? && y.closedAt.Some? && x.closedAt.value >= y.closedAt.value
  {
    var cs := Collected(peers);
    var rs := Unwrapped(cs);
    SortDescSorted(rs);
    var s := SortDesc(rs);
    var k :| 0 <= k < |cs| && cs[k] == Some(y);
    assert y == rs[k];
    assert y in multiset(s);
    PrefixIsTop(s, RecentClosures(peers, limit).value, x, y);
  }

  /** In a list sorted latest first, whatever a prefix keeps is no earlier than what it drops. */
  lemma PrefixIsTop(s: seq<ClosureRecord>, r: seq<ClosureRecord>, x: ClosureRecord, y: ClosureRecord)
    requires AllTimed(s) && SortedDesc(s) && r <= s
    requires x in r && y in s && y !in r
    ensures Key(x) >= Key(y)
  {
    var i :| 0 <= i < |r| && r[i] == x;
    var j :| 0 <= j < |s| && s[j] == y;
    assert j >= |r| by {
      assert forall k :: 0 <= k < |r| ==> r[k] == s[k] && r[k] in r;
    }
  }

  /** Every record reported is the closure record of a channel, of some peer, that is not in normal operation. */
  lemma ReportedChannelsAreNotNormal(peers: seq<Peer>, limit: int, x: ClosureRecord)
    requires RecentClosures(peers, limit).Success? && x in RecentClosures(peers, limit).value
    ensures exists p, k :: 0 <= p < |peers| && 0 <= k < |ChannelsOf(peers[p])| &&
              StateOf(ChannelsOf(peers[p])[k]) != Normal && ParseCloseInfo(ChannelsOf(peers[p])[k]) == Some(x)
  {
    var cs := Collected(peers);
    var rs := Unwrapped(cs);
    var s := if |rs| < 2 then rs else SortDesc(rs);
    assert x in s;
    assert x in multiset(rs);
    var i :| 0 <= i < |rs| && rs[i] == x;
    assert Some(x) in cs;
    CollectedOrigin(peers, Some(x));
    var p :| 0 <= p < |peers| && Some(x) in CollectedFrom(ChannelsOf(peers[p]));
    CollectedFromOrigin(ChannelsOf(peers[p]), Some(x));
  }

  /** A channel not in normal operation without a usable `close_info` makes the report fail. */
  lemma MissingCloseInfoFails(peers: seq<Peer>, limit: int, p: nat, k: nat)
    requires p < |peers| && k < |ChannelsOf(peers[p])|
    requires StateOf(ChannelsOf(peers[p])[k]) != Normal && !Truthy(ChannelsOf(peers[p])[k].closeInfo)
    ensures RecentClosures(peers, limit) == Failure("AttributeError")
  {
    var chans := ChannelsOf(peers[p]);
    CollectedFromHas(chans, k);
    CollectedHas(peers, p, None);
    var cs := Collected(peers);
    var i :| 0 <= i < |cs| && cs[i] == None;
  }

  /** A report never fails with 'AttributeError' unless such a channel exists. */
  lemma AttributeErrorNeedsMissingCloseInfo(peers: seq<Peer>, limit: int)
    requires RecentClosures(peers, limit) == Failure("AttributeError")
    ensures exists p, k :: 0 <= p < |peers| && 0 <= k < |ChannelsOf(peers[p])| &&
              StateOf(ChannelsOf(peers[p])[k]) != Normal && !Truthy(ChannelsOf(peers[p])[k].closeInfo)
  {
    var cs := Collected(peers);
    var i :| 0 <= i < |cs| && cs[i].None?;
    assert None in cs;
    CollectedOrigin(peers, None);
    var p :| 0 <= p < |peers| && None in CollectedFrom(ChannelsOf(peers[p]));
    CollectedFromOrigin(ChannelsOf(peers[p]), None);
  }
}
