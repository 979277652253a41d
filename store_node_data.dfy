/**
 * The older all-in-one sync. It replaces the warehouse's channels and nodes
 * tables with the node's current gossip, then brings the forwardings table
 * up to date the same way the dry-run sync does, but with three differences.
 * The delete is unconditional. The times are scaled from seconds to
 * microseconds. And two sample rows read back from the warehouse are put in
 * front of the fetched rows and then dropped again by position, so that
 * pandas infers the column types from them.
 */
module StoreNodeData {
  import opened Wrappers
  import opened Seqs
  import opened Frames
  import opened Checkpoint

  const LastUpdate: string := "last_update"
  const LastTimestamp: string := "last_timestamp"

  /** `n` copies of `s`, one after the other: Python's `s * n`. */
  function Repeat(s: string, n: nat): (r: string)
    ensures |r| == |s| * n
  {
    if n == 0 then "" else s + Repeat(s, n - 1)
  }

  /**
   * `x * 10**6` on one cell of a time column: seconds become microseconds;
   * a missing value stays missing and text is repeated, as Python does.
   */
  function TimesMillion(v: Value): (r: Value)
  {
    match v
    case Null => Null
    case Int(n) => Int(n * 1000000)
    case Num(x) => Num(x * 1000000.0)
    case Text(s) => Text(Repeat(s, 1000000))
  }

  /** The scaling can be undone: a whole number of seconds in, its microseconds out. */
  lemma {:induction false} TimesMillionInverts(v: Value)
    ensures v.Int? ==> TimesMillion(v).Int? && TimesMillion(v).i / 1000000 == v.i && TimesMillion(v).i % 1000000 == 0
    ensures v.Num? ==> TimesMillion(v).Num? && TimesMillion(v).x / 1000000.0 == v.x
    ensures v.Null? <==> TimesMillion(v).Null?
  {
    if v.Int? {
      var m := v.i * 1000000;
      assert m == 1000000 * v.i;
    }
  }

  /** Both time columns scaled, as the two `dff[...] = dff[...] * 10**6` lines leave the fetched rows. */
  function Scaled(rows: seq<Row>): (rs: seq<Row>)
    requires forall i :: 0 <= i < |rows| ==> ReceivedTime in rows[i] && ResolvedTime in rows[i]
    ensures |rs| == |rows|
    ensures forall i :: 0 <= i < |rows| ==> rs[i].Keys == rows[i].Keys
  {
    MapColumn(MapColumn(rows, ReceivedTime, TimesMillion), ResolvedTime, TimesMillion)
  }

  /** The three warehouse tables. */
  datatype Tables = Tables(forwardings: seq<Row>, channels: seq<Row>, nodes: seq<Row>)

  /** How the script ends: the rows it appended, or the exception that stopped it. */
  datatype Outcome = Appended(rows: seq<Row>) | Crashed(error: string)

  /** What the channels and nodes part does: replace both tables, or stop on a missing time column. */
  function Gossip(t: Tables, channelObjs: seq<Object>, nodeObjs: seq<Object>): (Option<string>, Tables)
  {
    if LastUpdate !in ColumnOrder(channelObjs) then (Some("KeyError"), t)
    else
      var t1 := t.(channels := RowsOf(channelObjs, ColumnOrder(channelObjs)));
      if LastTimestamp !in ColumnOrder(nodeObjs) then (Some("KeyError"), t1)
      else (None, t1.(nodes := RowsOf(nodeObjs, ColumnOrder(nodeObjs))))
  }

  /** The rows the forwardings part uploads once the fetched rows have both time columns. */
  function Uploaded(objs: seq<Object>, examples: seq<Object>): seq<Row>
    requires ReceivedTime in ColumnOrder(objs) && ResolvedTime in ColumnOrder(objs)
  {
    var cols := ColumnOrder(objs);
    var all := examples + ObjectsOf(Scaled(RowsOf(objs, cols)), cols);
    var rows := RowsOf(all, ColumnOrder(all));
    if |rows| < 2 then [] else rows[2..]
  }

  /** What the forwardings part does to that table, as the sync with the dry-run flag off but deleting unconditionally. */
  function Forwards(table: seq<Row>, status: seq<StatusRow>, listForwards: int -> seq<Object>, examples: seq<Object>): (Outcome, seq<Row>)
  {
    match ResumeIndex(status)
    case None => (Crashed("ValueError"), table)
    case Some(start) =>
      var kept := if HasOffered(status) then Surviving(table, start) else table;
      var objs := listForwards(start);
      var cols := ColumnOrder(objs);
      if ReceivedTime !in cols || ResolvedTime !in cols then (Crashed("KeyError"), kept)
      else if |examples| + |objs| < 2 then (Crashed("KeyError"), kept)
      else (Appended(Uploaded(objs, examples)), kept + Uploaded(objs, examples))
  }

  /** The channels and nodes part of the script. */
  method StoreGossip(wh: Warehouse, channelObjs: seq<Object>, nodeObjs: seq<Object>) returns (crash: Option<string>)
    modifies wh
    ensures (crash, Tables(wh.forwardings, wh.channels, wh.nodes))
            == Gossip(Tables(old(wh.forwardings), old(wh.channels), old(wh.nodes)), channelObjs, nodeObjs)
  {
    var dfc := new Frame(channelObjs);
    if LastUpdate !in dfc.columns {
      return Some("KeyError");
    }
    wh.ReplaceChannels(dfc.rows);
    var dfn := new Frame(nodeObjs);
    if LastTimestamp !in dfn.columns {
      return Some("KeyError");
    }
    wh.ReplaceNodes(dfn.rows);
    crash := None;
  }

  /** The forwardings part of the script. */
  method StoreForwardings(wh: Warehouse, status: seq<StatusRow>, listForwards: int -> seq<Object>, examples: seq<Object>)
    returns (outcome: Outcome)
    modifies wh
    ensures (outcome, wh.forwardings) == Forwards(old(wh.forwardings), status, listForwards, examples)
    ensures wh.channels == old(wh.channels) && wh.nodes == old(wh.nodes)
  {
    var first := FirstOffered(status);
    var start: Option<int>;
    if first.None? {
      start := match MaxIndex(status) case Some(m) => Some(m + 1) case None => None;
    } else {
      start := status[first.value].minIndex;
      if start.Some? {
        wh.DeleteFrom(start.value);
      }
    }
    if start.None? {
      // int(nan)
      return Crashed("ValueError");
    }
    var objs := listForwards(start.value);
    var dff := new Frame(objs);
    if ReceivedTime !in dff.columns {
      return Crashed("KeyError");
    }
    dff.Apply(ReceivedTime, TimesMillion);
    if ResolvedTime !in dff.columns {
      return Crashed("KeyError");
    }
    dff.Apply(ResolvedTime, TimesMillion);
    var all := examples + dff.Records();
    var df := new Frame(all);
    if |df.rows| < 2 {
      // drop([0, 1]) names a label the frame lacks
      return Crashed("KeyError");
    }
    wh.AppendForwardings(df.rows[2..]);
    outcome := Appended(df.rows[2..]);
  }

  /** The whole script: the gossip tables first, then the forwardings. */
  method StoreNodeData(wh: Warehouse, channelObjs: seq<Object>, nodeObjs: seq<Object>, status: seq<StatusRow>,
                       listForwards: int -> seq<Object>, examples: seq<Object>)
    returns (outcome: Outcome)
    modifies wh
    ensures var g := Gossip(Tables(old(wh.forwardings), old(wh.channels), old(wh.nodes)), channelObjs, nodeObjs);
            if g.0.Some? then outcome == Crashed(g.0.value) && Tables(wh.forwardings, wh.channels, wh.nodes) == g.1
            else (outcome, wh.forwardings) == Forwards(old(wh.forwardings), status, listForwards, examples) &&
                 wh.channels == g.1.channels && wh.nodes == g.1.nodes
  {
    var crash := StoreGossip(wh, channelObjs, nodeObjs);
    if crash.Some? {
      return Crashed(crash.value);
    }
    outcome := StoreForwardings(wh, status, listForwards, examples);
  }

  /** The gossip tables are replaced, whatever they held before. */
  lemma GossipReplaces(t: Tables, u: Tables, channelObjs: seq<Object>, nodeObjs: seq<Object>)
    requires Gossip(t, channelObjs, nodeObjs).0.None?
    ensures Gossip(t, channelObjs, nodeObjs).1.channels == Gossip(u, channelObjs, nodeObjs).1.channels
    ensures Gossip(t, channelObjs, nodeObjs).1.nodes == Gossip(u, channelObjs, nodeObjs).1.nodes
    ensures Gossip(t, channelObjs, nodeObjs).1.forwardings == t.forwardings
  {
  }

  /** The forwardings table only grows at its end, unless a stored forwarding is still 'offered'. */
  lemma ForwardsAppend(table: seq<Row>, status: seq<StatusRow>, listForwards: int -> seq<Object>, examples: seq<Object>)
    requires !HasOffered(status)
    ensures table <= Forwards(table, status, listForwards, examples).1
  {
  }

  /** The columns of the frame the samples and the fetched rows make together. */
  function UploadColumns(objs: seq<Object>, examples: seq<Object>): seq<string>
    requires ReceivedTime in ColumnOrder(objs) && ResolvedTime in ColumnOrder(objs)
  {
    var cols := ColumnOrder(objs);
    ColumnOrder(examples + ObjectsOf(Scaled(RowsOf(objs, cols)), cols))
  }

  /**
   * With exactly two sample rows in front, dropping positions 0 and 1
   * uploads the fetched rows, in order: each one keeps every fetched cell,
   * with both times scaled, and is missing only in the columns the samples
   * add.
   */
  lemma TwoSamplesUploadFetched(objs: seq<Object>, examples: seq<Object>, i: nat)
    requires ReceivedTime in ColumnOrder(objs) && ResolvedTime in ColumnOrder(objs)
    requires |examples| == 2 && i < |objs|
    ensures |Uploaded(objs, examples)| == |objs|
    ensures var fetched := Scaled(RowsOf(objs, ColumnOrder(objs)))[i];
            fetched.Keys <= Elems(UploadColumns(objs, examples)) &&
            Uploaded(objs, examples)[i] == Padded(fetched, Elems(UploadColumns(objs, examples)))
  {
    var cols := ColumnOrder(objs);
    var scaled := Scaled(RowsOf(objs, cols));
    ScaledKeys(objs);
    RowsBehind(examples, scaled, cols, i);
  }

  /** Every scaled row keeps exactly the fetched frame's columns. */
  lemma ScaledKeys(objs: seq<Object>)
    requires ReceivedTime in ColumnOrder(objs) && ResolvedTime in ColumnOrder(objs)
    ensures var cols := ColumnOrder(objs);
            var scaled := Scaled(RowsOf(objs, cols));
            forall j :: 0 <= j < |scaled| ==> scaled[j].Keys == Elems(cols)
  {
  }

  /** Only exactly two sample rows make the upload as long as the fetch: fewer lose fetched rows, more upload samples. */
  lemma UploadCountNeedsTwoSamples(objs: seq<Object>, examples: seq<Object>)
    requires ReceivedTime in ColumnOrder(objs) && ResolvedTime in ColumnOrder(objs)
    requires |examples| + |objs| >= 2
    ensures |Uploaded(objs, examples)| == |objs| <==> |examples| == 2
  {
  }
}
