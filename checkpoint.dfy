/**
 * The checkpoint both forwarding-sync scripts share, and the warehouse
 * tables they write. Before fetching, each script asks the forwardings table
 * for the smallest and largest `created_index` of every status. If a
 * forwarding was stored while still 'offered', the sync starts again from the
 * smallest such index, after removing everything from there on. Otherwise it
 * starts just past the largest index stored.
 */
module Checkpoint {
  import opened Wrappers
  import opened Frames

  /**
   * One row of the status query: a status and the smallest and largest
   * `created_index` among its rows (missing when they are all null).
   */
  datatype StatusRow = StatusRow(status: string, minIndex: Option<int>, maxIndex: Option<int>)

  const Offered: string := "offered"

  /** The two time columns of a forwarding. */
  const ReceivedTime: string := "received_time"
  const ResolvedTime: string := "resolved_time"

  predicate HasOffered(rows: seq<StatusRow>)
  {
    exists k :: 0 <= k < |rows| && rows[k].status == Offered
  }

  /** The position `.iloc[0]` reads among the 'offered' rows: the first one. */
  function FirstOffered(rows: seq<StatusRow>): (r: Option<nat>)
    ensures r.Some? <==> HasOffered(rows)
    ensures r.Some? ==> r.value < |rows| && rows[r.value].status == Offered
    ensures r.Some? ==> forall k :: 0 <= k < r.value ==> rows[k].status != Offered
  {
    if rows == [] then None
    else if rows[0].status == Offered then Some(0)
    else
      var rest := FirstOffered(rows[1..]);
      assert HasOffered(rows[1..]) ==> HasOffered(rows) by {
        if HasOffered(rows[1..]) {
          var k :| 0 <= k < |rows[1..]| && rows[1..][k].status == Offered;
          assert rows[k + 1].status == Offered;
        }
      }
      assert HasOffered(rows) ==> HasOffered(rows[1..]) by {
        if HasOffered(rows) {
          var k :| 0 <= k < |rows| && rows[k].status == Offered;
          assert rows[1..][k - 1].status == Offered;
        }
      }
      match rest
      case None => None
      case Some(k) => Some(k + 1)
  }

  /** `maxindex.max()`: the largest index present, skipping missing ones; missing (NaN) when none is. */
  function MaxIndex(rows: seq<StatusRow>): (m: Option<int>)
    ensures m.None? <==> forall k :: 0 <= k < |rows| ==> rows[k].maxIndex.None?
    ensures m.Some? ==> forall k :: 0 <= k < |rows| && rows[k].maxIndex.Some? ==> rows[k].maxIndex.value <= m.value
    ensures m.Some? ==> exists k :: 0 <= k < |rows| && rows[k].maxIndex == m
  {
    if rows == [] then None
    else
      var n := |rows| - 1;
      var rest := MaxIndex(rows[..n]);
      assert forall k :: 0 <= k < n ==> rows[..n][k] == rows[k];
      match rows[n].maxIndex
      case None => rest
      case Some(x) =>
        if rest.Some? && rest.value >= x then rest else Some(x)
  }

  /**
   * `index_start`: the first 'offered' row's smallest index when there is
   * one, otherwise one past the largest index stored. Missing (NaN) when the
   * index it reads is missing, in particular when the table is empty.
   */
  function ResumeIndex(rows: seq<StatusRow>): (r: Option<int>)
    ensures forall k :: 0 <= k < |rows| && rows[k].status == Offered && (forall j :: 0 <= j < k ==> rows[j].status != Offered)
              ==> r == rows[k].minIndex
    ensures !HasOffered(rows) && r.Some? ==>
              (forall k :: 0 <= k < |rows| && rows[k].maxIndex.Some? ==> rows[k].maxIndex.value < r.value) &&
              exists k :: 0 <= k < |rows| && rows[k].maxIndex == Some(r.value - 1)
    ensures !HasOffered(rows) ==> (r.None? <==> forall k :: 0 <= k < |rows| ==> rows[k].maxIndex.None?)
  {
    match FirstOffered(rows)
    case Some(k) => rows[k].minIndex
    case None =>
      match MaxIndex(rows)
      case Some(m) => Some(m + 1)
      case None => None
  }

  /** An empty forwardings table leaves the start index undefined. */
  lemma ResumeIndexOfEmptyTable()
    ensures ResumeIndex([]).None?
  {
    assert !HasOffered([]);
  }

  /** `created_index >= start` in the DELETE statement; a NULL index never matches. */
  predicate Deleted(r: Row, start: int)
  {
    "created_index" in r &&
    match r["created_index"]
    case Int(i) => i >= start
    case Num(x) => x >= start as real
    case _ => false
  }

  /** The rows a `DELETE ... WHERE created_index >= start` leaves, in their order. */
  function Surviving(rows: seq<Row>, start: int): (rs: seq<Row>)
    ensures |rs| <= |rows|
    ensures forall r :: r in rs <==> r in rows && !Deleted(r, start)
  {
    if rows == [] then []
    else
      var n := |rows| - 1;
      var rest := Surviving(rows[..n], start);
      assert rows == rows[..n] + [rows[n]];
      if Deleted(rows[n], start) then rest else rest + [rows[n]]
  }

  /** The warehouse tables the scripts write. */
  class Warehouse {
    var forwardings: seq<Row>
    var channels: seq<Row>
    var nodes: seq<Row>

    /** `DELETE FROM forwardings WHERE created_index >= start`. */
    method DeleteFrom(start: int)
      modifies this
      ensures forwardings == Surviving(old(forwardings), start)
      ensures channels == old(channels) && nodes == old(nodes)
    {
      forwardings := Surviving(forwardings, start);
    }

    /** A load into the forwardings table with `WRITE_APPEND` or `if_exists='append'`. */
    method AppendForwardings(rows: seq<Row>)
      modifies this
      ensures forwardings == old(forwardings) + rows
      ensures channels == old(channels) && nodes == old(nodes)
    {
      forwardings := forwardings + rows;
    }

    /** `to_gbq(channels, if_exists='replace')`. */
    method ReplaceChannels(rows: seq<Row>)
      modifies this
      ensures channels == rows
      ensures forwardings == old(forwardings) && nodes == old(nodes)
    {
      channels := rows;
    }

    /** `to_gbq(nodes, if_exists='replace')`. */
    method ReplaceNodes(rows: seq<Row>)
      modifies this
      ensures nodes == rows
      ensures forwardings == old(forwardings) && channels == old(channels)
    {
      nodes := rows;
    }
  }
}
