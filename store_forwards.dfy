/**
 * The forwarding sync with dry-run support: pick the resume index from the
 * warehouse, remove the rows that will be fetched again, fetch the node's
 * forwards from that index on, force them onto the table's fifteen columns,
 * turn both times from nanoseconds into microseconds, and append them.
 * Every failure ends the script with exit status 1 and an empty fetch with
 * exit status 0.
 */
module StoreForwards {
  import opened Wrappers
  import opened Seqs
  import opened Frames
  import opened Checkpoint
  import Snapshot

  /** The forwardings table's columns, in its order. */
  const Expected: seq<string> := [
    "created_index", "in_channel", "out_channel",
    "in_msat", "out_msat", "fee_msat",
    "status", "received_time", "resolved_time",
    "in_htlc_id", "failcode", "failreason",
    "out_htlc_id", "style", "updated_index"]

  /**
   * `int(x.value // 1000)` for an instant held as nanoseconds since the
   * epoch: floor division, so the microsecond count never rounds up.
   * `to_datetime` reads a number without a unit as nanoseconds, cutting a
   * fraction toward zero. NaT, and text, which `errors="coerce"` parsing is
   * not modelled for, stay missing.
   */
  function Micros(v: Value): (r: Value)
    ensures v.Int? ==> r.Int? && r.i * 1000 <= v.i < r.i * 1000 + 1000
    ensures v.Num? ==> r.Int? && r.i * 1000 <= Snapshot.Trunc(v.x) < r.i * 1000 + 1000
    ensures v.Num? && v.x >= 0.0 ==> r.Int? && (r.i * 1000) as real <= v.x < (r.i * 1000 + 1000) as real
    ensures v.Null? || v.Text? ==> r == Null
  {
    match v
    case Int(ns) => Int(ns / 1000)
    case Num(x) => Int(Snapshot.Trunc(x) / 1000)
    case _ => Null
  }

  /**
   * `listforwards` reports both times as seconds since the epoch, and the
   * conversion reads them as nanoseconds: the stored microsecond count is
   * 10^9 times smaller than the instant's, whose microseconds are the
   * seconds times 10^6.
   */
  lemma SecondsReadAsNanoseconds(seconds: real)
    requires seconds >= 0.0
    ensures Micros(Num(seconds)).Int?
    ensures (Micros(Num(seconds)).i * 1000000000) as real <= seconds * 1000000.0
    ensures seconds * 1000000.0 < ((Micros(Num(seconds)).i + 1) * 1000000000) as real
  {
    var n := Micros(Num(seconds)).i;
    assert (n * 1000) as real <= seconds < (n * 1000 + 1000) as real;
    assert (n * 1000000000) as real == (n * 1000) as real * 1000000.0;
    assert ((n + 1) * 1000000000) as real == (n * 1000 + 1000) as real * 1000000.0;
  }

  /**
   * A record as the script uploads it: exactly the table's columns, the
   * record's value where it has one and a missing value elsewhere, with both
   * times in microseconds.
   */
  function Cleaned(o: Object): (r: Row)
    ensures r.Keys == Elems(Expected)
  {
    map c | c in Elems(Expected) ::
      if c == ReceivedTime || c == ResolvedTime then Micros(Lookup(o, c)) else Lookup(o, c)
  }

  function CleanedAll(objs: seq<Object>): (rs: seq<Row>)
    ensures |rs| == |objs|
  {
    seq(|objs|, i requires 0 <= i < |objs| => Cleaned(objs[i]))
  }

  /** How a run ends: the cleaned frame, an exit with nothing new, or an exit with status 1. */
  datatype Outcome = Completed(rows: seq<Row>) | NothingNew | Failed

  /**
   * What one run does: its outcome and the forwardings table it leaves,
   * given the table before, the status query's rows, the dry-run flag and
   * the node's answer to `listforwards` from each start index.
   */
  function Sync(table: seq<Row>, status: seq<StatusRow>, dryRun: bool, listForwards: int -> seq<Object>): (Outcome, seq<Row>)
  {
    match ResumeIndex(status)
    case None => (Failed, table)
    case Some(start) =>
      var kept := if HasOffered(status) && !dryRun then Surviving(table, start) else table;
      var objs := listForwards(start);
      if objs == [] || ColumnOrder(objs) == [] then (NothingNew, kept)
      else (Completed(CleanedAll(objs)), if dryRun then kept else kept + CleanedAll(objs))
  }

  /**
   * The schema loop: `frame[col] = None` for each table column the frame
   * lacks, then `frame = frame[Expected]`.
   */
  method Conform(f: Frame)
    requires f.Valid()
    modifies f
    ensures f.Valid() && f.columns == Expected
    ensures |f.rows| == |old(f.rows)|
    ensures forall i :: 0 <= i < |f.rows| ==> f.rows[i] == Padded(old(f.rows)[i], Elems(Expected))
  {
    ghost var rows0, cols0 := f.rows, f.columns;
    for k := 0 to |Expected|
      invariant f.Valid() && |f.rows| == |rows0|
      invariant Elems(f.columns) == Elems(cols0) + Elems(Expected[..k])
      invariant forall i :: 0 <= i < |f.rows| ==> f.rows[i] == Padded(rows0[i], Elems(f.columns))
    {
      assert Expected[..k + 1] == Expected[..k] + [Expected[k]];
      if Expected[k] !in f.columns {
        ghost var before := f.rows;
        ghost var cols := Elems(f.columns);
        f.AddColumn(Expected[k]);
        assert Elems(f.columns) == cols + {Expected[k]};
        forall i | 0 <= i < |f.rows|
          ensures f.rows[i] == Padded(rows0[i], Elems(f.columns))
        {
          assert before[i] == Padded(rows0[i], cols);
          PaddedGrows(rows0[i], cols, Expected[k]);
        }
      }
    }
    assert Expected[..|Expected|] == Expected;
    ghost var before := f.rows;
    ghost var cols := Elems(f.columns);
    f.Select(Expected);
    forall i | 0 <= i < |f.rows|
      ensures f.rows[i] == Padded(rows0[i], Elems(Expected))
    {
      assert before[i] == Padded(rows0[i], cols);
      PaddedShrinks(rows0[i], cols, Elems(Expected));
    }
  }

  /** The cleaning block: conform to the table's columns, then convert both times. */
  method Clean(f: Frame, ghost objs: seq<Object>)
    requires f.Valid() && f.columns == ColumnOrder(objs) && f.rows == RowsOf(objs, f.columns)
    modifies f
    ensures f.Valid() && f.columns == Expected
    ensures f.rows == CleanedAll(objs)
  {
    ghost var cols, rows0 := f.columns, f.rows;
    Conform(f);
    ghost var conformed := f.rows;
    f.Apply(ReceivedTime, Micros);
    ghost var mid := f.rows;
    f.Apply(ResolvedTime, Micros);
    forall i | 0 <= i < |objs|
      ensures f.rows[i] == Cleaned(objs[i])
    {
      assert rows0[i] == RowOf(objs[i], cols);
      assert conformed[i] == Padded(rows0[i], Elems(Expected));
      assert mid[i] == conformed[i][ReceivedTime := Micros(conformed[i][ReceivedTime])];
      assert f.rows[i] == mid[i][ResolvedTime := Micros(mid[i][ResolvedTime])];
      forall c | c in Keys(objs[i])
        ensures c in cols
      {
        ColumnOrderCovers(objs, i, c);
      }
      CleanedFromFrame(objs[i], cols);
    }
  }

  /** One record's row through the cleaning block is the cleaned record. */
  lemma CleanedFromFrame(o: Object, cols: seq<string>)
    requires forall c :: c in Keys(o) ==> c in cols
    ensures var p := Padded(RowOf(o, cols), Elems(Expected));
            var q := p[ReceivedTime := Micros(p[ReceivedTime])];
            q[ResolvedTime := Micros(q[ResolvedTime])] == Cleaned(o)
  {
    var keep := Elems(Expected);
    PaddedRowOf(o, cols, keep);
    CleanedConvertsRead(o);
  }

  /** Cleaning a record is reading every table column from it, then converting both times. */
  lemma CleanedConvertsRead(o: Object)
    ensures var p := map c | c in Elems(Expected) :: Lookup(o, c);
            var q := p[ReceivedTime := Micros(p[ReceivedTime])];
            q[ResolvedTime := Micros(q[ResolvedTime])] == Cleaned(o)
  {
    assert ReceivedTime in Elems(Expected) && ResolvedTime in Elems(Expected) by {
      assert Expected[7] == ReceivedTime && Expected[8] == ResolvedTime;
    }
  }

  /** The script's `main`, from the status query on. */
  method SyncForwards(wh: Warehouse, status: seq<StatusRow>, dryRun: bool, listForwards: int -> seq<Object>)
    returns (outcome: Outcome)
    modifies wh
    ensures (outcome, wh.forwardings) == Sync(old(wh.forwardings), status, dryRun, listForwards)
    ensures wh.channels == old(wh.channels) && wh.nodes == old(wh.nodes)
  {
    var first := FirstOffered(status);
    var start: Option<int>;
    if first.None? {
      start := match MaxIndex(status) case Some(m) => Some(m + 1) case None => None;
    } else {
      start := status[first.value].minIndex;
      if !dryRun {
        if start.None? {
          // the DELETE names `nan` and is rejected
          return Failed;
        }
        wh.DeleteFrom(start.value);
      }
    }
    if start.None? {
      // int(nan)
      return Failed;
    }
    var objs := listForwards(start.value);
    var f := new Frame(objs);
    if f.Empty() {
      return NothingNew;
    }
    Clean(f, objs);
    if !dryRun {
      wh.AppendForwardings(f.rows);
    }
    outcome := Completed(f.rows);
  }

  /** A dry run leaves the table as it was, whatever the node returns. */
  lemma DryRunChangesNothing(table: seq<Row>, status: seq<StatusRow>, listForwards: int -> seq<Object>)
    ensures Sync(table, status, true, listForwards).1 == table
  {
  }

  /**
   * Rows are removed only to resume from an 'offered' forwarding; without
   * one the table only grows at its end.
   */
  lemma OnlyOfferedDeletes(table: seq<Row>, status: seq<StatusRow>, dryRun: bool, listForwards: int -> seq<Object>)
    requires !HasOffered(status)
    ensures table <= Sync(table, status, dryRun, listForwards).1
  {
  }

  /**
   * Resuming from an 'offered' forwarding: no stored row at or past the
   * start index survives, every other stored row does, and the fetched rows
   * follow them.
   */
  lemma ResyncReplacesTail(table: seq<Row>, status: seq<StatusRow>, listForwards: int -> seq<Object>, start: int)
    requires HasOffered(status) && ResumeIndex(status) == Some(start)
    ensures var after := Sync(table, status, false, listForwards).1;
            forall r :: r in table ==> (r in after <== !Deleted(r, start))
    ensures var after := Sync(table, status, false, listForwards).1;
            var kept := Surviving(table, start);
            after[..|kept|] == kept && forall r :: r in kept ==> !Deleted(r, start)
  {
  }

  /** An empty answer from the node ends the run without uploading anything. */
  lemma EmptyFetchUploadsNothing(table: seq<Row>, status: seq<StatusRow>, dryRun: bool, listForwards: int -> seq<Object>, start: int)
    requires ResumeIndex(status) == Some(start) && listForwards(start) == []
    ensures Sync(table, status, dryRun, listForwards).0 == NothingNew
    ensures Sync(table, status, dryRun, listForwards).1 == if HasOffered(status) && !dryRun then Surviving(table, start) else table
  {
  }

  /** An empty warehouse table makes every run fail without touching it. */
  lemma EmptyStatusFails(table: seq<Row>, dryRun: bool, listForwards: int -> seq<Object>)
    ensures Sync(table, [], dryRun, listForwards) == (Failed, table)
  {
    ResumeIndexOfEmptyTable();
  }

  /**
   * Every uploaded row has exactly the table's columns, keeps each field the
   * node sent, and holds both times in whole microseconds.
   */
  lemma UploadedRows(objs: seq<Object>, i: nat, c: string)
    requires i < |objs| && c in Expected
    ensures c in CleanedAll(objs)[i]
    ensures c != ReceivedTime && c != ResolvedTime ==> CleanedAll(objs)[i][c] == Lookup(objs[i], c)
    ensures c == ReceivedTime || c == ResolvedTime ==> CleanedAll(objs)[i][c] == Micros(Lookup(objs[i], c))
  {
    assert CleanedAll(objs)[i] == Cleaned(objs[i]);
  }
}
