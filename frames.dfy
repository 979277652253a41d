/**
 * The part of pandas the sync scripts rely on. A record from the node's RPC
 * is a JSON object whose keys keep the order the node wrote them in, as a
 * Python dict does. `pandas.DataFrame(records)` gives a frame whose columns
 * are all keys in order of first appearance, with a missing value wherever a
 * record lacks a key. The scripts then change that frame in place, column
 * by column.
 */
module Frames {
  import opened Seqs

  /** A cell: pandas' missing value (None, NaN or NaT), an integer, a number or text. */
  datatype Value = Null | Int(i: int) | Num(x: real) | Text(s: string)

  /** One record as the RPC returns it: key/value pairs in order. */
  type Object = seq<(string, Value)>

  /** One frame row: a cell for each column. */
  type Row = map<string, Value>

  function Keys(o: Object): (ks: seq<string>)
    ensures |ks| == |o| && forall i :: 0 <= i < |o| ==> ks[i] == o[i].0
  {
    if o == [] then [] else [o[0].0] + Keys(o[1..])
  }

  /** The value the frame gets for `key` from one record: its first binding, missing when absent. */
  function Lookup(o: Object, key: string): (v: Value)
    ensures key !in Keys(o) ==> v == Null
    ensures forall i :: 0 <= i < |o| && o[i].0 == key && key !in Keys(o)[..i] ==> v == o[i].1
  {
    if o == [] then Null
    else if o[0].0 == key then o[0].1
    else Lookup(o[1..], key)
  }

  /** The columns of `pandas.DataFrame(objs)`: every key of every record, in order of first appearance. */
  function ColumnOrder(objs: seq<Object>): (cols: seq<string>)
    ensures Distinct(cols)
  {
    if objs == [] then []
    else AddNew(ColumnOrder(objs[..|objs| - 1]), Keys(objs[|objs| - 1]))
  }

  /** Every key of every record becomes a column. */
  lemma {:induction false} ColumnOrderCovers(objs: seq<Object>, i: nat, c: string)
    requires i < |objs| && c in Keys(objs[i])
    ensures c in ColumnOrder(objs)
  {
    var n := |objs| - 1;
    if i < n {
      assert objs[..n][i] == objs[i];
      ColumnOrderCovers(objs[..n], i, c);
    }
  }

  /** Every column is a key of some record, so the columns are exactly the records' keys. */
  lemma {:induction false} ColumnOrderExact(objs: seq<Object>)
    ensures forall c :: c in ColumnOrder(objs) <==> exists i :: 0 <= i < |objs| && c in Keys(objs[i])
  {
    forall c | c in ColumnOrder(objs)
      ensures exists i :: 0 <= i < |objs| && c in Keys(objs[i])
    {
      ColumnOrderFromKeys(objs, c);
    }
    forall c | exists i :: 0 <= i < |objs| && c in Keys(objs[i])
      ensures c in ColumnOrder(objs)
    {
      var i :| 0 <= i < |objs| && c in Keys(objs[i]);
      ColumnOrderCovers(objs, i, c);
    }
  }

  lemma {:induction false} ColumnOrderFromKeys(objs: seq<Object>, c: string)
    requires c in ColumnOrder(objs)
    ensures exists i :: 0 <= i < |objs| && c in Keys(objs[i])
  {
    var n := |objs| - 1;
    if c in ColumnOrder(objs[..n]) {
      ColumnOrderFromKeys(objs[..n], c);
      var i :| 0 <= i < n && c in Keys(objs[..n][i]);
      assert objs[..n][i] == objs[i];
    } else {
      assert c in Keys(objs[n]);
    }
  }

  /** `cols` extended with a missing value wherever `r` has no cell. */
  function Padded(r: Row, cols: set<string>): (p: Row)
    ensures p.Keys == cols
  {
    map c | c in cols :: if c in r then r[c] else Null
  }

  /** Adding a missing column to a padded row pads it further. */
  lemma PaddedGrows(r: Row, cols: set<string>, col: string)
    requires col !in r
    ensures Padded(r, cols)[col := Null] == Padded(r, cols + {col})
  {
  }

  /** Cutting a padded row down to fewer columns pads it to those columns. */
  lemma PaddedShrinks(r: Row, cols: set<string>, keep: set<string>)
    requires keep <= cols
    ensures (map c | c in keep :: Padded(r, cols)[c]) == Padded(r, keep)
  {
  }

  /** The frame row pandas builds from one record, for the frame's columns. */
  function RowOf(o: Object, cols: seq<string>): (r: Row)
    ensures r.Keys == Elems(cols)
  {
    map c | c in Elems(cols) :: Lookup(o, c)
  }

  /** Padding a record's row reads every padded column from the record, once all its keys are columns. */
  lemma PaddedRowOf(o: Object, cols: seq<string>, keep: set<string>)
    requires forall c :: c in Keys(o) ==> c in cols
    ensures Padded(RowOf(o, cols), keep) == map c | c in keep :: Lookup(o, c)
  {
  }

  /** One row as `to_dict('records')` gives it back: the cells in column order. */
  function ObjectOf(r: Row, cols: seq<string>): (o: Object)
    requires Elems(cols) <= r.Keys
    ensures Keys(o) == cols
  {
    seq(|cols|, j requires 0 <= j < |cols| => (cols[j], r[cols[j]]))
  }

  /** The rows as `to_dict('records')` gives them back. */
  function ObjectsOf(rows: seq<Row>, cols: seq<string>): (objs: seq<Object>)
    requires forall i :: 0 <= i < |rows| ==> Elems(cols) <= rows[i].Keys
    ensures |objs| == |rows|
    ensures forall i :: 0 <= i < |objs| ==> Keys(objs[i]) == cols
  {
    seq(|rows|, i requires 0 <= i < |rows| => ObjectOf(rows[i], cols))
  }

  /** Reading a row back from its record gives its cell, or a missing value off its columns. */
  lemma {:induction false} LookupObjectOf(r: Row, cols: seq<string>, c: string)
    requires Elems(cols) <= r.Keys
    ensures Lookup(ObjectOf(r, cols), c) == if c in cols then r[c] else Null
  {
    if cols != [] {
      assert ObjectOf(r, cols)[1..] == ObjectOf(r, cols[1..]);
      LookupObjectOf(r, cols[1..], c);
    }
  }

  /** The rows pandas builds from `objs`, one per record, over the columns `cols`. */
  function RowsOf(objs: seq<Object>, cols: seq<string>): (rs: seq<Row>)
    ensures |rs| == |objs|
    ensures forall i :: 0 <= i < |objs| ==> rs[i].Keys == Elems(cols)
  {
    seq(|objs|, i requires 0 <= i < |objs| => RowOf(objs[i], cols))
  }

  /** A row written out as a record and read back under more columns comes back padded. */
  lemma RowOfObjectOf(r: Row, cols: seq<string>, big: seq<string>)
    requires r.Keys == Elems(cols)
    ensures RowOf(ObjectOf(r, cols), big) == Padded(r, Elems(big))
  {
    forall c | c in Elems(big)
      ensures Lookup(ObjectOf(r, cols), c) == if c in r then r[c] else Null
    {
      LookupObjectOf(r, cols, c);
    }
  }

  /**
   * Rows written out as records behind `k` other records and read back into
   * one frame: row `i` comes back at position `k + i`, padded to the wider
   * set of columns.
   */
  lemma {:induction false} RowsBehind(front: seq<Object>, rows: seq<Row>, cols: seq<string>, i: nat)
    requires forall j :: 0 <= j < |rows| ==> rows[j].Keys == Elems(cols)
    requires i < |rows|
    ensures var all := front + ObjectsOf(rows, cols);
            rows[i].Keys <= Elems(ColumnOrder(all)) &&
            RowsOf(all, ColumnOrder(all))[|front| + i] == Padded(rows[i], Elems(ColumnOrder(all)))
  {
    var all := front + ObjectsOf(rows, cols);
    var k := |front| + i;
    assert all[k] == ObjectOf(rows[i], cols);
    RowOfObjectOf(rows[i], cols, ColumnOrder(all));
    forall c | c in rows[i]
      ensures c in ColumnOrder(all)
    {
      assert c in Keys(all[k]);
      ColumnOrderCovers(all, k, c);
    }
  }

  /** Every row with `col` set to `v`: what `frame[col] = v` does to the rows. */
  function WithColumn(rows: seq<Row>, col: string, v: Value): (rs: seq<Row>)
    ensures |rs| == |rows|
  {
    seq(|rows|, i requires 0 <= i < |rows| => rows[i][col := v])
  }

  /** Every row's `col` cell mapped through `f`: what `frame[col] = frame[col].apply(f)` does. */
  function MapColumn(rows: seq<Row>, col: string, f: Value -> Value): (rs: seq<Row>)
    requires forall i :: 0 <= i < |rows| ==> col in rows[i]
    ensures |rs| == |rows|
    ensures forall i :: 0 <= i < |rows| ==> rs[i].Keys == rows[i].Keys
  {
    seq(|rows|, i requires 0 <= i < |rows| => rows[i][col := f(rows[i][col])])
  }

  /** Every row cut down to `cols`: what `frame[cols]` keeps. */
  function Restricted(rows: seq<Row>, cols: seq<string>): (rs: seq<Row>)
    requires forall i :: 0 <= i < |rows| ==> Elems(cols) <= rows[i].Keys
    ensures |rs| == |rows|
  {
    seq(|rows|, i requires 0 <= i < |rows| => map c | c in Elems(cols) :: rows[i][c])
  }

  /** A pandas DataFrame: its column labels in order and its rows. */
  class Frame {
    var columns: seq<string>
    var rows: seq<Row>

    /** Labels are unique and every row has a cell for exactly the frame's columns. */
    ghost predicate Valid()
      reads this
    {
      Distinct(columns) && forall i :: 0 <= i < |rows| ==> rows[i].Keys == Elems(columns)
    }

    /** `pandas.DataFrame(objs)`. */
    constructor (objs: seq<Object>)
      ensures Valid()
      ensures columns == ColumnOrder(objs)
      ensures rows == RowsOf(objs, columns)
    {
      var cols := ColumnOrder(objs);
      columns := cols;
      rows := RowsOf(objs, cols);
    }

    /** `frame.empty`: no rows, or no columns. */
    predicate Empty()
      reads this
    {
      |rows| == 0 || |columns| == 0
    }

    /** `frame[col] = None` for a column the frame lacks: a new last column, missing in every row. */
    method AddColumn(col: string)
      requires Valid() && col !in columns
      modifies this
      ensures Valid()
      ensures columns == old(columns) + [col]
      ensures rows == WithColumn(old(rows), col, Null)
    {
      columns := columns + [col];
      rows := WithColumn(rows, col, Null);
    }

    /** `frame = frame[cols]`: exactly these columns, in this order. */
    method Select(cols: seq<string>)
      requires Valid() && Distinct(cols) && Elems(cols) <= Elems(columns)
      modifies this
      ensures Valid()
      ensures columns == cols
      ensures rows == Restricted(old(rows), cols)
    {
      rows := Restricted(rows, cols);
      columns := cols;
    }

    /** `frame[col] = frame[col].apply(f)`, one row at a time. */
    method Apply(col: string, f: Value -> Value)
      requires Valid() && col in columns
      modifies this
      ensures Valid()
      ensures columns == old(columns)
      ensures rows == MapColumn(old(rows), col, f)
    {
      for k := 0 to |rows|
        invariant Valid() && columns == old(columns) && |rows| == |old(rows)|
        invariant rows[..k] == MapColumn(old(rows), col, f)[..k]
        invariant rows[k..] == old(rows)[k..]
      {
        assert rows[k] == old(rows)[k] by {
          assert rows[k..][0] == old(rows)[k..][0];
        }
        rows := rows[k := rows[k][col := f(rows[k][col])]];
      }
    }

    /** `frame.to_dict('records')`: each row as a record over the frame's columns. */
    function Records(): (objs: seq<Object>)
      reads this
      requires Valid()
    {
      ObjectsOf(rows, columns)
    }
  }
}
