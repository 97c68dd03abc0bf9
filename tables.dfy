/** A data frame read with every cell as a string (pandas `dtype=str,
    na_filter=False`): a header and rows of the same width. */
module Tables {

  datatype Table = Table(header: seq<string>, rows: seq<seq<string>>)

  predicate WellFormed(t: Table)
  {
    forall i :: 0 <= i < |t.rows| ==> |t.rows[i]| == |t.header|
  }

  /** `df.empty`: no rows or no columns. */
  predicate IsEmpty(t: Table)
  {
    |t.rows| == 0 || |t.header| == 0
  }

  /** Applies `f` to every cell of every column called `name`. */
  function MapColumns(t: Table, name: string, f: string -> string): (r: Table)
    requires WellFormed(t)
    ensures WellFormed(r) && r.header == t.header && |r.rows| == |t.rows|
    ensures forall i, k :: 0 <= i < |t.rows| && 0 <= k < |t.header| ==>
              r.rows[i][k] == if t.header[k] == name then f(t.rows[i][k]) else t.rows[i][k]
  {
    Table(t.header, seq(|t.rows|, i requires 0 <= i < |t.rows| =>
      seq(|t.header|, k requires 0 <= k < |t.header| =>
        if t.header[k] == name then f(t.rows[i][k]) else t.rows[i][k])))
  }

  /** Position of the first column called `name` (`df[name]` on a frame whose
      column names are distinct). */
  function ColumnIndex(header: seq<string>, name: string): (k: nat)
    requires name in header
    ensures k < |header| && header[k] == name
    ensures forall j :: 0 <= j < k ==> header[j] != name
  {
    if header[0] == name then 0 else ColumnIndex(header[1..], name) + 1
  }

  /** Rows taken from a well-formed table make a well-formed table. */
  lemma RowsFrom(t: Table, rows: seq<seq<string>>)
    requires WellFormed(t)
    requires forall row :: row in rows ==> row in t.rows
    ensures WellFormed(Table(t.header, rows))
  {
    forall i | 0 <= i < |rows|
      ensures |rows[i]| == |t.header|
    {
      assert rows[i] in t.rows;
    }
  }
}
