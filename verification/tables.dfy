/** A value that may be missing. */
module Optional {
  datatype Option<T> = None | Some(value: T)
}

/**
 The parsed upload: named columns and rows of numeric cells, any of which may
 be null, and the null-row cleaning the handler applies before anything else.
 */
module Tables {
  import opened Optional
  import Seqs

  /** A cell: a number, or null (NaN after parsing). */
  type Cell = Option<real>

  /** One record, keyed by column name. */
  type Row = map<string, Cell>

  /** A parsed table: the header's column names and the records in file order. */
  datatype Table = Table(columns: seq<string>, rows: seq<Row>)

  /** The cell of `row` under `column`; a field the record did not supply is null. */
  function CellAt(row: Row, column: string): Cell {
    if column in row then row[column] else None
  }

  /** `row` has a value under every one of `columns`. */
  predicate Complete(row: Row, columns: seq<string>) {
    forall c :: c in columns ==> CellAt(row, c).Some?
  }

  /** The test the cleaning step applies to each row of a table with `columns`. */
  function Keep(columns: seq<string>): Row -> bool {
    row => Complete(row, columns)
  }

  /**
   Drop every row that has a null in any column of the table, whether the
   column is one the forecast needs or not; the surviving rows keep their order.
   */
  function DropNulls(t: Table): (r: Table)
    ensures r.columns == t.columns
    ensures |r.rows| <= |t.rows|
    ensures forall i :: 0 <= i < |r.rows| ==> r.rows[i] in t.rows && Complete(r.rows[i], t.columns)
    ensures forall i :: 0 <= i < |t.rows| && Complete(t.rows[i], t.columns) ==> t.rows[i] in r.rows
  {
    Table(t.columns, Seqs.Filter(t.rows, Keep(t.columns)))
  }

  /**
   The cleaned rows are exactly the complete rows of the input, taken at
   strictly increasing positions: nothing is reordered, nothing duplicated.
   */
  lemma DropNullsKeepsOrder(t: Table)
    ensures var ix := Seqs.KeptIndices(t.rows, Keep(t.columns));
      && |DropNulls(t).rows| == |ix|
      && (forall k :: 0 <= k < |ix| ==> ix[k] < |t.rows| && DropNulls(t).rows[k] == t.rows[ix[k]])
      && (forall k, l :: 0 <= k < l < |ix| ==> ix[k] < ix[l])
      && (forall i :: 0 <= i < |t.rows| ==> (i in ix <==> Complete(t.rows[i], t.columns)))
  {
    Seqs.FilterAt(t.rows, Keep(t.columns));
    var ix := Seqs.KeptIndices(t.rows, Keep(t.columns));
    forall i | 0 <= i < |t.rows|
      ensures i in ix <==> Complete(t.rows[i], t.columns)
    {
      if i in ix {
        var k :| 0 <= k < |ix| && ix[k] == i;
        assert Keep(t.columns)(t.rows[ix[k]]);
      } else {
        assert !Keep(t.columns)(t.rows[i]);
      }
    }
  }

  /** Cleaning an already clean table changes nothing. */
  lemma DropNullsIdempotent(t: Table)
    ensures DropNulls(DropNulls(t)) == DropNulls(t)
  {
    Seqs.FilterIdempotent(t.rows, Keep(t.columns));
  }

  /**
   The values of `row` under `columns`, in the order of `columns`: one line of
   the feature matrix handed to the predictor.
   */
  function FeatureRow(row: Row, columns: seq<string>): (r: seq<real>)
    requires Complete(row, columns)
    ensures |r| == |columns|
    ensures forall j :: 0 <= j < |columns| ==> CellAt(row, columns[j]) == Some(r[j])
  {
    seq(|columns|, j requires 0 <= j < |columns| => CellAt(row, columns[j]).value)
  }

  /** Every row of `rows` is complete on `columns`. */
  predicate AllComplete(rows: seq<Row>, columns: seq<string>) {
    forall i :: 0 <= i < |rows| ==> Complete(rows[i], columns)
  }

  /** The feature matrix of `rows` restricted to `columns`: one line per row, in row order. */
  function Features(rows: seq<Row>, columns: seq<string>): (m: seq<seq<real>>)
    requires AllComplete(rows, columns)
    ensures |m| == |rows|
    ensures forall i :: 0 <= i < |rows| ==> |m[i]| == |columns|
    ensures forall i, j :: 0 <= i < |rows| && 0 <= j < |columns| ==> CellAt(rows[i], columns[j]) == Some(m[i][j])
  {
    seq(|rows|, i requires 0 <= i < |rows| => FeatureRow(rows[i], columns))
  }

  /** The values of one column, in row order. */
  function ColumnValues(rows: seq<Row>, column: string): (v: seq<real>)
    requires forall i :: 0 <= i < |rows| ==> CellAt(rows[i], column).Some?
    ensures |v| == |rows|
    ensures forall i :: 0 <= i < |rows| ==> CellAt(rows[i], column) == Some(v[i])
  {
    seq(|rows|, i requires 0 <= i < |rows| => CellAt(rows[i], column).value)
  }
}
