/**
 The fixed input schema of the forecast handler and the check that reports
 which of its columns an upload lacks.
 */
module Schema {
  import Seqs

  /** The feature columns the model was trained on, in the order it expects them. */
  const Required: seq<string> :=
    ["past_sales", "day_of_week", "month", "promotions", "holidays", "stock_level", "customer_traffic"]

  /** The optional ground-truth column that switches the accuracy metrics on. */
  const ActualSales: string := "actual_sales"

  /** The test the check applies to each required column of a table with `columns`. */
  function Absent(columns: seq<string>): string -> bool {
    c => c !in columns
  }

  /**
   The required columns that `columns` lacks, listed in the order of the
   required list, whatever order the table's own columns are in.
   */
  function MissingColumns(columns: seq<string>): (missing: seq<string>)
    ensures forall c :: c in missing <==> c in Required && c !in columns
    ensures |missing| == 0 <==> forall c :: c in Required ==> c in columns
    ensures |missing| <= |Required|
  {
    var missing := Seqs.Filter(Required, Absent(columns));
    assert forall c :: c in missing <==> c in Required && c !in columns;
    assert |missing| > 0 ==> missing[0] in missing;
    missing
  }

  lemma RequiredDistinct()
    ensures Seqs.Distinct(Required)
  {
  }

  /**
   Each missing column is reported once, and the report is the required list
   with the present columns struck out: the k-th entry sits at a later position
   of the required list than the (k-1)-th.
   */
  lemma MissingInRequiredOrder(columns: seq<string>)
    ensures Seqs.Distinct(MissingColumns(columns))
    ensures var ix := Seqs.KeptIndices(Required, Absent(columns));
      && |MissingColumns(columns)| == |ix|
      && (forall k :: 0 <= k < |ix| ==> ix[k] < |Required| && MissingColumns(columns)[k] == Required[ix[k]])
      && (forall k, l :: 0 <= k < l < |ix| ==> ix[k] < ix[l])
  {
    RequiredDistinct();
    Seqs.FilterDistinct(Required, Absent(columns));
    Seqs.FilterAt(Required, Absent(columns));
  }

  /** The report depends only on which columns are present, not on their order or repetition. */
  lemma MissingIgnoresColumnOrder(a: seq<string>, b: seq<string>)
    requires forall c :: c in a <==> c in b
    ensures MissingColumns(a) == MissingColumns(b)
  {
    Seqs.FilterCongruent(Required, Absent(a), Absent(b));
  }
}
