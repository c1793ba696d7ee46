/**
 The `POST /forecast/` handler: read the upload, drop rows with nulls, check
 the required columns, run the trained model on the feature matrix, and, when
 the upload carries actual sales, attach accuracy and stock-risk metrics.
 Every failure becomes an error response instead of a fault.
 */
module Forecasting {
  import opened Optional
  import opened Tables
  import opened Schema
  import opened Metrics

  /** What the CSV reader hands the handler: a table, or the reader's error message. */
  datatype Upload = Parsed(table: Table) | Unreadable(message: string)

  /** The outcome of asking the trained model for predictions. */
  datatype Prediction = Predicted(values: seq<real>) | Raised(message: string)

  /**
   The trained model, opaque: it receives the feature matrix (one line per row,
   one column per required feature in the required order) and answers with
   predictions or an exception.
   */
  type Predictor = seq<seq<real>> -> Prediction

  /** Why the prediction block failed; the handler reports each as "Prediction failed". */
  datatype Cause =
    | NoModel                                  // the model file did not load, so `predict` is called on nothing
    | PredictorRaised(message: string)         // the model itself raised
    | LengthMismatch(rows: nat, values: nat)   // the prediction column does not fit the table
    | DivisionByZero                           // risk ratios over a table with no rows left

  datatype Failure =
    | ReadFailed(message: string)
    | MissingRequired(columns: seq<string>)
    | PredictionFailed(cause: Cause)

  /** The handler's JSON answer: predictions with three metrics that may be null, or an error. */
  datatype Response =
    | Forecasted(predictions: seq<real>, accuracy: Option<Accuracy>,
                 overstock: Option<real>, understock: Option<real>)
    | Error(failure: Failure)

  /** The three metrics, computed from the forecasts and the actual-sales column of `rows`. */
  function Evaluate(predictions: seq<real>, rows: seq<Row>): (r: Response)
    requires |predictions| == |rows|
    requires forall i :: 0 <= i < |rows| ==> CellAt(rows[i], ActualSales).Some?
    ensures |rows| == 0 <==> r == Error(PredictionFailed(DivisionByZero))
    ensures |rows| > 0 <==> r.Forecasted?
    ensures r.Forecasted? ==>
      && r.predictions == predictions
      && r.accuracy.Some? && r.overstock.Some? && r.understock.Some?
      && 0.0 <= r.overstock.value <= 100.0
      && 0.0 <= r.understock.value <= 100.0
      && r.overstock.value + r.understock.value <= 100.0
    ensures r.Forecasted? ==>
      var actual := ColumnValues(rows, ActualSales);
      && |rows| > 0
      && r.accuracy == Some(ForecastAccuracy(predictions, actual))
      && r.overstock == Some(OverstockRisk(predictions, actual))
      && r.understock == Some(UnderstockRisk(predictions, actual))
      && (r.overstock.value == 0.0 <==> forall i :: 0 <= i < |rows| ==> predictions[i] <= actual[i])
      && (r.understock.value == 0.0 <==> forall i :: 0 <= i < |rows| ==> predictions[i] >= actual[i])
      && (r.overstock.value + r.understock.value == 100.0 <==>
            forall i :: 0 <= i < |rows| ==> predictions[i] != actual[i])
      && (Mean(actual) > 0.0 ==> r.accuracy.value.Finite? && r.accuracy.value.value <= 100.0)
      && (Mean(actual) != 0.0 ==>
            (r.accuracy.value == Finite(100.0) <==> forall i :: 0 <= i < |rows| ==> predictions[i] == actual[i]))
  {
    if |rows| == 0 then
      Error(PredictionFailed(DivisionByZero))
    else
      var actual := ColumnValues(rows, ActualSales);
      RiskSum(predictions, actual);
      assert Mean(actual) != 0.0 ==>
        (ForecastAccuracy(predictions, actual) == Finite(100.0) <==>
           forall i :: 0 <= i < |rows| ==> predictions[i] == actual[i]) by {
        if Mean(actual) != 0.0 {
          PerfectAccuracy(predictions, actual);
        }
      }
      Forecasted(predictions,
                 Some(ForecastAccuracy(predictions, actual)),
                 Some(OverstockRisk(predictions, actual)),
                 Some(UnderstockRisk(predictions, actual)))
  }

  /** The handler, given the reader's outcome and the model loaded at start-up (if any). */
  function Forecast(upload: Upload, model: Option<Predictor>): (r: Response)
    ensures upload.Unreadable? <==> r.Error? && r.failure.ReadFailed?
    ensures r.Error? && r.failure.MissingRequired? ==>
      && upload.Parsed?
      && |r.failure.columns| > 0
      && forall c :: c in r.failure.columns <==> c in Required && c !in upload.table.columns
    ensures upload.Parsed? && model.None? ==>
      r.Error? && (r.failure.MissingRequired? || r.failure == PredictionFailed(NoModel))
    ensures r.Forecasted? ==>
      && upload.Parsed?
      && model.Some?
      && (forall c :: c in Required ==> c in upload.table.columns)
      && |r.predictions| == |DropNulls(upload.table).rows|
    ensures r.Forecasted? ==>
      && (r.accuracy.Some? <==> ActualSales in upload.table.columns)
      && (r.overstock.Some? <==> ActualSales in upload.table.columns)
      && (r.understock.Some? <==> ActualSales in upload.table.columns)
    ensures r.Forecasted? && r.overstock.Some? ==>
      && 0.0 <= r.overstock.value <= 100.0
      && 0.0 <= r.understock.value <= 100.0
      && r.overstock.value + r.understock.value <= 100.0
  {
    match upload
    case Unreadable(message) => Error(ReadFailed(message))
    case Parsed(t) =>
      var clean := DropNulls(t);
      var missing := Schema.MissingColumns(clean.columns);
      if |missing| > 0 then
        Error(MissingRequired(missing))
      else
        match model
        case None => Error(PredictionFailed(NoModel))
        case Some(predict) =>
          assert AllComplete(clean.rows, Required) by {
            forall i | 0 <= i < |clean.rows|
              ensures Complete(clean.rows[i], Required)
            {
              assert Complete(clean.rows[i], clean.columns);
            }
          }
          match predict(Features(clean.rows, Required))
          case Raised(message) => Error(PredictionFailed(PredictorRaised(message)))
          case Predicted(values) =>
            if |values| != |clean.rows| then
              Error(PredictionFailed(LengthMismatch(|clean.rows|, |values|)))
            else if ActualSales !in clean.columns then
              Forecasted(values, None, None, None)
            else
              Evaluate(values, clean.rows)
  }

  /**
   A read failure or a missing required column ends the request before the
   model is consulted: the answer is the same whatever model is loaded.
   */
  lemma EarlyErrorsSkipModel(upload: Upload, m1: Option<Predictor>, m2: Option<Predictor>)
    requires upload.Unreadable? || |Schema.MissingColumns(upload.table.columns)| > 0
    ensures Forecast(upload, m1) == Forecast(upload, m2)
    ensures upload.Unreadable? ==> Forecast(upload, m1) == Error(ReadFailed(upload.message))
    ensures upload.Parsed? ==>
      Forecast(upload, m1) == Error(MissingRequired(Schema.MissingColumns(upload.table.columns)))
  {
  }

  /**
   The request succeeds exactly when the upload parsed, every required column
   is present, a model is loaded, the model answers with one value per clean
   row, and, if actual sales are supplied, at least one row survived cleaning.
   */
  lemma SuccessConditions(t: Table, model: Option<Predictor>)
    ensures Forecast(Parsed(t), model).Forecasted? <==>
      && (forall c :: c in Required ==> c in t.columns)
      && model.Some?
      && AllComplete(DropNulls(t).rows, Required)
      && model.value(Features(DropNulls(t).rows, Required)).Predicted?
      && |model.value(Features(DropNulls(t).rows, Required)).values| == |DropNulls(t).rows|
      && (ActualSales in t.columns ==> |DropNulls(t).rows| > 0)
  {
  }

  /**
   On success the predictions are the model's answer for the clean rows, fed
   in file order: line i of the matrix holds the required features of the
   i-th surviving row, and the i-th prediction belongs to it.
   */
  lemma PredictionsFollowRows(t: Table, predict: Predictor)
    requires Forecast(Parsed(t), Some(predict)).Forecasted?
    ensures AllComplete(DropNulls(t).rows, Required)
    ensures var m := Features(DropNulls(t).rows, Required);
      && Forecast(Parsed(t), Some(predict)).predictions == predict(m).values
      && forall i :: 0 <= i < |DropNulls(t).rows| ==> m[i] == FeatureRow(DropNulls(t).rows[i], Required)
  {
  }

  /**
   The metrics in a successful response are those of the predictions against
   the actual sales of the clean rows: the risks fill 100 percent exactly when
   no prediction ties, and accuracy is bounded by, and reaches, 100 as the
   metric functions promise.
   */
  lemma ReportedMetrics(t: Table, model: Option<Predictor>)
    requires Forecast(Parsed(t), model).Forecasted?
    ensures ActualSales in t.columns ==>
      var r := Forecast(Parsed(t), model);
      var clean := DropNulls(t).rows;
      && r.accuracy.Some? && r.overstock.Some? && r.understock.Some?
      && |clean| > 0
      && (forall i :: 0 <= i < |clean| ==> CellAt(clean[i], ActualSales).Some?)
      && var actual := ColumnValues(clean, ActualSales);
      && r.accuracy == Some(ForecastAccuracy(r.predictions, actual))
      && r.overstock == Some(OverstockRisk(r.predictions, actual))
      && r.understock == Some(UnderstockRisk(r.predictions, actual))
      && (r.overstock.value == 0.0 <==> forall i :: 0 <= i < |clean| ==> r.predictions[i] <= actual[i])
      && (r.understock.value == 0.0 <==> forall i :: 0 <= i < |clean| ==> r.predictions[i] >= actual[i])
      && (r.overstock.value + r.understock.value == 100.0 <==>
            forall i :: 0 <= i < |clean| ==> r.predictions[i] != actual[i])
      && (Mean(actual) > 0.0 ==> r.accuracy.value.Finite? && r.accuracy.value.value <= 100.0)
      && (Mean(actual) != 0.0 ==>
            (r.accuracy.value == Finite(100.0) <==> forall i :: 0 <= i < |clean| ==> r.predictions[i] == actual[i]))
  {
  }

  /**
   Cleaning is done before anything else looks at the rows: handing the
   handler a table that is already clean gives the same answer.
   */
  lemma CleaningFirst(t: Table, model: Option<Predictor>)
    ensures Forecast(Parsed(DropNulls(t)), model) == Forecast(Parsed(t), model)
  {
    DropNullsIdempotent(t);
  }

  /**
   Two rows with actual sales 120 and 180 and a model predicting 110 and 190:
   errors of 10 each, accuracy 100 - 10/150 * 100, one row over and one under.
   */
  lemma TwoRowExample()
    ensures var t := Table(Required + [ActualSales], [ExampleRow(100.0, 120.0), ExampleRow(200.0, 180.0)]);
      Forecast(Parsed(t), Some(ExampleModel()))
        == Forecasted([110.0, 190.0], Some(Finite(100.0 - 10.0 / 150.0 * 100.0)), Some(50.0), Some(50.0))
  {
    var t := Table(Required + [ActualSales], [ExampleRow(100.0, 120.0), ExampleRow(200.0, 180.0)]);
    ExamplePipeline(t);
    ExampleMetrics(t.rows);
  }

  /** The example table passes cleaning and the column check and reaches the metrics. */
  lemma ExamplePipeline(t: Table)
    requires t == Table(Required + [ActualSales], [ExampleRow(100.0, 120.0), ExampleRow(200.0, 180.0)])
    ensures AllComplete(t.rows, Required)
    ensures Forecast(Parsed(t), Some(ExampleModel())) == Evaluate([110.0, 190.0], t.rows)
  {
    ExampleClean(t);
    ExampleComplete(100.0, 120.0);
    ExampleComplete(200.0, 180.0);
    assert ExampleModel()(Features(t.rows, Required)) == Predicted([110.0, 190.0]);
  }

  /** The metrics of the example, computed step by step. */
  lemma ExampleMetrics(rows: seq<Row>)
    requires rows == [ExampleRow(100.0, 120.0), ExampleRow(200.0, 180.0)]
    ensures Evaluate([110.0, 190.0], rows)
      == Forecasted([110.0, 190.0], Some(Finite(100.0 - 10.0 / 150.0 * 100.0)), Some(50.0), Some(50.0))
  {
    var actual := ColumnValues(rows, ActualSales);
    assert actual == [120.0, 180.0];
    var forecast := [110.0, 190.0];
    var err := AbsErrors(forecast, actual);
    assert err == [10.0, 10.0];
    assert Seqs.Sum(err) == 20.0 by {
      assert err[..1] == [10.0];
      assert err[..1][..0] == [];
      assert Seqs.Sum(err[..1]) == 10.0;
    }
    assert Seqs.Sum(actual) == 300.0 by {
      assert actual[..1] == [120.0];
      assert actual[..1][..0] == [];
      assert Seqs.Sum(actual[..1]) == 120.0;
    }
    assert forecast[..1] == [110.0] && actual[..1] == [120.0];
    assert forecast[..1][..0] == [] && actual[..1][..0] == [];
    assert CountAt(forecast, actual, Over) == 1;
    assert CountAt(forecast, actual, Under) == 1;
  }

  /** Both example rows are complete, and every required column is there. */
  lemma ExampleClean(t: Table)
    requires t == Table(Required + [ActualSales], [ExampleRow(100.0, 120.0), ExampleRow(200.0, 180.0)])
    ensures DropNulls(t) == t
    ensures Schema.MissingColumns(t.columns) == []
    ensures ActualSales in t.columns
  {
    ExampleComplete(100.0, 120.0);
    ExampleComplete(200.0, 180.0);
    assert t.rows[..1] == [t.rows[0]];
  }

  /** An example row has a value under every column of the example table. */
  lemma ExampleComplete(past: real, actual: real)
    ensures Complete(ExampleRow(past, actual), Required + [ActualSales])
  {
  }

  /** A model that answers 110 and 190 whatever it is shown. */
  function ExampleModel(): Predictor {
    _ => Predicted([110.0, 190.0])
  }

  /** A complete example record with the given past and actual sales. */
  function ExampleRow(past: real, actual: real): Row {
    map["past_sales" := Some(past), "day_of_week" := Some(1.0), "month" := Some(1.0),
        "promotions" := Some(0.0), "holidays" := Some(0.0), "stock_level" := Some(50.0),
        "customer_traffic" := Some(200.0), "actual_sales" := Some(actual)]
  }
}
