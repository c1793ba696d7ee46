# Demand forecasting: the `/forecast/` handler

This project models the one piece of the demand-forecasting service that
computes anything: the `POST /forecast/` handler. The handler takes an
uploaded CSV file and works through these steps:

1. It reads the file into a table. A read failure is reported as an error.
2. It drops every row that has a null in any column.
3. It checks that the seven feature columns the model was trained on are
   present: `past_sales`, `day_of_week`, `month`, `promotions`, `holidays`,
   `stock_level` and `customer_traffic`. The missing ones are reported in
   that order.
4. It runs the pre-trained regression model on those columns, one prediction
   per row.
5. When the table also has an `actual_sales` column, it adds three metrics:
   forecast accuracy, over-stock risk and under-stock risk.

Any exception raised in steps 4 and 5 becomes a "Prediction failed" error
response.

Modules:

- `Seqs` (`seqs.dfy`): order-preserving selection. `Filter` is the list
  comprehension and the row mask. `KeptIndices` gives the positions it keeps.
  There are also sums.
- `Tables` (`tables.dfy`): a table is a list of column names plus rows. A row
  maps column names to optional reals, and a field a row does not supply
  counts as null. This module holds the null-row cleaning (`DropNulls`) and
  the feature matrix handed to the model.
- `Schema` (`schema.dfy`): the required column list and the missing-column
  report.
- `Metrics` (`metrics.dfy`): absolute errors, accuracy, and the risk
  percentages. The metrics use exact `real` arithmetic.
- `Forecasting` (`forecast.dfy`): the handler as a pure function. It takes the
  reader's outcome (`Upload`) and the model loaded at start-up
  (`Option<Predictor>`). The model is an opaque function from the feature
  matrix to predictions or an exception. The handler returns a `Response`:
  either predictions with three nullable metrics, or a classified error.

Edge cases, as the code handles them:

- **No model loaded.** `model` is `None` (main.py:13), so `model.predict`
  (main.py:35) raises and the catch-all (main.py:56-57) answers "Prediction
  failed". There is no fallback prediction. The model returns
  `PredictionFailed(NoModel)`.
- **Zero mean of actual sales.** Accuracy (main.py:41) is a float division
  and raises nothing. It gives negative infinity when there is some error
  and not-a-number when there is none. The model names these as
  `NegativeInfinity` and `NotANumber`.
- **No rows left.** If `actual_sales` is present but no rows survive
  cleaning, `count / len(df)` (main.py:42) divides by a zero `int` and
  raises ZeroDivisionError inside the `try`, so the answer is "Prediction
  failed" (`DivisionByZero`). The model states this behaviour directly
  instead of assuming a non-empty table. A trained scikit-learn regression
  already raises on an empty feature matrix at main.py:35
  (`PredictorRaised`), so `DivisionByZero` is reached only with a predictor
  that accepts zero rows.
- **Wrong number of predictions.** If the model returns a different number
  of values than there are rows, the column assignment (main.py:36) raises.
  This is also "Prediction failed" (`LengthMismatch`).

## Model

| member | source | states |
|---|---|---|
| Seqs.Filter | main.py:26-29 | the selection keeps only elements that pass the test, keeps every element that passes, and is never longer than its input |
| Tables.DropNulls | main.py:26 | cleaning keeps the column list; every surviving row has a value in every column, including columns the model does not use; every complete row survives |
| Tables.DropNullsKeepsOrder | main.py:26 | the cleaned rows are exactly the complete input rows, taken at strictly increasing positions, so file order is kept and nothing is duplicated |
| Tables.DropNullsIdempotent | main.py:26 | cleaning a table that is already clean changes nothing |
| Tables.Features | main.py:35 | the model's input has one line per row in row order and one entry per requested column, and entry (i, j) is the cell of row i under column j |
| Tables.FeatureRow | main.py:35 | a line of the feature matrix holds the row's value under each requested column, in the order of the requested columns |
| Tables.ColumnValues | main.py:40-43 | one value per row, in row order: the cell of each row under the column |
| Schema.MissingColumns | main.py:28-29 | a column is reported missing exactly when it is required and absent from the table; the report is empty exactly when all seven are present |
| Schema.MissingInRequiredOrder | main.py:28-29 | the report lists each missing column once, at strictly increasing positions of the required list, whatever the table's own column order |
| Schema.MissingIgnoresColumnOrder | main.py:29 | two tables with the same set of column names get the same report |
| Metrics.AbsErrors | main.py:40 | each row's error is non-negative and equals the forecast minus the actual value or its negation |
| Metrics.Mean | main.py:41 | the mean taken once per entry adds up to the column's sum, and the mean of non-negative values is non-negative |
| Metrics.ErrorsZero | main.py:40-41 | the mean error is non-negative, and it is zero exactly when every forecast equals its actual value |
| Metrics.ForecastAccuracy | main.py:41 | accuracy is finite exactly when the mean actual value is non-zero; it is at most 100 when that mean is positive; it is not-a-number exactly when the mean is zero and every forecast is exact |
| Metrics.PerfectAccuracy | main.py:41 | with a non-zero mean actual value, accuracy is exactly 100 if and only if every forecast is exact |
| Metrics.AccuracyIsSumRatio | main.py:41 | with non-zero total actual sales, accuracy is 100 minus the total absolute error as a percentage of the total actual sales, the row count cancelling out of the two means |
| Metrics.CountAt | main.py:42-43 | the count of rows at one position (over, under or tie) is at most the row count, and it is zero exactly when no row is at that position |
| Metrics.CountIsSize | main.py:42-43 | the count is exactly the number of row positions whose forecast lies at that position relative to the actual value |
| Metrics.CountPartition | main.py:42-43 | every row is counted as exactly one of over, under or tie |
| Metrics.CountAllAt | main.py:42-43 | a count equals the row count exactly when every row is at that position |
| Metrics.Percent | main.py:42-43 | a count over the row count, as a percentage: the result times the row count is 100 times the count; it is in [0, 100], 0 exactly for a zero count and 100 exactly for a full count |
| Metrics.OverstockRisk | main.py:42 | over-stock risk is the number of rows whose forecast exceeds the actual value, as a percentage of the row count; it is in [0, 100], 0 exactly when no forecast exceeds its actual value, and 100 exactly when every forecast does |
| Metrics.UnderstockRisk | main.py:43 | under-stock risk is the number of rows whose forecast falls short of the actual value, as a percentage of the row count; it is in [0, 100], 0 exactly when no forecast falls short, and 100 exactly when every forecast does |
| Metrics.RiskSum | main.py:42-43 | over-stock plus under-stock is at most 100, and it equals 100 exactly when no forecast ties its actual value |
| Forecasting.Evaluate | main.py:39-43 | an empty table is a division-by-zero failure and a non-empty one succeeds; on success the predictions pass through unchanged and the three fields are the accuracy, over-stock risk and under-stock risk of the predictions against the `actual_sales` column, in that order; over-stock is 0 exactly when no forecast is above its actual sale and under-stock is 0 exactly when none is below; the risks sum to 100 exactly when no forecast ties; accuracy is finite and at most 100 when mean actual sales are positive, and exactly 100 when every forecast is exact |
| Forecasting.ReportedMetrics | main.py:39-54 | on a successful request with `actual_sales`, the reported accuracy, over-stock and under-stock are `ForecastAccuracy`, `OverstockRisk` and `UnderstockRisk` of the predictions against the clean rows' actual sales; over-stock is 0 exactly when no prediction is above its actual sale, under-stock 0 exactly when none is below; the risks sum to 100 exactly when no prediction ties; accuracy is at most 100 when mean actual sales are positive, and with non-zero mean actual sales exactly 100 when every prediction is exact |
| Forecasting.Forecast | main.py:20-57 | a read error is reported exactly when the upload was unreadable; a missing-column error names exactly the absent required columns; with no model loaded the request never succeeds; success needs all required columns and gives one prediction per clean row; the three metrics are present exactly when `actual_sales` is a column and respect the risk bounds |
| Forecasting.EarlyErrorsSkipModel | main.py:22-32 | a read failure or a missing column gives the same error whatever model is loaded, so the model is never consulted |
| Forecasting.SuccessConditions | main.py:22-57 | the request succeeds if and only if all required columns are present, a model is loaded, the model answers with one value per clean row, and, when `actual_sales` is present, at least one row survived cleaning |
| Forecasting.PredictionsFollowRows | main.py:35-50 | on success the predictions are the model's answer for the clean rows; line i of the matrix holds the features of the i-th surviving row in file order |
| Forecasting.CleaningFirst | main.py:26-29 | the handler gives the same answer for a table as for its cleaned form, so cleaning comes before the predictor and the metrics |
| Forecasting.TwoRowExample | main.py:39-54 | actual sales 120 and 180 with forecasts 110 and 190 give accuracy 100 - 10/150 * 100, over-stock 50 and under-stock 50 |

## Left out

- Reading the upload (`read_file` in utils.py). This is I/O plus the pandas
  CSV parser. The model takes its outcome as input: a table, or an error
  message that the handler passes through (main.py:22-24).
- Turning CSV text into typed cells. Pandas dtype inference is not modelled;
  every non-null cell is a real number. Text in a feature column reaches the
  model only through the opaque predictor, which may answer `Raised`.
- Text in the `actual_sales` column. The model succeeds, and then
  `df['forecast_sales'] - df['actual_sales']` (main.py:40) raises TypeError,
  which the handler answers with "Prediction failed" (main.py:56-57). Cells
  here are always numbers, so the model cannot produce this answer:
  `Forecasting.Evaluate` succeeds on every non-empty table.
- Model training (model.py) and `joblib.load` (main.py:9-14). Training is
  offline and runs in a foreign library. Loading is modelled only as "model
  present or absent".
- The regression itself. The predictor is a parameter, and the model says
  nothing about the values it returns.
- Routing, the `home` endpoint and server start-up (main.py:16-18, 81-83).
  These are plumbing.
- `get_dashboard_data` and `get_demand_comparison` (main.py:59-79). They
  return fixed literals, so there is no logic to model.
- State between requests. The handler keeps none: each request is answered
  from its own upload alone.
- Error message text. The model keeps the error kind and its payload, but not
  the formatted strings ("CSV file ... [columns]", "Prediction failed: ...").
- Floating-point rounding. Sales and percentages are exact reals.
- What happens after the handler returns is not
  modelled. For example, the JSON encoder rejects a non-finite accuracy.
- The reader's "error" check is a truthiness test (main.py:23). The reader
  always returns a non-empty message, so an `Unreadable` upload is always
  treated as an error.
