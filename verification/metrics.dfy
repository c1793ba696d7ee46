/**
 The ground-truth metrics the forecast handler reports when the upload carries
 actual sales: per-row absolute error, forecast accuracy, and the over-stock
 and under-stock risk percentages. Arithmetic is exact (`real`); the floating
 point outcomes of a zero mean are named explicitly.
 */
module Metrics {
  import Seqs

  /** Where a forecast lies relative to the actual value. */
  datatype Position = Over | Under | Exact

  function PositionOf(forecast: real, actual: real): Position {
    if forecast > actual then Over
    else if forecast < actual then Under
    else Exact
  }

  /** How many rows have their forecast at `pos` relative to the actual value. */
  function CountAt(forecast: seq<real>, actual: seq<real>, pos: Position): (k: nat)
    requires |forecast| == |actual|
    ensures k <= |forecast|
    ensures k == 0 <==> forall i :: 0 <= i < |forecast| ==> PositionOf(forecast[i], actual[i]) != pos
  {
    if |forecast| == 0 then 0
    else
      var n := |forecast| - 1;
      CountAt(forecast[..n], actual[..n], pos) + (if PositionOf(forecast[n], actual[n]) == pos then 1 else 0)
  }

  /** The count is the number of row positions whose forecast lies at `pos`. */
  lemma {:induction false} CountIsSize(forecast: seq<real>, actual: seq<real>, pos: Position)
    requires |forecast| == |actual|
    ensures CountAt(forecast, actual, pos)
            == |set i | 0 <= i < |forecast| && PositionOf(forecast[i], actual[i]) == pos|
  {
    if |forecast| > 0 {
      var n := |forecast| - 1;
      CountIsSize(forecast[..n], actual[..n], pos);
      var front := set i | 0 <= i < n && PositionOf(forecast[i], actual[i]) == pos;
      assert (set i | 0 <= i < n && PositionOf(forecast[..n][i], actual[..n][i]) == pos) == front;
      var all := set i | 0 <= i < |forecast| && PositionOf(forecast[i], actual[i]) == pos;
      if PositionOf(forecast[n], actual[n]) == pos {
        assert all == front + {n};
      } else {
        assert all == front;
      }
    }
  }

  /** Every row is over, under or exact, and only one of them. */
  lemma {:induction false} CountPartition(forecast: seq<real>, actual: seq<real>)
    requires |forecast| == |actual|
    ensures CountAt(forecast, actual, Over) + CountAt(forecast, actual, Under)
            + CountAt(forecast, actual, Exact) == |forecast|
  {
    if |forecast| > 0 {
      var n := |forecast| - 1;
      CountPartition(forecast[..n], actual[..n]);
    }
  }

  /** The absolute difference between each forecast and its actual value. */
  function AbsErrors(forecast: seq<real>, actual: seq<real>): (e: seq<real>)
    requires |forecast| == |actual|
    ensures |e| == |forecast|
    ensures forall i :: 0 <= i < |e| ==>
      e[i] >= 0.0 && (e[i] == forecast[i] - actual[i] || e[i] == actual[i] - forecast[i])
  {
    seq(|forecast|, i requires 0 <= i < |forecast| =>
      if forecast[i] >= actual[i] then forecast[i] - actual[i] else actual[i] - forecast[i])
  }

  /**
   Arithmetic mean of a non-empty column: the value that, taken once per
   entry, adds up to the column's sum; it keeps the sign of non-negative data.
   */
  function Mean(xs: seq<real>): (m: real)
    requires |xs| > 0
    ensures m * (|xs| as real) == Seqs.Sum(xs)
    ensures (forall i :: 0 <= i < |xs| ==> xs[i] >= 0.0) ==> m >= 0.0
  {
    assert (forall i :: 0 <= i < |xs| ==> xs[i] >= 0.0) ==> Seqs.Sum(xs) >= 0.0 by {
      if forall i :: 0 <= i < |xs| ==> xs[i] >= 0.0 {
        Seqs.SumNonNegative(xs);
      }
    }
    Seqs.Sum(xs) / (|xs| as real)
  }

  /**
   The accuracy value. When the actual column averages to zero the float
   division yields infinity (some error) or not-a-number (no error at all).
   */
  datatype Accuracy = Finite(value: real) | NegativeInfinity | NotANumber

  /** 100 minus the mean absolute error as a percentage of the mean actual value. */
  function ForecastAccuracy(forecast: seq<real>, actual: seq<real>): (r: Accuracy)
    requires |forecast| == |actual| > 0
    ensures r.Finite? <==> Mean(actual) != 0.0
    ensures Mean(actual) > 0.0 ==> r.value <= 100.0
    ensures r.NotANumber? <==>
      Mean(actual) == 0.0 && forall i :: 0 <= i < |forecast| ==> forecast[i] == actual[i]
  {
    var err := AbsErrors(forecast, actual);
    Seqs.SumNonNegative(err);
    ErrorsZero(forecast, actual);
    var meanActual := Mean(actual);
    var meanError := Mean(err);
    if meanActual != 0.0 then
      assert meanError >= 0.0;
      Finite(100.0 - meanError / meanActual * 100.0)
    else if meanError == 0.0 then NotANumber
    else NegativeInfinity
  }

  /** The errors sum to zero exactly when every forecast hits its actual value. */
  lemma ErrorsZero(forecast: seq<real>, actual: seq<real>)
    requires |forecast| == |actual| > 0
    ensures Mean(AbsErrors(forecast, actual)) >= 0.0
    ensures Mean(AbsErrors(forecast, actual)) == 0.0 <==>
      forall i :: 0 <= i < |forecast| ==> forecast[i] == actual[i]
  {
    var err := AbsErrors(forecast, actual);
    Seqs.SumNonNegative(err);
    assert forall i :: 0 <= i < |err| ==> (err[i] == 0.0 <==> forecast[i] == actual[i]);
  }

  /** Accuracy is exactly 100 when, and only when, every forecast is exact. */
  lemma PerfectAccuracy(forecast: seq<real>, actual: seq<real>)
    requires |forecast| == |actual| > 0
    requires Mean(actual) != 0.0
    ensures ForecastAccuracy(forecast, actual) == Finite(100.0) <==>
      forall i :: 0 <= i < |forecast| ==> forecast[i] == actual[i]
  {
    ErrorsZero(forecast, actual);
    var meanError := Mean(AbsErrors(forecast, actual));
    var meanActual := Mean(actual);
    assert meanError / meanActual * 100.0 == 0.0 <==> meanError == 0.0;
  }

  /**
   With a non-zero total of actual values, accuracy is 100 minus the total
   absolute error as a percentage of the total actual value: the row count
   cancels out of the two means.
   */
  lemma AccuracyIsSumRatio(forecast: seq<real>, actual: seq<real>)
    requires |forecast| == |actual| > 0
    requires Seqs.Sum(actual) != 0.0
    ensures ForecastAccuracy(forecast, actual)
      == Finite(100.0 - Seqs.Sum(AbsErrors(forecast, actual)) / Seqs.Sum(actual) * 100.0)
  {
    var n := |forecast| as real;
    var err := AbsErrors(forecast, actual);
    assert Mean(err) == Seqs.Sum(err) / n;
    assert Mean(actual) == Seqs.Sum(actual) / n;
    MeansCancel(Seqs.Sum(err), Seqs.Sum(actual), n);
  }

  /** Dividing both sides of a ratio by the same positive count leaves it unchanged. */
  lemma MeansCancel(x: real, y: real, n: real)
    requires n > 0.0 && y != 0.0
    ensures y / n != 0.0
    ensures (x / n) / (y / n) == x / y
  {
    assert (x / n) * n == x;
    assert (y / n) * n == y;
  }

  /** `k` out of `n` rows, as a percentage. */
  function Percent(k: nat, n: nat): (r: real)
    requires n > 0
    ensures r >= 0.0
    ensures k <= n ==> r <= 100.0
    ensures r == 0.0 <==> k == 0
    ensures r == 100.0 <==> k == n
    ensures r * (n as real) == (k as real) * 100.0
  {
    var ratio := (k as real) / (n as real);
    assert ratio * (n as real) == k as real;
    assert (1.0 - ratio) * (n as real) == (n - k) as real;
    assert k <= n ==> ratio <= 1.0;
    assert k == n ==> ratio == 1.0 by {
      if k == n {
        assert (n as real) / (n as real) == 1.0;
      }
    }
    ratio * 100.0
  }

  /** Share of rows, in percent, whose forecast exceeds the actual value. */
  function OverstockRisk(forecast: seq<real>, actual: seq<real>): (r: real)
    requires |forecast| == |actual| > 0
    ensures 0.0 <= r <= 100.0
    ensures r == 0.0 <==> forall i :: 0 <= i < |forecast| ==> forecast[i] <= actual[i]
    ensures r == 100.0 <==> forall i :: 0 <= i < |forecast| ==> forecast[i] > actual[i]
    ensures r == Percent(|set i | 0 <= i < |forecast| && forecast[i] > actual[i]|, |forecast|)
  {
    CountAllAt(forecast, actual, Over);
    CountIsSize(forecast, actual, Over);
    assert (set i | 0 <= i < |forecast| && PositionOf(forecast[i], actual[i]) == Over)
        == (set i | 0 <= i < |forecast| && forecast[i] > actual[i]);
    Percent(CountAt(forecast, actual, Over), |forecast|)
  }

  /** Share of rows, in percent, whose forecast falls short of the actual value. */
  function UnderstockRisk(forecast: seq<real>, actual: seq<real>): (r: real)
    requires |forecast| == |actual| > 0
    ensures 0.0 <= r <= 100.0
    ensures r == 0.0 <==> forall i :: 0 <= i < |forecast| ==> forecast[i] >= actual[i]
    ensures r == 100.0 <==> forall i :: 0 <= i < |forecast| ==> forecast[i] < actual[i]
    ensures r == Percent(|set i | 0 <= i < |forecast| && forecast[i] < actual[i]|, |forecast|)
  {
    CountAllAt(forecast, actual, Under);
    CountIsSize(forecast, actual, Under);
    assert (set i | 0 <= i < |forecast| && PositionOf(forecast[i], actual[i]) == Under)
        == (set i | 0 <= i < |forecast| && forecast[i] < actual[i]);
    Percent(CountAt(forecast, actual, Under), |forecast|)
  }

  /** The count reaches the row count exactly when every row is at `pos`. */
  lemma {:induction false} CountAllAt(forecast: seq<real>, actual: seq<real>, pos: Position)
    requires |forecast| == |actual|
    ensures CountAt(forecast, actual, pos) == |forecast| <==>
      forall i :: 0 <= i < |forecast| ==> PositionOf(forecast[i], actual[i]) == pos
  {
    if |forecast| > 0 {
      var n := |forecast| - 1;
      CountAllAt(forecast[..n], actual[..n], pos);
      assert forall i :: 0 <= i < n ==> forecast[..n][i] == forecast[i] && actual[..n][i] == actual[i];
    }
  }

  /**
   Over-stock and under-stock never exceed 100 percent together; ties count
   toward neither, so they reach 100 exactly when no forecast equals its actual value.
   */
  lemma RiskSum(forecast: seq<real>, actual: seq<real>)
    requires |forecast| == |actual| > 0
    ensures OverstockRisk(forecast, actual) + UnderstockRisk(forecast, actual) <= 100.0
    ensures OverstockRisk(forecast, actual) + UnderstockRisk(forecast, actual) == 100.0 <==>
      forall i :: 0 <= i < |forecast| ==> forecast[i] != actual[i]
  {
    CountPartition(forecast, actual);
    var over := CountAt(forecast, actual, Over);
    var under := CountAt(forecast, actual, Under);
    var n := |forecast|;
    PercentAdd(over, under, n);
    assert OverstockRisk(forecast, actual) + UnderstockRisk(forecast, actual) == Percent(over + under, n);
    assert over + under == n <==> CountAt(forecast, actual, Exact) == 0;
    assert (forall i :: 0 <= i < n ==> PositionOf(forecast[i], actual[i]) != Exact) <==>
      (forall i :: 0 <= i < n ==> forecast[i] != actual[i]);
  }

  /** Percentages of the same row count add up like their counts. */
  lemma PercentAdd(a: nat, b: nat, n: nat)
    requires n > 0
    ensures Percent(a, n) + Percent(b, n) == Percent(a + b, n)
  {
  }
}
