/**
 * Evaluation at a fixed decision threshold: turning fraud probabilities into
 * alerts, counting them against the true labels (the 2x2 confusion matrix),
 * and the operational indicators compared across models (alerts raised,
 * share of transactions alerted, frauds captured and missed).
 *
 * Probabilities and thresholds are exact reals; labels are integers, of
 * which only 0 (legitimate) and 1 (fraud) are counted, as the confusion
 * matrix is built over the labels [0, 1].
 */
module Metrics {
  import opened Wrappers

  /** Exceptions raised by the evaluation code. */
  datatype Error =
    /** `y_true` and `y_proba` differ in length (the library's `ValueError`). */
    | InconsistentLengths(labels: nat, scores: nat)
    /**
     * A non-empty `y_true` holds neither 0 nor 1, so none of the labels
     * `[0, 1]` of the confusion matrix occurs in it (`ValueError`).
     */
    | NoListedLabel
    /**
     * `precision_score`/`recall_score` with `average="binary"` and
     * `pos_label=1` refuse the target: more than two distinct values among
     * labels and predictions, or two of them without 1 (`ValueError`).
     */
    | NotBinaryTarget
    /** The table has no rows, so it has no `pct_alertas` column to sort by (`KeyError`). */
    | NoRows

  // ---------------------------------------------------------------------------
  // Reference counts, stated position by position
  // ---------------------------------------------------------------------------

  /** Number of transactions labelled `value`. */
  function Labelled(yTrue: seq<int>, value: int): (n: nat)
    ensures n <= |yTrue|
    decreases |yTrue|
  {
    if yTrue == [] then 0
    else (if yTrue[0] == value then 1 else 0) + Labelled(yTrue[1..], value)
  }

  /** Number of transactions whose probability reaches the threshold. */
  function Flagged(yProba: seq<real>, threshold: real): (n: nat)
    ensures n <= |yProba|
    decreases |yProba|
  {
    if yProba == [] then 0
    else (if yProba[0] >= threshold then 1 else 0) + Flagged(yProba[1..], threshold)
  }

  /** Number of transactions labelled `value` whose probability reaches the threshold. */
  function FlaggedWithLabel(yTrue: seq<int>, yProba: seq<real>, threshold: real, value: int): (n: nat)
    requires |yTrue| == |yProba|
    ensures n <= Labelled(yTrue, value)
    ensures n <= Flagged(yProba, threshold)
    decreases |yTrue|
  {
    if yTrue == [] then 0
    else
      (if yTrue[0] == value && yProba[0] >= threshold then 1 else 0)
      + FlaggedWithLabel(yTrue[1..], yProba[1..], threshold, value)
  }

  predicate AllBinary(yTrue: seq<int>)
  {
    forall k :: 0 <= k < |yTrue| ==> yTrue[k] == 0 || yTrue[k] == 1
  }

  /** A non-empty label sequence in which neither 0 nor 1 occurs. */
  predicate NoListedLabelIn(yTrue: seq<int>)
  {
    |yTrue| > 0 && forall k :: 0 <= k < |yTrue| ==> yTrue[k] != 0 && yTrue[k] != 1
  }

  /** `unique_labels(y_true, y_pred)`: the distinct values among labels and predictions. */
  function PresentLabels(yTrue: seq<int>, yPred: seq<int>): (r: set<int>)
    ensures forall v :: v in r <==> v in yTrue || v in yPred
  {
    (set k | 0 <= k < |yTrue| :: yTrue[k]) + (set k | 0 <= k < |yPred| :: yPred[k])
  }

  /**
   * `average="binary"` with `pos_label=1` refuses more than two distinct
   * values, and two distinct values of which neither is 1.
   */
  predicate BinaryTargetRejected(present: set<int>)
  {
    |present| > 2 || (|present| == 2 && 1 !in present)
  }

  // ---------------------------------------------------------------------------
  // Thresholding
  // ---------------------------------------------------------------------------

  /** The decision threshold used when the caller gives none. */
  const DefaultThreshold: real := 0.5

  /** `int(proba >= threshold)`: 1 raises an alert (predicted fraud), 0 does not. */
  function Predict(proba: real, threshold: real): (r: int)
    ensures r == 0 || r == 1
    ensures r == 1 <==> proba >= threshold
  {
    if proba >= threshold then 1 else 0
  }

  /** `(y_proba >= threshold).astype(int)`, element by element. */
  function Predictions(yProba: seq<real>, threshold: real): (r: seq<int>)
    ensures |r| == |yProba|
    ensures forall k :: 0 <= k < |r| ==> (r[k] == 1 <==> yProba[k] >= threshold)
    ensures AllBinary(r)
    decreases |yProba|
  {
    if yProba == [] then []
    else [Predict(yProba[0], threshold)] + Predictions(yProba[1..], threshold)
  }

  // ---------------------------------------------------------------------------
  // Confusion counts
  // ---------------------------------------------------------------------------

  /** Number of pairs whose true label is `actual` and whose prediction is `predicted`. */
  function Count(yTrue: seq<int>, yPred: seq<int>, actual: int, predicted: int): (n: nat)
    requires |yTrue| == |yPred|
    ensures n <= Labelled(yTrue, actual)
    decreases |yTrue|
  {
    if yTrue == [] then 0
    else
      (if yTrue[0] == actual && yPred[0] == predicted then 1 else 0)
      + Count(yTrue[1..], yPred[1..], actual, predicted)
  }

  /** The four cells of the matrix over labels [0, 1], flattened row by row. */
  datatype Confusion = Confusion(tn: nat, fp: nat, fn: nat, tp: nat)

  /** Adds one pair to its cell; a pair with a label outside {0, 1} is not counted. */
  function Bump(c: Confusion, actual: int, predicted: int): Confusion
  {
    if actual == 0 && predicted == 0 then c.(tn := c.tn + 1)
    else if actual == 0 && predicted == 1 then c.(fp := c.fp + 1)
    else if actual == 1 && predicted == 0 then c.(fn := c.fn + 1)
    else if actual == 1 && predicted == 1 then c.(tp := c.tp + 1)
    else c
  }

  /**
   * One pass over the pairs, as the confusion matrix is accumulated: each
   * cell ends up holding the number of pairs that match it.
   */
  function Tally(yTrue: seq<int>, yPred: seq<int>): (c: Confusion)
    requires |yTrue| == |yPred|
    ensures c.tn == Count(yTrue, yPred, 0, 0)
    ensures c.fp == Count(yTrue, yPred, 0, 1)
    ensures c.fn == Count(yTrue, yPred, 1, 0)
    ensures c.tp == Count(yTrue, yPred, 1, 1)
    decreases |yTrue|
  {
    if yTrue == [] then Confusion(0, 0, 0, 0)
    else Bump(Tally(yTrue[1..], yPred[1..]), yTrue[0], yPred[0])
  }

  /**
   * `compute_confusion_matrix`: rows are the true label (0, 1), columns the
   * predicted label (0, 1), each cell the number of matching transactions.
   */
  function ConfusionMatrix(yTrue: seq<int>, yProba: seq<real>, threshold: real := DefaultThreshold)
    : (r: Result<seq<seq<nat>>, Error>)
    ensures r.Err? <==> |yTrue| != |yProba| || NoListedLabelIn(yTrue)
    ensures |yTrue| != |yProba| ==> r == Err(InconsistentLengths(|yTrue|, |yProba|))
    ensures |yTrue| == |yProba| && NoListedLabelIn(yTrue) ==> r == Err(NoListedLabel)
    ensures r.Ok? ==>
      && |r.value| == 2
      && forall i :: 0 <= i < 2 ==>
           && |r.value[i]| == 2
           && forall j :: 0 <= j < 2 ==>
                r.value[i][j] == Count(yTrue, Predictions(yProba, threshold), i, j)
  {
    if |yTrue| != |yProba| then Err(InconsistentLengths(|yTrue|, |yProba|))
    else if NoListedLabelIn(yTrue) then Err(NoListedLabel)
    else
      var c := Tally(yTrue, Predictions(yProba, threshold));
      Ok([[c.tn, c.fp], [c.fn, c.tp]])
  }

  /** With binary predictions, a label's two cells add up to the number of transactions with that label. */
  lemma {:induction false} RowSum(yTrue: seq<int>, yPred: seq<int>, actual: int)
    requires |yTrue| == |yPred| && AllBinary(yPred)
    ensures Count(yTrue, yPred, actual, 0) + Count(yTrue, yPred, actual, 1) == Labelled(yTrue, actual)
    decreases |yTrue|
  {
    if yTrue != [] {
      RowSum(yTrue[1..], yPred[1..], actual);
    }
  }

  /** The alert column of a row counts the transactions of that label that reach the threshold. */
  lemma {:induction false} AlertCellIsFlagged(yTrue: seq<int>, yProba: seq<real>, threshold: real, actual: int)
    requires |yTrue| == |yProba|
    ensures Count(yTrue, Predictions(yProba, threshold), actual, 1)
            == FlaggedWithLabel(yTrue, yProba, threshold, actual)
    decreases |yTrue|
  {
    if yTrue != [] {
      AlertCellIsFlagged(yTrue[1..], yProba[1..], threshold, actual);
    }
  }

  /** Every transaction labelled 0 or 1 is labelled exactly one of the two. */
  lemma {:induction false} BinaryLabelsCover(yTrue: seq<int>)
    ensures Labelled(yTrue, 0) + Labelled(yTrue, 1) <= |yTrue|
    ensures AllBinary(yTrue) ==> Labelled(yTrue, 0) + Labelled(yTrue, 1) == |yTrue|
    decreases |yTrue|
  {
    if yTrue != [] {
      BinaryLabelsCover(yTrue[1..]);
    }
  }

  /**
   * The four counts add up to the number of transactions labelled 0 or 1,
   * which is every transaction when the labels are binary.
   */
  lemma ConfusionCountsSum(yTrue: seq<int>, yProba: seq<real>, threshold: real)
    requires |yTrue| == |yProba|
    ensures var c := Tally(yTrue, Predictions(yProba, threshold));
      && c.tn + c.fp + c.fn + c.tp == Labelled(yTrue, 0) + Labelled(yTrue, 1)
      && (AllBinary(yTrue) ==> c.tn + c.fp + c.fn + c.tp == |yTrue|)
  {
    var yPred := Predictions(yProba, threshold);
    RowSum(yTrue, yPred, 0);
    RowSum(yTrue, yPred, 1);
    BinaryLabelsCover(yTrue);
  }

  /** With binary labels, the alerts over both labels are all the transactions reaching the threshold. */
  lemma {:induction false} AlertsAreFlagged(yTrue: seq<int>, yProba: seq<real>, threshold: real)
    requires |yTrue| == |yProba| && AllBinary(yTrue)
    ensures FlaggedWithLabel(yTrue, yProba, threshold, 0) + FlaggedWithLabel(yTrue, yProba, threshold, 1)
            == Flagged(yProba, threshold)
    decreases |yTrue|
  {
    if yTrue != [] {
      assert AllBinary(yTrue[1..]) by {
        forall k | 0 <= k < |yTrue[1..]| ensures yTrue[1..][k] == 0 || yTrue[1..][k] == 1 {
          assert yTrue[1..][k] == yTrue[k + 1];
        }
      }
      assert yTrue[0] == 0 || yTrue[0] == 1;
      AlertsAreFlagged(yTrue[1..], yProba[1..], threshold);
    }
  }

  /** A higher threshold never flags more transactions of a given label. */
  lemma {:induction false} FlaggedAntitone(yTrue: seq<int>, yProba: seq<real>, low: real, high: real, value: int)
    requires |yTrue| == |yProba| && low <= high
    ensures FlaggedWithLabel(yTrue, yProba, high, value) <= FlaggedWithLabel(yTrue, yProba, low, value)
    decreases |yTrue|
  {
    if yTrue != [] {
      FlaggedAntitone(yTrue[1..], yProba[1..], low, high, value);
    }
  }

  // ---------------------------------------------------------------------------
  // Operational trade-off
  // ---------------------------------------------------------------------------

  /** The indicators reported for one model at one threshold. */
  datatype Tradeoff = Tradeoff(
    alertsTotal: nat,          // alertas_totais: transactions flagged as fraud
    alertRatio: Option<real>,  // pct_alertas; None stands for NaN (empty holdout)
    fraudsCaptured: nat,       // fraudes_capturadas: true positives
    fraudsMissed: nat,         // fraudes_perdidas: false negatives
    precision: real,
    recall: real)

  /**
   * A score of `precision_score`/`recall_score` with `zero_division=0`: the
   * share of `whole` that `part` is, 0 when `whole` is empty. Precision
   * takes the predicted frauds as `whole`, recall the frauds.
   */
  function ZeroDivisionRatio(part: nat, whole: nat): (p: real)
    requires part <= whole
    ensures 0.0 <= p <= 1.0
    ensures whole == 0 ==> p == 0.0
    ensures whole > 0 ==> p * whole as real == part as real
    ensures p == 1.0 <==> whole > 0 && part == whole
  {
    if whole == 0 then 0.0 else part as real / whole as real
  }

  /** `alertas_totais / total`, NaN (here `None`) when there is no transaction. */
  function AlertRatio(alerts: nat, total: nat): (r: Option<real>)
    requires alerts <= total
    ensures r.None? <==> total == 0
    ensures r.Some? ==> r.value == alerts as real / total as real && 0.0 <= r.value <= 1.0
  {
    if total == 0 then None
    else
      assert alerts as real <= total as real;
      Some(alerts as real / total as real)
  }

  /**
   * `operational_tradeoff`: alerts raised, their share of all transactions,
   * frauds captured and frauds missed at the given threshold.
   */
  function OperationalTradeoff(yTrue: seq<int>, yProba: seq<real>, threshold: real := DefaultThreshold)
    : (r: Result<Tradeoff, Error>)
    ensures r.Err? <==>
      || |yTrue| != |yProba|
      || NoListedLabelIn(yTrue)
      || BinaryTargetRejected(PresentLabels(yTrue, Predictions(yProba, threshold)))
    ensures |yTrue| != |yProba| ==> r == Err(InconsistentLengths(|yTrue|, |yProba|))
    ensures |yTrue| == |yProba| && NoListedLabelIn(yTrue) ==> r == Err(NoListedLabel)
    ensures |yTrue| == |yProba| && !NoListedLabelIn(yTrue) && r.Err? ==> r == Err(NotBinaryTarget)
    ensures r.Ok? ==>
      && r.value.alertsTotal
         == FlaggedWithLabel(yTrue, yProba, threshold, 0) + FlaggedWithLabel(yTrue, yProba, threshold, 1)
      && r.value.fraudsCaptured == FlaggedWithLabel(yTrue, yProba, threshold, 1)
      && r.value.fraudsCaptured + r.value.fraudsMissed == Labelled(yTrue, 1)
    ensures r.Ok? ==>
      && (r.value.alertRatio.None? <==> |yTrue| == 0)
      && (r.value.alertRatio.Some? ==>
            && r.value.alertRatio.value == r.value.alertsTotal as real / |yTrue| as real
            && 0.0 <= r.value.alertRatio.value <= 1.0)
    ensures r.Ok? ==>
      && r.value.precision
         == (if Flagged(yProba, threshold) == 0 then 0.0
             else r.value.fraudsCaptured as real / Flagged(yProba, threshold) as real)
      && r.value.recall
         == (if Labelled(yTrue, 1) == 0 then 0.0
             else r.value.fraudsCaptured as real / Labelled(yTrue, 1) as real)
      && 0.0 <= r.value.precision <= 1.0
      && 0.0 <= r.value.recall <= 1.0
  {
    if |yTrue| != |yProba| then Err(InconsistentLengths(|yTrue|, |yProba|))
    else if NoListedLabelIn(yTrue) then Err(NoListedLabel)
    else
      var yPred := Predictions(yProba, threshold);
      if BinaryTargetRejected(PresentLabels(yTrue, yPred)) then Err(NotBinaryTarget)
      else
        var c := Tally(yTrue, yPred);
        var alerts := c.tp + c.fp;
        var total := |yTrue|;
        AlertCellIsFlagged(yTrue, yProba, threshold, 0);
        AlertCellIsFlagged(yTrue, yProba, threshold, 1);
        RowSum(yTrue, yPred, 1);
        BinaryLabelsCover(yTrue);
        Ok(Tradeoff(alerts, AlertRatio(alerts, total), c.tp, c.fn,
                    ZeroDivisionRatio(c.tp, Flagged(yProba, threshold)),
                    ZeroDivisionRatio(c.tp, c.tp + c.fn)))
  }

  /** Labels and predictions drawn from {0, 1} never make the library refuse the target. */
  lemma BinaryValuesAccepted(yTrue: seq<int>, yPred: seq<int>)
    requires AllBinary(yTrue) && AllBinary(yPred)
    ensures !BinaryTargetRejected(PresentLabels(yTrue, yPred))
  {
    var present := PresentLabels(yTrue, yPred);
    assert forall v :: v in present ==> v == 0 || v == 1;
    if 0 in present && 1 in present {
      assert present == {0, 1};
    } else if 0 in present {
      assert present == {0};
    } else if 1 in present {
      assert present == {1};
    } else {
      assert present == {};
    }
  }

  /** With binary labels, only a length mismatch makes `operational_tradeoff` fail. */
  lemma BinaryLabelsOnlyFailOnLength(yTrue: seq<int>, yProba: seq<real>, threshold: real)
    requires AllBinary(yTrue)
    ensures OperationalTradeoff(yTrue, yProba, threshold).Ok? <==> |yTrue| == |yProba|
  {
    BinaryValuesAccepted(yTrue, Predictions(yProba, threshold));
    if |yTrue| > 0 {
      assert yTrue[0] == 0 || yTrue[0] == 1;
    }
  }

  /**
   * With binary labels every prediction of fraud is an alert, so precision
   * is the share of the alerts that capture a fraud.
   */
  lemma BinaryPrecisionOverAlerts(yTrue: seq<int>, yProba: seq<real>, threshold: real)
    requires |yTrue| == |yProba| && AllBinary(yTrue)
    ensures OperationalTradeoff(yTrue, yProba, threshold).Ok?
    ensures var t := OperationalTradeoff(yTrue, yProba, threshold).value;
      t.precision == (if t.alertsTotal == 0 then 0.0 else t.fraudsCaptured as real / t.alertsTotal as real)
  {
    BinaryLabelsOnlyFailOnLength(yTrue, yProba, threshold);
    AlertsAreFlagged(yTrue, yProba, threshold);
  }

  /** A holdout labelled only 2 has none of the confusion matrix's labels: both functions raise. */
  lemma NoListedLabelExample()
    ensures ConfusionMatrix([2], [0.9]) == Err(NoListedLabel)
    ensures OperationalTradeoff([2], [0.9]) == Err(NoListedLabel)
  {
  }

  /**
   * Labels {2, 1}, both flagged: the matrix ignores the 2, so one alert and a
   * share of 1/2, while precision counts the 2 as a false alarm.
   */
  lemma ForeignLabelPrecisionExample()
    ensures OperationalTradeoff([2, 1], [0.9, 0.9]).Ok?
    ensures var t := OperationalTradeoff([2, 1], [0.9, 0.9]).value;
      t.alertsTotal == 1 && t.alertRatio == Some(0.5) && t.fraudsCaptured == 1
      && t.precision == 0.5 && t.recall == 1.0
  {
    var present := PresentLabels([2, 1], Predictions([0.9, 0.9], DefaultThreshold));
    assert present == {1, 2};
  }

  /** With binary labels, `alertas_totais` is the number of probabilities at or above the threshold. */
  lemma AlertsCountFlaggedScores(yTrue: seq<int>, yProba: seq<real>, threshold: real)
    requires |yTrue| == |yProba| && AllBinary(yTrue)
    ensures OperationalTradeoff(yTrue, yProba, threshold).Ok?
    ensures OperationalTradeoff(yTrue, yProba, threshold).value.alertsTotal == Flagged(yProba, threshold)
  {
    BinaryLabelsOnlyFailOnLength(yTrue, yProba, threshold);
    AlertsAreFlagged(yTrue, yProba, threshold);
  }

  /** Raising the threshold never adds alerts and never captures more frauds. */
  lemma RaisingThresholdNeverAddsAlerts(yTrue: seq<int>, yProba: seq<real>, low: real, high: real)
    requires low <= high
    requires OperationalTradeoff(yTrue, yProba, low).Ok? && OperationalTradeoff(yTrue, yProba, high).Ok?
    ensures OperationalTradeoff(yTrue, yProba, high).value.alertsTotal
            <= OperationalTradeoff(yTrue, yProba, low).value.alertsTotal
    ensures OperationalTradeoff(yTrue, yProba, high).value.fraudsCaptured
            <= OperationalTradeoff(yTrue, yProba, low).value.fraudsCaptured
    ensures OperationalTradeoff(yTrue, yProba, high).value.fraudsMissed
            >= OperationalTradeoff(yTrue, yProba, low).value.fraudsMissed
  {
    FlaggedAntitone(yTrue, yProba, low, high, 0);
    FlaggedAntitone(yTrue, yProba, low, high, 1);
  }

  // ---------------------------------------------------------------------------
  // Comparison table across models
  // ---------------------------------------------------------------------------

  /** One line of the comparison table: the model's name and its indicators. */
  datatype Row = Row(model: string, stats: Tradeoff)

  /** Descending order of `pct_alertas`, with NaN placed last. */
  predicate RatioNotBelow(a: Option<real>, b: Option<real>)
  {
    match (a, b)
    case (Some(x), Some(y)) => x >= y
    case (_, None) => true
    case (None, Some(_)) => false
  }

  predicate SortedByRatio(rows: seq<Row>)
  {
    forall i, j :: 0 <= i < j < |rows| ==> RatioNotBelow(rows[i].stats.alertRatio, rows[j].stats.alertRatio)
  }

  /** Places `row` into a table already sorted by descending ratio. */
  function InsertByRatio(row: Row, rows: seq<Row>): (r: seq<Row>)
    requires SortedByRatio(rows)
    ensures SortedByRatio(r)
    ensures multiset(r) == multiset(rows) + multiset{row}
    decreases |rows|
  {
    if rows == [] then [row]
    else if RatioNotBelow(row.stats.alertRatio, rows[0].stats.alertRatio) then
      [row] + rows
    else
      var rest := InsertByRatio(row, rows[1..]);
      assert rows == [rows[0]] + rows[1..];
      forall y | y in rest
        ensures RatioNotBelow(rows[0].stats.alertRatio, y.stats.alertRatio)
      {
        assert y in multiset(rest);
        if y != row {
          assert y in multiset(rows[1..]);
        }
      }
      [rows[0]] + rest
  }

  /** `sort_values(by="pct_alertas", ascending=False)`: the same rows, by descending ratio. */
  function SortByRatio(rows: seq<Row>): (r: seq<Row>)
    ensures SortedByRatio(r)
    ensures multiset(r) == multiset(rows)
    decreases |rows|
  {
    if rows == [] then []
    else
      assert rows == [rows[0]] + rows[1..];
      InsertByRatio(rows[0], SortByRatio(rows[1..]))
  }

  /** Every model's probabilities have as many entries as there are labels. */
  predicate LengthsAgree(yTrue: seq<int>, probaByModel: seq<(string, seq<real>)>)
  {
    forall k :: 0 <= k < |probaByModel| ==> |probaByModel[k].1| == |yTrue|
  }

  /** Every model's `operational_tradeoff` succeeds. */
  predicate AllSucceed(yTrue: seq<int>, probaByModel: seq<(string, seq<real>)>, threshold: real)
  {
    forall k :: 0 <= k < |probaByModel| ==> OperationalTradeoff(yTrue, probaByModel[k].1, threshold).Ok?
  }

  /** With binary labels, the models all succeed exactly when their lengths all match the labels. */
  lemma BinaryTableFailsOnlyOnLength(yTrue: seq<int>, probaByModel: seq<(string, seq<real>)>, threshold: real)
    requires AllBinary(yTrue)
    ensures AllSucceed(yTrue, probaByModel, threshold) <==> LengthsAgree(yTrue, probaByModel)
  {
    forall k | 0 <= k < |probaByModel|
      ensures OperationalTradeoff(yTrue, probaByModel[k].1, threshold).Ok? <==> |probaByModel[k].1| == |yTrue|
    {
      BinaryLabelsOnlyFailOnLength(yTrue, probaByModel[k].1, threshold);
    }
  }

  /** The rows before sorting: one per model, in the order the models are given. */
  function TableRows(yTrue: seq<int>, probaByModel: seq<(string, seq<real>)>, threshold: real)
    : (rows: seq<Row>)
    requires AllSucceed(yTrue, probaByModel, threshold)
    ensures |rows| == |probaByModel|
    ensures forall k :: 0 <= k < |rows| ==>
      && rows[k].model == probaByModel[k].0
      && Ok(rows[k].stats) == OperationalTradeoff(yTrue, probaByModel[k].1, threshold)
  {
    seq(|probaByModel|, k requires 0 <= k < |probaByModel| =>
      Row(probaByModel[k].0, OperationalTradeoff(yTrue, probaByModel[k].1, threshold).value))
  }

  /**
   * `tradeoff_table`: the trade-off of every model at one threshold, one row
   * per model, ordered by descending share of alerts. The first model whose
   * `operational_tradeoff` raises aborts the table with that error, and an
   * empty set of models has no column to sort by.
   */
  method TradeoffTable(yTrue: seq<int>, probaByModel: seq<(string, seq<real>)>, threshold: real := DefaultThreshold)
    returns (r: Result<seq<Row>, Error>)
    ensures r.Ok? <==> probaByModel != [] && AllSucceed(yTrue, probaByModel, threshold)
    ensures probaByModel == [] ==> r == Err(NoRows)
    ensures r.Err? && probaByModel != [] ==>
      exists k :: 0 <= k < |probaByModel|
        && AllSucceed(yTrue, probaByModel[..k], threshold)
        && OperationalTradeoff(yTrue, probaByModel[k].1, threshold).Err?
        && r.error == OperationalTradeoff(yTrue, probaByModel[k].1, threshold).error
    ensures r.Ok? ==>
      && |r.value| == |probaByModel|
      && multiset(r.value) == multiset(TableRows(yTrue, probaByModel, threshold))
      && SortedByRatio(r.value)
  {
    var rows: seq<Row> := [];
    var i := 0;
    while i < |probaByModel|
      invariant 0 <= i <= |probaByModel|
      invariant AllSucceed(yTrue, probaByModel[..i], threshold)
      invariant rows == TableRows(yTrue, probaByModel[..i], threshold)
    {
      var (name, yProba) := probaByModel[i];
      var stats := OperationalTradeoff(yTrue, yProba, threshold);
      if stats.Err? {
        return Err(stats.error);
      }
      rows := rows + [Row(name, stats.value)];
      i := i + 1;
      assert probaByModel[..i] == probaByModel[..i - 1] + [probaByModel[i - 1]];
    }
    assert probaByModel[..i] == probaByModel;
    if rows == [] {
      return Err(NoRows);
    }
    var sorted := SortByRatio(rows);
    assert |sorted| == |multiset(sorted)| == |multiset(rows)| == |rows|;
    r := Ok(sorted);
  }

  /**
   * On a non-empty holdout every row shares the same denominator, so the
   * table is also ordered by descending number of alerts.
   */
  lemma TableOrderedByAlerts(yTrue: seq<int>, probaByModel: seq<(string, seq<real>)>, threshold: real, table: seq<Row>)
    requires |yTrue| > 0 && AllSucceed(yTrue, probaByModel, threshold)
    requires multiset(table) == multiset(TableRows(yTrue, probaByModel, threshold))
    requires SortedByRatio(table)
    ensures forall i, j :: 0 <= i < j < |table| ==> table[i].stats.alertsTotal >= table[j].stats.alertsTotal
  {
    var rows := TableRows(yTrue, probaByModel, threshold);
    var n := |yTrue| as real;
    forall i, j | 0 <= i < j < |table|
      ensures table[i].stats.alertsTotal >= table[j].stats.alertsTotal
    {
      assert table[i] in multiset(rows) && table[j] in multiset(rows);
      var a, b := table[i].stats, table[j].stats;
      assert a.alertRatio == Some(a.alertsTotal as real / n);
      assert b.alertRatio == Some(b.alertsTotal as real / n);
      DivisionKeepsOrder(a.alertsTotal as real, b.alertsTotal as real, n);
    }
  }

  lemma DivisionKeepsOrder(x: real, y: real, n: real)
    requires n > 0.0 && x / n >= y / n
    ensures x >= y
  {
    assert x == (x / n) * n && y == (y / n) * n;
  }
}
