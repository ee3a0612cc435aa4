# Fraud detection in transit ticketing: feature catalogue, column split and threshold metrics

This project is a verified Dafny model of the small amount of logic in the
fraud-detection case study's Python package `src/`. It covers three pieces:

- **Feature catalogue** (`features.dfy`, module `Features`). These are the
  column roles: tracing columns, the target `target_fraude`, and the 3
  categorical and 34 numeric modelling features. The module also has the
  grouping dictionary `get_features`, the feature list `get_feature_names`,
  and the validator `validate_feature_set`. The validator raises `ValueError`
  listing the missing features in sorted order, modelled as
  `MissingFeatures(missing)`. The main invariant is **no leakage**: no
  modelling feature is a tracing column or the target.
- **Column partition** (`preprocessing.dfy`, module `Preprocessing`). This is
  `split_feature_groups`, with its fallback to the official categorical list
  when the argument is `None` or empty. It is proved to be an order-preserving
  partition, and the only one possible.
- **Threshold metrics** (`metrics.dfy`, module `Metrics`). This covers
  turning probabilities into alerts (`proba >= threshold`), the 2x2 confusion
  matrix over the labels [0, 1], the operational trade-off (alerts, alert
  share, frauds captured and missed), and the comparison table across models,
  sorted by alert share.

Two helper modules support them. `strings.dfy` (module `Strings`) holds
Python's code-point order on `str`, `sorted(set(xs))` and the two list
comprehensions. `wrappers.dfy` (module `Wrappers`) holds `Option` and
`Result`.

Modelling choices:

- Probabilities and thresholds are exact `real`s.
- Labels are `int`s, and any integer is accepted as input. Labels outside
  {0, 1} follow the scikit-learn calls the code makes:
  - The confusion matrix over labels [0, 1] counts a pair whose label is
    outside {0, 1} in no cell. The four counts therefore add up to the number
    of labels in {0, 1}, which is every transaction when the labels are
    binary.
  - A non-empty `y_true` holding neither 0 nor 1 makes `confusion_matrix`
    raise `ValueError`.
  - `precision_score` and `recall_score` (`average="binary"`, `pos_label=1`)
    raise `ValueError` when labels and predictions together take more than
    two values, or two values without 1.
  - When none of these raises, precision is the captured frauds over all
    predicted frauds, whatever their label; recall is the captured frauds
    over all frauds. So with labels {1, 2}, a flagged 2 is not an alert in
    `alertas_totais` but lowers precision.
- `threshold` defaults to 0.5, as in the source (`DefaultThreshold`).
- Python's `None` argument and the NaN `pct_alertas` of an empty holdout are
  both `Option.None`.
- The exceptions the code raises are `Result.Err` values:
  - Labels and probabilities of different lengths give
    `InconsistentLengths`: the library's `ValueError`. This check comes first.
  - The two label errors above give `NoListedLabel` and `NotBinaryTarget`, in
    the order the code calls the library: the confusion matrix first.
  - An empty `proba_by_model` gives `NoRows`. `pd.DataFrame([])` has no
    `pct_alertas` column, so sorting by it raises `KeyError`.
- The dictionary `proba_by_model` is a sequence of `(name, probabilities)`
  pairs, in insertion order.
- `tradeoff_table` is a method. Its loop builds the rows one model at a
  time, and the rows are then sorted. The other operations are pure and are
  modelled as functions.

## Model

| member | source | states |
|---|---|---|
| `Features.CategoricalNotTracing` | src/features.py:21-39 | no categorical feature is a tracing column |
| `Features.NumericNotTracing` | src/features.py:21-81 | no numeric feature is a tracing column |
| `Features.CategoricalNotTarget` | src/features.py:28-39 | no categorical feature is the target column |
| `Features.NumericNotTarget` | src/features.py:28-81 | no numeric feature is the target column |
| `Features.CategoricalNotNumeric` | src/features.py:35-81 | no feature is both categorical and numeric |
| `Features.GetFeatureNames` | src/features.py:101-106 | the modelling features are the categorical list followed by the numeric list, each in declared order |
| `Features.FeatureNamesExcludeTracingAndTarget` | src/features.py:101-106 | no leakage: no modelling feature is a tracing column or `target_fraude` |
| `Features.GetFeatures` | src/features.py:88-98 | exactly the four keys; `"rastreio"` gives the tracing columns; `"alvo"` gives the one-element list holding the target; `"categoricas"` gives the categorical list and `"numericas"` the numeric list, each in declared order, together the modelling features |
| `Features.ValidateFeatureSet` | src/features.py:109-121 | accepts iff every modelling feature occurs in `columns` (extras allowed); otherwise reports a non-empty, strictly ascending list holding exactly the expected features absent from `columns` |
| `Features.CheckCoverage` | src/features.py:114-121 | set difference `expected - received`, sorted: empty means acceptance; the report holds exactly the expected names not received, ascending and without repeats |
| `Features.CoverageDependsOnlyOnNames` | src/features.py:114-121 | the set difference and its sorted report depend only on the set of received names, not their order or repetitions |
| `Features.CoverageMonotone` | src/features.py:114-121 | receiving more names never rejects what was accepted, and can only remove names from the report |
| `Features.ValidateDependsOnlyOnNames` | src/features.py:114-115 | two column lists with the same names get the same outcome and the same report, whatever their order or repetitions |
| `Features.ValidateAcceptsSupersets` | src/features.py:114-118 | if a column list is accepted, so is every list containing its names |
| `Features.ValidateMissingShrinks` | src/features.py:117-121 | adding columns can only remove names from the report of missing features |
| `Strings.LessTransitive` | src/features.py:120 | Python's string order is transitive |
| `Strings.LessTotal` | src/features.py:120 | any two distinct strings are ordered one way or the other |
| `Strings.SortedSet` | src/features.py:120 | `sorted(set(xs))`: strictly ascending, holding exactly the elements of `xs` |
| `Strings.StrictlySortedUnique` | src/features.py:120 | a strictly ascending list is determined by its elements, so the sorted report is unique |
| `Strings.Keep` | src/preprocessing.py:138 | `[c for c in xs if c in ys]`: holds exactly the elements of `xs` found in `ys`, no longer than `xs` |
| `Strings.Drop` | src/preprocessing.py:139 | `[c for c in xs if c not in ys]`: holds exactly the elements of `xs` absent from `ys`, no longer than `xs` |
| `Preprocessing.EffectiveCategorical` | src/preprocessing.py:136 | `None` and `[]` fall back to the official categorical list; any other list is used as given |
| `Preprocessing.SplitFeatureGroups` | src/preprocessing.py:115-140 | `X_columns` is an order-preserving merge of `cats` and `nums`; sizes add up; `cats` holds only categorical names, `nums` none; no name is in both |
| `Preprocessing.DropKeptIsDropped` | src/preprocessing.py:138-139 | filtering by `cats`, as the code does, equals filtering by the categorical list |
| `Preprocessing.KeepDropInterleave` | src/preprocessing.py:138-139 | the two comprehensions over one list merge back into it, in order |
| `Preprocessing.InterleavingLength` | src/preprocessing.py:138-139 | a merge uses every column exactly once: lengths and multisets add up |
| `Preprocessing.SplitIsUnique` | src/preprocessing.py:138-139 | any order-preserving merge with categorical names left and non-categorical names right is exactly (keep, drop) |
| `Preprocessing.SplitFeatureGroupsFilters` | src/preprocessing.py:138-139 | `cats` is exactly the categorical subsequence of `X_columns`, `nums` exactly the rest, both in `X_columns` order |
| `Metrics.Predict` | src/metrics.py:203 | a transaction is predicted fraud (1) iff its probability is at least the threshold, otherwise 0 |
| `Metrics.Predictions` | src/metrics.py:203 | element-wise thresholding: same length, 1 exactly where `proba >= threshold`, only 0/1 values |
| `Metrics.Labelled` | src/metrics.py:217-218 | number of transactions with a given label, at most the number of transactions |
| `Metrics.Flagged` | src/metrics.py:207 | number of probabilities at or above the threshold, at most the number of transactions |
| `Metrics.FlaggedWithLabel` | src/metrics.py:205-207 | transactions of one label that reach the threshold are no more than the transactions of that label |
| `Metrics.Count` | src/metrics.py:113 | the number of (true, predicted) pairs equal to one cell is at most the number of transactions with that true label |
| `Metrics.Tally` | src/metrics.py:113 | a single pass over the pairs leaves each of tn, fp, fn, tp equal to the number of pairs matching that cell |
| `Metrics.ConfusionMatrix` | src/metrics.py:101-118 | error iff the lengths differ (`InconsistentLengths`, checked first) or a non-empty `y_true` holds neither 0 nor 1 (`NoListedLabel`); otherwise 2x2, rows = true label 0/1, columns = predicted label 0/1, each cell counts the matching pairs |
| `Metrics.RowSum` | src/metrics.py:205 | a label's two cells add up to the number of transactions with that label |
| `Metrics.AlertCellIsFlagged` | src/metrics.py:205-207 | the predicted-fraud cell of a row counts that label's transactions at or above the threshold |
| `Metrics.BinaryLabelsCover` | src/metrics.py:205 | labels 0 and 1 together are at most all transactions, and exactly all when labels are binary |
| `Metrics.ConfusionCountsSum` | src/metrics.py:205 | tn + fp + fn + tp equals the number of transactions labelled 0 or 1, which is `len(y_true)` for binary labels |
| `Metrics.AlertsAreFlagged` | src/metrics.py:207 | with binary labels, alerts over both labels are all the probabilities at or above the threshold |
| `Metrics.FlaggedAntitone` | src/metrics.py:203-207 | a higher threshold never flags more transactions of a given label |
| `Metrics.PresentLabels` | src/metrics.py:211-212 | the values the library sees: exactly those occurring in the labels or the predictions |
| `Metrics.ZeroDivisionRatio` | src/metrics.py:211-212 | `zero_division=0`: 0 when the denominator is 0, otherwise the value that times the denominator gives the numerator; within [0, 1], and 1 exactly when the numerator is the whole denominator (every prediction of fraud is a fraud, for precision; every fraud is captured, for recall) |
| `Metrics.AlertRatio` | src/metrics.py:207-209 | `alertas_totais / total` when `total > 0`, within [0, 1]; NaN (`None`) exactly when `total == 0` |
| `Metrics.OperationalTradeoff` | src/metrics.py:188-221 | error iff lengths differ, or a non-empty `y_true` holds neither 0 nor 1, or the library refuses the target as not binary, with that precedence; otherwise `alertas_totais = fp + tp` = flagged transactions labelled 0 or 1; `fraudes_capturadas` = flagged frauds; captured + missed = frauds; `pct_alertas` is alerts/total, NaN iff the holdout is empty; precision = captured / all flagged transactions (0 if none), recall = captured / frauds (0 if none), both in [0, 1] |
| `Metrics.BinaryValuesAccepted` | src/metrics.py:211-212 | labels and predictions in {0, 1} are never refused as a non-binary target |
| `Metrics.BinaryLabelsOnlyFailOnLength` | src/metrics.py:188-221 | with labels in {0, 1}, `operational_tradeoff` succeeds iff the lengths agree |
| `Metrics.BinaryPrecisionOverAlerts` | src/metrics.py:205-211 | with labels in {0, 1}, precision is `fraudes_capturadas / alertas_totais` (0 when there is no alert) |
| `Metrics.NoListedLabelExample` | src/metrics.py:113 | labels `[2]` with probability 0.9: both the confusion matrix and the trade-off raise `ValueError` |
| `Metrics.ForeignLabelPrecisionExample` | src/metrics.py:205-212 | labels `[2, 1]`, both flagged at the default threshold: one alert, share 0.5, one fraud captured, precision 0.5, recall 1 |
| `Metrics.AlertsCountFlaggedScores` | src/metrics.py:203-207 | with binary labels the trade-off succeeds and `alertas_totais` is the number of probabilities at or above the threshold |
| `Metrics.RaisingThresholdNeverAddsAlerts` | src/metrics.py:203-218 | when both thresholds succeed, raising the threshold never increases `alertas_totais` or `fraudes_capturadas`, and never decreases `fraudes_perdidas` |
| `Metrics.InsertByRatio` | src/metrics.py:253 | inserting a row keeps the table in descending `pct_alertas` order (NaN last) and adds exactly that row |
| `Metrics.SortByRatio` | src/metrics.py:253 | `sort_values(by="pct_alertas", ascending=False)`: the same rows (a permutation), in descending `pct_alertas` order |
| `Metrics.BinaryTableFailsOnlyOnLength` | src/metrics.py:247-249 | with labels in {0, 1}, every model succeeds iff every model's probabilities match the labels in length |
| `Metrics.TableRows` | src/metrics.py:247-250 | one row per model, in the given order, holding the model's name and its `operational_tradeoff` |
| `Metrics.TradeoffTable` | src/metrics.py:224-253 | fails on no models, or with the error of the first model whose `operational_tradeoff` raises (all before it succeed); otherwise exactly one row per model (a permutation of the per-model rows), ordered by `pct_alertas` non-increasing |
| `Metrics.TableOrderedByAlerts` | src/metrics.py:253 | on a non-empty holdout the sorted table is also in non-increasing order of `alertas_totais` |

## Left out

- `src/models.py`: it only configures scikit-learn estimators and pipelines. `fit_model` and `predict_proba` delegate to the library, and the model takes probabilities as inputs.
- `build_preprocessor` and `get_feature_names_after_preprocessing` in `src/preprocessing.py`: they only construct library objects and have no logic of their own.
- `check_missing_ratio`: a floating-point mean and sort over a DataFrame.
- `compute_classification_metrics`, `HoldoutResults`, `DEFAULT_METRICS`: PR-AUC, ROC-AUC and F1 are computed by the library in floating point.
- `holdout_results_to_dataframe` and `consolidate_cv_results`: DataFrame reshaping with NaN defaults.
- Metrics.ZeroDivisionRatio: precision and recall are computed from counts with `zero_division=0`. The library's `UndefinedMetricWarning` when a denominator is zero is not modelled.
- Metrics.BinaryTargetRejected: covers only the library's target checks that integer labels can fail (more than two values, or two without 1). The other checks are for inputs that are not integer sequences, which `astype(int)` rules out.
- Metrics.SortByRatio: pandas' default sort is not stable, so the order of rows with equal `pct_alertas` is unspecified. The contract states only the order and the permutation; the model's insertion sort is one admissible order.
- Metrics.ConfusionMatrix: returns the 2x2 counts as nested sequences. It does not model the DataFrame's human-readable row and column labels.
- Floating point: probabilities are exact reals. A NaN probability (never `>=` the threshold), rounding in `alertas_totais / total`, and the truncation of float labels by `astype(int)` are not modelled.
- The per-card historical aggregates, z-scores and other feature engineering live in notebooks. They are not part of this model.
