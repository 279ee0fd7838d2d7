# 5G network anomaly detector: the classification core in Dafny

The system simulates network telemetry and flags anomalous rows. It shows
the recent anomalies on a small dashboard. This project models the part that
makes decisions:

- **The rule-based detector** `detect_anomalies_rule_based`. It exists twice,
  in `app.py` and in `train_model.py`. Four strict threshold rules are checked
  on each row: signal below -85 dBm, latency above 100 ms, throughput below
  40 Mbps, packet loss above 3.0 %. The names of the rules that fire form the
  reasons list, in that fixed order. Two or more reasons flag the row, with
  the reasons joined by `", "`. Exactly one reason together with throughput
  below 10 Mbps flags the row as `"Critical Low Throughput"`. Every other row
  keeps the defaults, flag 0 and reason `""`.
- **The recent-anomalies query** of `get_current_anomalies`. It keeps the
  flagged rows whose timestamp is strictly after `now - 120 minutes`. It sorts
  them newest first and keeps eight columns.
- **The training script's preprocessing and label mapping.** Each model
  feature column is filled with its own mean. The outlier model's -1/1 verdict
  becomes a 1/0 flag.

Layout, one module per file:

- `telemetry.dfy` (`Telemetry`): the row schema, the frame row with the two
  detector columns, and Python's `str.join` with an injectivity lemma.
- `rule_detector.dfy` (`RuleDetector`): the thresholds, the policy as the
  function `Classify`, and the truth-table lemmas. Both copies of the
  detector are verified against this one specification.
- `app.py` → `app.dfy` (`App`): the in-place detector loop over an
  `array<Record>`, and the query as functions with soundness, completeness,
  order and permutation lemmas (`RecentAnomaliesPermutation`: the list is a
  permutation of the views of the rows the mask keeps).
- `train_model.py` → `train_model.dfy` (`TrainModel`): the second in-place
  detector, the label mapping, and mean imputation. Imputation is a class
  whose map of columns is rewritten column by column.

Both `DetectAnomaliesRuleBased` methods promise
`df[..] == DetectAll(Rows(old(df[..])))`. So the two copies leave every frame
in the same state: they are extensionally equal.

Modelling choices:

- Timestamps are `int` microseconds, the resolution of Python's `datetime`.
  `datetime.now()` becomes the parameter `now`.
- Measurements are exact `real`s, since the code only compares them with
  constants.
- A dataframe is a `seq` (or an `array`, where the code writes cells in
  place) of row datatypes. In the frame the detector and the query use, the
  four measurements are plain `real`s, so a missing or non-numeric
  measurement cannot be written down there. Only the training script's
  feature columns (`TrainModel.Column`) use `Option`: after
  `pd.to_numeric(errors='coerce')` a missing or unreadable entry is `None`.
- The CSV read in `get_current_anomalies` becomes the input `data`. The copy
  it passes to the detector is a fresh array. That array's two detector
  columns start as placeholders, and the detector overwrites them first.

Notes on what the code does:

- The code does not reject a row with a missing measurement. In pandas a
  missing value is NaN, and every comparison with NaN is false, so that rule
  does not fire. The detector's measurements are exact reals here, so this
  case does not arise in the model (see "## Left out").
- The code sorts with pandas' default `quicksort`, which is not stable. So the
  order of rows with equal timestamps is not fixed by the code. The model's
  insertion sort keeps input order for ties, which is one of the orders the
  code may produce. No stability property is claimed.
- The window is the fixed constant 120 minutes, not a parameter.
- The mean of a column with no present entry is NaN, so `fillna` leaves that
  column's gaps missing. `Mean` returns `None` in that case, and
  `FillMean` leaves such a column unchanged.

## Model

| member | source | states |
|---|---|---|
| `App.DetectAnomaliesRuleBased` | app.py:35-61 | sets both columns to 0 / "" for every row, then writes the cells the policy flags; the final frame is `DetectAll` of the old rows, so the row count and pre-existing columns are unchanged |
| `TrainModel.DetectAnomaliesRuleBased` | train_model.py:20-48 | this copy leaves the frame in exactly the state app.py's copy does: the same `DetectAll` of the old rows, so the two functions are extensionally equal |
| `RuleDetector.Fires` | app.py:46-53 | no contract of its own: the four threshold tests, given meaning by `ReasonIffFires`, `ThresholdsAreStrict` and `FlagClosedForm` |
| `RuleDetector.Reasons` | app.py:45-53 | no contract of its own: the list the four appends build; `ReasonsAreTriggeredNames` proves it is the names of the firing rules in rule order, `ReasonIffFires` that a name is listed exactly when its rule fires |
| `RuleDetector.Annotate` | app.py:55-60 | no contract of its own: the input row with the two cells `Classify` decides; `DetectAll` and `DetectAllIsRowwise` give it meaning |
| `Telemetry.Join` | app.py:57 | no contract of its own: Python's `sep.join(parts)`; `JoinInjective` proves the parts can be read back, and `CorroboratedBreaches` uses it for the reason string |
| `RuleDetector.TriggeredFrom` | app.py:46-53 | the rule indices that fire, strictly increasing, each one firing, and every firing rule listed |
| `RuleDetector.ReasonsAreTriggeredNames` | app.py:45-53 | the list built by the four appends is exactly the names of the firing rules in rule order, and its length is the breach count |
| `RuleDetector.ReasonIffFires` | app.py:46-53 | a rule's name is in the reasons list if and only if that rule fires |
| `RuleDetector.CriticalImpliesLowThroughput` | app.py:50-58 | throughput below 10 implies the low-throughput rule fires, so there is at least one breach |
| `RuleDetector.Classify` | app.py:55-60 | the written flag is always 0 or 1 |
| `RuleDetector.DetectAll` | app.py:44-61 | one output row per input row, carrying that input row unchanged |
| `RuleDetector.CorroboratedBreaches` | app.py:55-57 | two or more breaches give flag 1 and a reason that is exactly the firing rules' names in rule order, comma-space joined |
| `RuleDetector.SingleCriticalBreach` | app.py:58-60 | exactly one breach with throughput below 10 gives flag 1 and "Critical Low Throughput", and that one breach is Low Throughput |
| `RuleDetector.Unflagged` | app.py:36-60 | no breach, or one breach with throughput at least 10, keeps flag 0 and reason "" |
| `RuleDetector.FlagClosedForm` | app.py:44-60 | flag is 1 if and only if at least two rules fire or throughput is below 10 |
| `RuleDetector.ReasonIffFlagged` | app.py:36-60 | the reason is non-empty if and only if the flag is 1 |
| `RuleDetector.ThresholdsAreStrict` | app.py:39-53 | a row exactly on all four thresholds breaches nothing and is not flagged |
| `RuleDetector.CriticalReasonIffEscapeHatch` | app.py:55-60 | the reason is "Critical Low Throughput" if and only if there is exactly one breach and throughput is below 10; no joined reason equals it |
| `RuleDetector.ReasonIdentifiesBreaches` | app.py:45-60 | two flagged rows with equal reason strings breach exactly the same rules |
| `RuleDetector.DetectAllIsRowwise` | app.py:44-61 | each output row depends only on its own input row |
| `RuleDetector.ScenarioSingleBreachIgnored` | app.py:44-60 | signal -90, latency 20, throughput 200, loss 0.5: reasons ["Low Signal"], not flagged |
| `RuleDetector.ScenarioTwoBreaches` | app.py:44-60 | signal -90, latency 150: flagged with "Low Signal, High Latency" |
| `RuleDetector.ScenarioCriticalThroughput` | app.py:44-60 | throughput 5 alone: reasons ["Low Throughput"], flagged as "Critical Low Throughput" |
| `Telemetry.JoinInjective` | app.py:57 | for two non-empty part lists in which no part contains the separator's first character, equal joins mean equal lists |
| `App.IsRecentAnomaly` | app.py:22-23 | no contract of its own: the mask, flag 1 and timestamp strictly after now - 120 min; `FilterRecentExact` and `NoRecentAnomaliesIsEmpty` give it meaning |
| `App.FilterRecent` | app.py:21-23 | keeps no more rows than the frame has, and every kept row satisfies the mask; `FilterRecentExact` adds that each matching row is kept as often as it occurs and no other row is |
| `App.InsertNewestFirst` | app.py:24 | inserting into a newest-first list keeps it newest first and adds exactly the one element |
| `App.SortNewestFirst` | app.py:24 | the sorted list has non-increasing timestamps and is a permutation of its input |
| `App.View` | app.py:27-30 | no contract of its own: the eight columns the dashboard lists; `RecentAnomaliesSound` and `RecentAnomaliesComplete` state the result in terms of it |
| `App.Project` | app.py:27-31 | the projection has one eight-column entry per sorted row |
| `App.RecentAnomalies` | app.py:21-31 | the filter, sort and projection chain: its contract states one entry per row the mask keeps, newest first; the query lemmas below say which rows those are |
| `App.ProjectPermutation` | app.py:27-31 | projecting two permutations of each other gives two permutations of each other |
| `App.RecentAnomaliesPermutation` | app.py:21-31 | the list is a permutation of the views of the rows the mask keeps, in frame order: sorting only reorders them |
| `App.GetCurrentAnomalies` | app.py:11-32 | running the detector on a copy of the batch and then the query gives the query applied to `DetectAll` of the batch |
| `App.FilterRecentExact` | app.py:21-23 | the mask keeps each flagged row with timestamp after now - 120 min as often as it occurs in the frame, and no other row |
| `App.RecentAnomaliesSound` | app.py:21-31 | every returned entry is the projection of a frame row with flag 1 and timestamp after now - 120 min |
| `App.RecentAnomaliesComplete` | app.py:21-31 | every frame row with flag 1 and timestamp after now - 120 min appears in the result |
| `App.NoRecentAnomaliesIsEmpty` | app.py:21-31 | with no matching row the result is the empty list, not an error |
| `App.CurrentAnomaliesFromRules` | app.py:17-31 | after rule-based detection every returned entry has a non-empty reason and a recent timestamp, and every recent row the rules flag is returned |
| `TrainModel.MlLabel` | train_model.py:76 | the flag is 0 or 1, and 1 exactly for the verdict -1 |
| `TrainModel.MlLabels` | train_model.py:76 | the mapped column has the input's length, only 0/1 entries, and 1 exactly where the verdict is -1 |
| `TrainModel.MlLabelsCountOutliers` | train_model.py:76 | the number of 1 flags equals the number of -1 verdicts; all other rows get 0 |
| `TrainModel.Mean` | train_model.py:63 | the mean exists exactly when some entry is present, and times the present count it gives the present sum |
| `TrainModel.FillWith` | train_model.py:63 | the filled column has the input's length; `FillWithAt` states each entry |
| `TrainModel.FillWithAt` | train_model.py:63 | each entry of the filled column is the old entry when present and the fill value when missing |
| `TrainModel.FillMean` | train_model.py:63 | `fillna(mean)`: the filled column has the input's length; `FillMeanSpec`, `FillMeanIdempotent` and `MeanWithinBounds` state what it writes |
| `TrainModel.FillMeanSpec` | train_model.py:62-63 | present entries are unchanged; if any entry is present, no entry stays missing and every missing entry gets the same value, the column mean; a column with nothing present is unchanged |
| `TrainModel.FillMeanIdempotent` | train_model.py:62-63 | filling does not change the mean, so running the fill step again changes nothing |
| `TrainModel.MeanWithinBounds` | train_model.py:63 | the value written into the gaps lies within any bounds of the present entries |
| `TrainModel.FeatureFrame.FillFeatureMeans` | train_model.py:59-63 | each of the five feature columns is replaced by its mean-filled version; no other column changes and no column is added or removed |

## Left out

- IsolationForest fitting, `decision_function` and `predict` (train_model.py:66-73). These are randomised library calls with floating-point scoring. The model's -1/1 verdicts are an input to `TrainModel.MlLabels`. So the contamination and empty-batch errors and the determinism claim are not modelled.
- Reading and writing CSV files, `joblib.dump`, and `pd.to_datetime` parsing. These are file I/O. The loaded batch is a parameter.
- The Flask app, its routes, templates, `jsonify` and `app.run`. This is HTTP glue.
- generate_data.py and inject_anomaly.py. generate_data.py writes a fresh random batch to the CSV and prints summaries; inject_anomaly.py appends one random row to it. Both are random data sources, not decisions.
- `datetime.now()`. It is the parameter `now`.
- Printing and the summary counts the scripts print.
- NaN and IEEE floating point. Measurements are exact reals. In the training script's feature columns a missing or non-numeric entry is `None`. A non-numeric string makes the original column non-numeric, so `data[col].mean()` at train_model.py:63 cannot be computed; that failure is not modelled.
- The `generate_network_data` call in the fallback branches of app.py and train_model.py. That function is defined in generate_data.py, which neither script imports, so the call would fail with NameError. It sits in file-loading glue.
- `App.DetectAnomaliesRuleBased`, `TrainModel.DetectAnomaliesRuleBased`: a row with a missing or non-numeric measurement cannot be expressed, since the measurements are plain reals. With a missing value (NaN) the source's comparison is false, so that rule does not fire. With a string in a measurement column the column is object-typed, the comparison at app.py:46-52 or train_model.py:32-38 raises TypeError, and the whole call fails.
- `App.DetectAnomaliesRuleBased`, `TrainModel.DetectAnomaliesRuleBased`: the frame is a fixed-length array. Adding the two columns to a frame that lacks them is modelled as overwriting placeholder values.
- `TrainModel.FeatureFrame.FillFeatureMeans`: requires every feature column to be present. In the source a missing feature column makes `data[col]` at train_model.py:63 raise KeyError; the CSV the scripts write always has these columns, so that error path is not modelled.
