# Verified model of the gaffer examples' decision logic

This project models, in Dafny, the parts of the gaffer example repository that make decisions
rather than move bytes:

- the network helpers of the network-aware build example: the compression choice, the byte and
  bandwidth formatting, and the chunked transfer progress;
- the cache helpers: cache keys, the compression ratio and savings, checksum verification and expiry;
- the API service's choice of a primary cache region;
- the prediction service's top-k predictions;
- the three scripts of the ML workflow example:
  - feature engineering: categorical encoding, domain features, scaling and feature selection;
  - model training: target and problem-type detection, candidate models, the skip-on-failure
    training loop and the best-model choice;
  - model evaluation: reloading every trained model, the skip-on-failure evaluation loop, the
    best-model choice and the exit status.

The model has one module per source file:

- `NetworkDetector`, `CacheUtils`, `Topology`, `Predictor`, `FeatureEngineering`, `Training`
  and `Evaluation` model those files.
- `Wrappers` (Option/Result), `GoInts` (64-bit integers), `Decimal` (`%d` rendering),
  `Ranking` (NumPy argsort and top-k), `Frames` (data frames reduced to named, typed columns
  with their distinct values) and `Pipeline` (what the three ML scripts share) support them.

Floating-point values are modelled as reals. Everything the scripts obtain from outside is a
parameter of the model:

- files on disk;
- the clock;
- scikit-learn's fitted scores;
- the data-dependent values of derived columns;
- the region score formula.

Data-frame cells are not tracked. A column is its name, whether it is numeric or object-typed,
and its sorted distinct values. Those are all the rules look at.

## Model

| member | source | states |
|---|---|---|
| NetworkDetector.ShouldCompress | examples/18-network-aware-builds/pkg/network/detector.go:76-87 | compression is used iff the bandwidth is at most 100 Mbps; zstd iff at most 50, gzip iff in (50, 100], "none" otherwise |
| NetworkDetector.FormatBytes | examples/18-network-aware-builds/pkg/network/detector.go:113-124 | below 1024 the exact count with " B"; otherwise the value divided by 1024^(e+1) with prefix "KMGTPE"[e], for the unique e with 1024^(e+1) <= bytes < 1024^(e+2) |
| NetworkDetector.BracketsUnique | examples/18-network-aware-builds/pkg/network/detector.go:119-122 | at most one exponent brackets a byte count, so the unit prefix is determined |
| NetworkDetector.SimulateTransfer | examples/18-network-aware-builds/pkg/network/detector.go:90-110 | the progress reported is the trace of whole 1 MiB chunks capped at the size (empty without a callback), and the error is nil |
| NetworkDetector.ProgressTraceShape | examples/18-network-aware-builds/pkg/network/detector.go:94-106 | for a positive size the progress values strictly increase, stay in (0, size] and end exactly at the size |
| NetworkDetector.ChunkCountExact | examples/18-network-aware-builds/pkg/network/detector.go:94-102 | the loop runs ceil(size / 1 MiB) times |
| NetworkDetector.TransferStepAsWrittenWraps | examples/18-network-aware-builds/pkg/network/detector.go:99-102 | with int64 arithmetic as written, the size 2^63-1 drives the progress from 2^63-2^20 to -2^63 |
| NetworkDetector.FormatBandwidth | examples/18-network-aware-builds/pkg/network/detector.go:127-132 | Gbps iff the rate is at least 1000 Mbps, else Mbps; the printed value times its unit is the rate |
| CacheUtils.CacheKey | examples/18-network-aware-builds/pkg/cache/utils.go:38-40 | the key is service, "/", version, "/", platform, at those positions |
| CacheUtils.CacheKeyInjective | examples/18-network-aware-builds/pkg/cache/utils.go:38-40 | when service and version contain no "/", different artifacts get different keys |
| CacheUtils.CompressRatio | examples/18-network-aware-builds/pkg/cache/utils.go:48-53 | 0 for an empty original; otherwise ratio times original size equals the compressed size |
| CacheUtils.SavingsPercent | examples/18-network-aware-builds/pkg/cache/utils.go:56-61 | 0 for an empty original; otherwise savings plus 100 times the ratio is 100, and equal sizes save 0 |
| CacheUtils.SavingsPercentBounds | examples/18-network-aware-builds/pkg/cache/utils.go:56-61 | a compressed size between 0 and the original gives savings between 0 and 100 percent |
| CacheUtils.VerifyChecksum | examples/18-network-aware-builds/pkg/cache/utils.go:29-35 | a checksum error is returned with false; otherwise no error, and true iff the computed checksum equals the expected one |
| CacheUtils.IsExpired | examples/18-network-aware-builds/pkg/cache/utils.go:43-45 | expired iff the elapsed time (saturated like Go's time.Since) exceeds the ttl |
| CacheUtils.ExpiryIsPermanent | examples/18-network-aware-builds/pkg/cache/utils.go:43-45 | an entry that is expired stays expired later |
| Decimal.IntStringRoundTrip | examples/18-network-aware-builds/pkg/network/detector.go:116 | the decimal rendering of an integer parses back to it |
| Topology.LeaderIsPrimary | examples/18-network-aware-builds/cmd/api/main.go:205-213 | the loop's choice is healthy, scores below 1000, at most every healthy score, strictly below every earlier healthy one; none iff no healthy region scores below 1000 |
| Topology.IsPrimaryUnique | examples/18-network-aware-builds/cmd/api/main.go:205-213 | at most one region meets that definition |
| Topology.PrimaryCacheIsHealthy | examples/18-network-aware-builds/cmd/api/main.go:205-213 | a non-empty primary cache names a region meeting the definition |
| Topology.DetectTopology | examples/18-network-aware-builds/cmd/api/main.go:204-221 | every region gets its score written in place, and the primary cache is the one the definition picks |
| Ranking.ArgSortOrdered | examples/08-multi-language-task-running/python-ml/ml_models/predictor.py:38 | argsort lists distinct indices in non-decreasing key order, ties in index order |
| Ranking.TopKIsTopK | examples/08-multi-language-task-running/python-ml/ml_models/predictor.py:38 | `argsort(p)[-k:][::-1]` has min(k, n) distinct indices with non-increasing keys, ties in reverse index order, and no omitted index has a larger key |
| Ranking.SelectedByMask | examples/05-ml-workflows/src/feature_engineering.py:283-288 | the mask keeps min(k, n) columns in their original order, none scoring below an omitted one |
| Predictor.GetPredictions | examples/08-multi-language-task-running/python-ml/ml_models/predictor.py:22-45 | one list per probability row, each of min(top_k, classes) pairs whose labels are class labels; equal to the per-row definition |
| Predictor.RowPredictionsAreTopClasses | examples/08-multi-language-task-running/python-ml/ml_models/predictor.py:36-43 | each pair is (label[c], proba[c]), confidences do not increase, and no omitted class has a higher probability than a kept one |
| Predictor.RowPredictionsDistinct | examples/08-multi-language-task-running/python-ml/ml_models/predictor.py:38-42 | with distinct class labels, one row's predicted labels are distinct |
| Predictor.ConfidencesAreProbabilities | examples/08-multi-language-task-running/python-ml/ml_models/predictor.py:40 | probabilities in [0, 1] give confidences in [0, 1] |
| Predictor.BatchPredict | examples/08-multi-language-task-running/python-ml/ml_models/predictor.py:47-60 | one result per batch and per row, each with min(3, classes) predictions |
| Frames.Lookup | examples/05-ml-workflows/src/feature_engineering.py:270 | a column is found iff its name is among the frame's names, and it is that column |
| Frames.Drop | examples/05-ml-workflows/src/feature_engineering.py:269 | the dropped name is gone and every other column stays |
| Frames.NamesDrop | examples/05-ml-workflows/src/train_model.py:80 | the remaining names are the other names in order |
| Frames.AddFreshColumns | examples/05-ml-workflows/src/feature_engineering.py:133-134 | assigning columns with fresh, distinct names one after the other appends exactly those columns, and their names, in order |
| Frames.SetLookup | examples/05-ml-workflows/src/feature_engineering.py:122 | after assigning a column it is found under its name, and other names find what they found before |
| Frames.FirstPresent | examples/05-ml-workflows/src/train_model.py:66-70 | some candidate is found iff one is present; it is present and no earlier candidate is |
| Frames.DetectTarget | examples/05-ml-workflows/src/evaluate_model.py:208-217 | a target exists iff the frame has columns; the first present candidate if any, else the last column |
| FeatureEngineering.EncodingFor | examples/05-ml-workflows/src/feature_engineering.py:117-146 | one-hot encoding iff 3 to 10 distinct values; label encoding otherwise |
| FeatureEngineering.LabelEncodedColumn | examples/05-ml-workflows/src/feature_engineering.py:119-124 | a label-encoded column keeps its place and becomes numeric with as many codes as values, and its encoder is registered |
| FeatureEngineering.OneHotEncodedColumn | examples/05-ml-workflows/src/feature_engineering.py:126-139 | the original column goes, `{col}_{category}` is appended for every category but the first, and its encoder is registered |
| FeatureEngineering.EncodeLeavesOnlyNumeric | examples/05-ml-workflows/src/feature_engineering.py:104-148 | after encoding, every column is numeric |
| FeatureEngineering.Encode | examples/05-ml-workflows/src/feature_engineering.py:106-110 | a frame with no object column comes back unchanged |
| FeatureEngineering.HousingFeatures | examples/05-ml-workflows/src/feature_engineering.py:157-174 | each ratio or distance feature is present iff it was already present or both its inputs are present; nothing is removed |
| FeatureEngineering.PairNamesCover | examples/05-ml-workflows/src/feature_engineering.py:188-190 | every pair of inputs i < j has its interaction term among the polynomial feature names |
| FeatureEngineering.PairNamesArePairs | examples/05-ml-workflows/src/feature_engineering.py:188-190 | every pair term is the names of two inputs i < j joined by a space |
| FeatureEngineering.InteractionNames | examples/05-ml-workflows/src/feature_engineering.py:193-202 | one interaction column per pair of inputs: the filter as intended, which the model's engineering step applies |
| FeatureEngineering.InteractionFilterWithoutSpaces | examples/05-ml-workflows/src/feature_engineering.py:193-202 | when no input name has a space, the one-space filter yields exactly one interaction column per pair |
| FeatureEngineering.InteractionFilterTwoSpaceNames | examples/05-ml-workflows/src/feature_engineering.py:193-202 | when every input name has two spaces, the filter as written keeps no interaction, though there is one per pair |
| FeatureEngineering.InteractionFilterCounterexample | examples/05-ml-workflows/src/feature_engineering.py:193-202 | inputs "a b" and "c d" give interaction_a_b and interaction_c_d as written, instead of interaction_a_b_c_d |
| FeatureEngineering.InteractionInputs | examples/05-ml-workflows/src/feature_engineering.py:178-186 | the polynomial transformer, when registered, takes exactly the numeric columns other than target/label/class; fewer than two of them changes nothing |
| FeatureEngineering.AggregatesAppended | examples/05-ml-workflows/src/feature_engineering.py:208-214 | with more than two numeric columns feature_sum, feature_mean and feature_std are appended; otherwise the frame is unchanged |
| FeatureEngineering.ScalerFor | examples/05-ml-workflows/src/feature_engineering.py:237-245 | minmax and robust select their scalers; every other name, known or not, selects the standard scaler |
| FeatureEngineering.ScaleColumns | examples/05-ml-workflows/src/feature_engineering.py:221-227 | the scaled columns are exactly the numeric columns other than target, label and class |
| FeatureEngineering.Scale | examples/05-ml-workflows/src/feature_engineering.py:219-251 | the frame's columns keep their names and kinds; with columns to scale, `{method}_scaler` is registered over them, otherwise nothing changes |
| FeatureEngineering.Chosen | examples/05-ml-workflows/src/feature_engineering.py:283-288 | min(k, n) columns are chosen, all features of X |
| FeatureEngineering.ChosenScoreHighest | examples/05-ml-workflows/src/feature_engineering.py:284-288 | no omitted feature scores higher than a chosen one |
| FeatureEngineering.Select | examples/05-ml-workflows/src/feature_engineering.py:253-265 | with no target given and no candidate present the frame is returned unchanged; a given target that is not a column fails |
| FeatureEngineering.SelectForSpec | examples/05-ml-workflows/src/feature_engineering.py:269-296 | the output is min(k, width of X) features from X, none scoring below an omitted one, followed by the target column |
| FeatureEngineering.ProcessedWidth | examples/05-ml-workflows/src/feature_engineering.py:358-362 | frames of at most 15 columns skip selection; wider frames always go through `select_features(df, k=15)`, and with a target candidate and distinct column names come out with exactly 15 features plus the target |
| FeatureEngineering.WideSelection | examples/05-ml-workflows/src/feature_engineering.py:269-293 | selecting 15 features from a frame wider than 15 columns with distinct names succeeds with exactly 15 features plus the target |
| FeatureEngineering.FeatureEngineer.EncodeCategoricalFeatures | examples/05-ml-workflows/src/feature_engineering.py:104-148 | the loop's frame and transformer registry are those of the encoding definition |
| FeatureEngineering.FeatureEngineer.EngineerFeatures | examples/05-ml-workflows/src/feature_engineering.py:150-217 | the loop's frame and registry are those of the engineering definition (with the intended interaction filter) |
| FeatureEngineering.FeatureEngineer.ScaleFeatures | examples/05-ml-workflows/src/feature_engineering.py:219-251 | the frame and registry are those of the scaling definition |
| FeatureEngineering.FeatureEngineer.SelectFeatures | examples/05-ml-workflows/src/feature_engineering.py:253-296 | success with the selection definition's frame and registry, or failure with the registry untouched |
| FeatureEngineering.ProcessDataset | examples/05-ml-workflows/src/feature_engineering.py:331-372 | true iff the raw data loads and every step succeeds; the frame is the one the pipeline definition gives |
| FeatureEngineering.FeatureMain | examples/05-ml-workflows/src/feature_engineering.py:374-399 | exit status 0 iff some dataset was processed, else 1 |
| Pipeline.SuccessesExtremes | examples/05-ml-workflows/src/feature_engineering.py:381-389 | the success count is 0 iff nothing succeeded and the number of datasets iff everything did |
| Pipeline.ExitCodeOfOutcomes | examples/05-ml-workflows/src/train_model.py:289-293 | the exit status of a run of outcomes is 0 iff one of them is a success |
| Pipeline.ExitCode | examples/05-ml-workflows/src/train_model.py:289-293 | 0 iff at least one success, else 1 |
| Pipeline.KeptExactly | examples/05-ml-workflows/src/train_model.py:161-202 | a model is kept iff its run succeeded |
| Pipeline.KeptEmpty | examples/05-ml-workflows/src/evaluate_model.py:262-264 | the loop keeps nothing iff every model failed |
| Pipeline.FirstBest | examples/05-ml-workflows/src/train_model.py:224 | an extreme score (least when minimising, else greatest) with every earlier score strictly worse, as Python's min and max return |
| Pipeline.FirstBestUnique | examples/05-ml-workflows/src/evaluate_model.py:277-284 | only one position is the first best one |
| Training.LoadProcessedData | examples/05-ml-workflows/src/train_model.py:42-57 | the processed data if present, else the raw data, else FileNotFoundError |
| Training.PrepareData | examples/05-ml-workflows/src/train_model.py:59-93 | the given or detected target; X is the other columns in order; the auto problem type is classification iff the target is object-typed or has fewer than 20 values; an explicit type is kept; an empty frame or a missing given target fails |
| Training.PreparedFeaturesExcludeTarget | examples/05-ml-workflows/src/train_model.py:80-81 | the target is never a feature and every other column is |
| Training.CreateModels | examples/05-ml-workflows/src/train_model.py:95-137 | regression: linear_regression, random_forest, svr; otherwise logistic_regression, random_forest, svc; xgboost added iff available; names distinct |
| Training.ScaledModelsPerProblem | examples/05-ml-workflows/src/train_model.py:166-171 | among the created models exactly svr (regression), or svc and logistic_regression (classification), are trained on scaled features |
| Training.MetricName | examples/05-ml-workflows/src/train_model.py:174-182 | RMSE iff regression, Accuracy otherwise |
| Training.SavedPaths | examples/05-ml-workflows/src/train_model.py:192-197 | every dumped file is `data/models/{model}_{dataset}_model.joblib` for a trained model |
| Training.TrainModels | examples/05-ml-workflows/src/train_model.py:139-204 | the results are the created models that fitted, in order, with their scores; a failed dump keeps the result |
| Training.SaveTrainingResults | examples/05-ml-workflows/src/train_model.py:206-240 | fails iff there are no results; models_trained is their number and best_model the first lowest-RMSE or highest-accuracy one |
| Training.TrainingSucceeds | examples/05-ml-workflows/src/train_model.py:242-266 | a dataset trains iff its data loads with a column, the split succeeds and some created model fits; the best model is one that fitted |
| Training.TrainDataset | examples/05-ml-workflows/src/train_model.py:242-266 | returns true iff the training definition succeeds |
| Training.TrainMain | examples/05-ml-workflows/src/train_model.py:268-293 | exit status 0 iff some dataset trained, else 1 |
| Evaluation.ModelPathsAgree | examples/05-ml-workflows/src/evaluate_model.py:230-233 | evaluation loads each model from the path training saved it to |
| Evaluation.Averaging | examples/05-ml-workflows/src/evaluate_model.py:87 | weighted averaging iff the test labels hold three pairwise different values, else binary |
| Evaluation.AveragingForTarget | examples/05-ml-workflows/src/evaluate_model.py:87 | test labels drawn from a target column with at most two values always get binary averaging, whatever the split |
| Evaluation.AveragingFollowsSplit | examples/05-ml-workflows/src/evaluate_model.py:87 | the averaging follows the test split, not the column: test labels a, b, a get binary, a, b, c weighted |
| Evaluation.EvaluationSpec | examples/05-ml-workflows/src/evaluate_model.py:192-299 | no training results means False; data that fails to load, has no column or fails to split raises; otherwise True iff some trained model has a file and predicts, with models_evaluated equal to the metric count and the first lowest-RMSE or highest-accuracy best model |
| Evaluation.EvaluatedModelsHaveFiles | examples/05-ml-workflows/src/evaluate_model.py:232-260 | only trained models with a saved file are evaluated, each with its prediction's score |
| Evaluation.EvaluateDatasetModels | examples/05-ml-workflows/src/evaluate_model.py:192-299 | the loop's outcome is that of the evaluation definition |
| Evaluation.MainExit | examples/05-ml-workflows/src/evaluate_model.py:308-333 | 0 iff no dataset raised and some dataset was evaluated |
| Evaluation.EvaluateMain | examples/05-ml-workflows/src/evaluate_model.py:308-333 | the exit status is that of the outcomes of the three datasets |

## Left out

- Network probing, health checks, `CalculateScore`, `EstimateTransferTime` and the sleeps of `SimulateTransfer` need the network or the clock. The score formula is a parameter of `DetectTopology`.
- HTTP handlers, JSON encoding, logging, plots, and reading or writing CSV, JSON and joblib files are I/O. File contents are parameters (`Option<Frame>`, the `stored` file set, the `save` outcome).
- NetworkDetector.FormatBytes: the value is returned exactly rather than rounded to one decimal by `%.1f`.
- NetworkDetector.FormatBandwidth: the value is returned exactly rather than rounded to one decimal by `%.1f`.
- NetworkDetector.SimulateTransfer: the model uses unbounded integers; the int64 wrap-around is under Findings.
- CacheUtils.VerifyChecksum: `ComputeChecksum` reads a file; it is a parameter.
- Ranking.ArgSort: the order of equal keys is a modelling choice. NumPy's default argsort (`kind='quicksort'`) is documented as not stable, and its SIMD paths may order ties differently. The model takes the stable order, so the tie clause of `Ranking.TopKIsTopK` (equal probabilities, higher class index first) is not promised by `get_predictions`; its count, distinctness, ordering and dominance clauses hold for any tie order. `SelectKBest` sorts with `kind="mergesort"`, which is stable, so `Ranking.SelectedByMask` is exact.
- Predictor.GetPredictions: `top_k <= 0` is excluded by its requires. There `[-0:]` keeps every class, which the source does not intend.
- Predictor.GetPredictions: probability rows wider than the label list raise IndexError at `self.classifier.labels[idx]` (a classifier fitted on more than its four fixed labels); `RowsFitLabels` excludes such rows, so this error path is not modelled.
- FeatureEngineering.FeatureEngineer.EngineerFeatures: the interaction step applies the intended pair filter (`InteractionNames`), not the one-space filter as written (`InteractionNamesAsWritten`, under Findings). For input names with spaces, such as iris's "sepal length (cm)", the source adds no interaction column and registers no `polynomial_features`; the model adds one column per pair and registers the transformer.
- FeatureEngineering.Interactions: applies the intended pair filter, as above.
- FeatureEngineering.ProcessDataset: the frame and registry it promises follow the intended interaction filter, so for iris they carry interaction columns and a `polynomial_features` entry that the source does not produce.
- The classifier behind `predict_proba` is not part of this model; its probability rows are inputs.
- `handle_missing_values` is not modelled.
- Data frames with repeated column names are not modelled faithfully; lookups take the first column of a name.
- `list.remove` of the excluded targets is modelled as removing every occurrence, which is the same on frames with distinct names.
- FeatureEngineering.Scale: scaled cell values are not tracked; scaling keeps names, kinds and distinct-value counts.
- Derived columns (ratios, distances, aggregates, interaction products) take their distinct values from a parameter, because their floating-point formulas are not modelled.
- FeatureEngineering.Chosen: SelectKBest's scores (f_classif, f_regression) are a parameter. Its failure on object-typed features is not modelled.
- `OneHotEncoder(sparse=False)` is rejected by scikit-learn 1.4 and later; the model assumes a version that accepts it.
- Training.TrainingOutcome: `train_test_split` and the scaler failing are one parameter, `splitOk`. The fitted scores are the parameter `fit`. The scaler kept in `self.scalers` is not modelled.
- The `logger.warning` at train_model.py:26 runs before `logger` is defined, so a missing xgboost raises NameError at import. The model treats xgboost availability as a parameter.
- Evaluation.EvaluationOutcome: the per-model metrics other than RMSE and accuracy are not modelled. Neither is evaluate_model.py:244 fitting its scaler on the first rows rather than the training split, nor `precision_score` raising for non-0/1 binary labels; all of these sit behind the parameter `predict`.
- Failures of writing the evaluation summary or the plots are not modelled. They happen outside any `try` and would make `main` crash.

## Findings

| source | as written | input that shows it | evidently intended | confidence | as-written member | corrected member |
|---|---|---|---|---|---|---|
| examples/18-network-aware-builds/pkg/network/detector.go:99-102 | `transferred += chunkSize` in int64 wraps before the cap is applied | sizeBytes = 2^63-1: after 2^43-1 chunks the progress is 2^63-2^20, and the next step yields -2^63, a negative progress value | progress capped at sizeBytes, ending after ceil(size / 1 MiB) chunks | not executed | NetworkDetector.TransferStepAsWrittenWraps | NetworkDetector.ProgressTraceShape |
| examples/05-ml-workflows/src/feature_engineering.py:193-194 | interaction terms are those polynomial feature names with exactly one space | input columns "a b" and "c d": the single names are kept as interactions and the pair term is dropped; with iris columns, such as "sepal length (cm)", which have two spaces each, no interaction is kept at all | one interaction column per pair of inputs | not executed | FeatureEngineering.InteractionFilterCounterexample | FeatureEngineering.InteractionNames |
