/**
 * The training script (`train_model.py`): choosing the target and the problem type, the
 * candidate models per problem type, the loop that fits each model and skips the ones that
 * raise, the best-model choice recorded in the training summary, and the exit status of
 * `main`. Fitting and scoring a model are a parameter `fit` (its RMSE or accuracy, `None` when
 * it raises); saving a model file is a parameter `save` (`false` when `joblib.dump` raises).
 */
module Training {
  import opened Wrappers
  import opened Frames
  import opened Pipeline

  const Regression: string := "regression"
  const Classification: string := "classification"
  const AutoDetect: string := "auto"

  /** `load_processed_data`: the processed CSV, else the raw CSV, else `FileNotFoundError`. */
  function LoadProcessedData(processed: Option<Frame>, raw: Option<Frame>): (r: Result<Frame, string>)
    ensures r.Success? <==> processed.Some? || raw.Some?
    ensures processed.Some? ==> r == Success(processed.value)
    ensures processed.None? && raw.Some? ==> r == Success(raw.value)
  {
    if processed.Some? then Success(processed.value)
    else if raw.Some? then Success(raw.value)
    else Failure("FileNotFoundError")
  }

  /** What `prepare_data` returns: the feature frame `X`, the target column `y` and the problem type. */
  datatype Prepared = Prepared(features: Frame, target: Column, problemType: string)

  /**
   * `prepare_data`: the given target column, or the detected one; `X` drops it and `y` is it.
   * An empty frame has no last column (`IndexError`); a given target that is not a column
   * makes `df.drop` raise (`KeyError`).
   */
  function PrepareData(df: Frame, targetColumn: Option<string>, problemType: string): (r: Result<Prepared, string>)
    ensures targetColumn.None? ==> (r.Success? <==> |df| > 0)
    ensures targetColumn.Some? ==> (r.Success? <==> targetColumn.value in Names(df))
    ensures r.Success? ==> r.value.target in df
    ensures r.Success? ==> Names(r.value.features) == Without(Names(df), [r.value.target.name])
    ensures r.Success? && targetColumn.Some? ==> r.value.target.name == targetColumn.value
    ensures r.Success? && targetColumn.None? ==> Some(r.value.target.name) == DetectTarget(df)
    ensures r.Success? && problemType != AutoDetect ==> r.value.problemType == problemType
    ensures r.Success? && problemType == AutoDetect ==>
      (r.value.problemType == Classification <==> IsClassificationTarget(r.value.target)) &&
      (r.value.problemType == Regression <==> !IsClassificationTarget(r.value.target))
  {
    var t := if targetColumn.Some? then targetColumn else DetectTarget(df);
    match t
    case None => Failure("IndexError")
    case Some(name) =>
      match Lookup(df, name)
      case None => Failure("KeyError")
      case Some(y) =>
        NamesDrop(df, name);
        var kind := if problemType != AutoDetect then problemType
          else if IsClassificationTarget(y) then Classification else Regression;
        Success(Prepared(Drop(df, name), y, kind))
  }

  /** The target never stays among the features, whichever way it was chosen. */
  lemma PreparedFeaturesExcludeTarget(df: Frame, targetColumn: Option<string>, problemType: string)
    requires PrepareData(df, targetColumn, problemType).Success?
    ensures var p := PrepareData(df, targetColumn, problemType).value;
      p.target.name !in Names(p.features) &&
      forall n :: n in Names(df) && n != p.target.name ==> n in Names(p.features)
  {
  }

  /** `create_models`: the model names in the order of the `models` dict. */
  function CreateModels(problemType: string, xgboostAvailable: bool): (ms: seq<string>)
    ensures |ms| == if xgboostAvailable then 4 else 3
    ensures DistinctNames(ms)
    ensures "random_forest" in ms
    ensures "xgboost" in ms <==> xgboostAvailable
    ensures problemType == Regression ==>
      (forall m :: m in ms <==> m in ["linear_regression", "random_forest", "svr"] || (xgboostAvailable && m == "xgboost"))
    ensures problemType != Regression ==>
      (forall m :: m in ms <==> m in ["logistic_regression", "random_forest", "svc"] || (xgboostAvailable && m == "xgboost"))
  {
    var base := if problemType == Regression then ["linear_regression", "random_forest", "svr"]
      else ["logistic_regression", "random_forest", "svc"];
    if xgboostAvailable then base + ["xgboost"] else base
  }

  /** The models that are fitted and scored on standardised features. */
  const ScaledModels: seq<string> := ["svr", "svc", "logistic_regression"]

  predicate UsesScaledInputs(model: string) {
    model in ScaledModels
  }

  /**
   * Of the models created for a problem type, exactly the support-vector model (and, for
   * classification, logistic regression) see scaled features.
   */
  lemma ScaledModelsPerProblem(problemType: string, xgboostAvailable: bool)
    ensures problemType == Regression ==>
      forall m :: m in CreateModels(problemType, xgboostAvailable) ==> (UsesScaledInputs(m) <==> m == "svr")
    ensures problemType != Regression ==>
      forall m :: m in CreateModels(problemType, xgboostAvailable) ==>
        (UsesScaledInputs(m) <==> m == "svc" || m == "logistic_regression")
  {
  }

  /** The metric recorded with every result: RMSE for regression, accuracy otherwise. */
  function MetricName(problemType: string): (name: string)
    ensures name == "RMSE" <==> problemType == Regression
    ensures name == "Accuracy" <==> problemType != Regression
  {
    if problemType == Regression then "RMSE" else "Accuracy"
  }

  /** Lower is better for RMSE, higher for accuracy. */
  predicate Minimises(problemType: string) {
    problemType == Regression
  }

  /** Where a fitted model is dumped. */
  function ModelPath(model: string, dataset: string): string {
    "data/models/" + model + "_" + dataset + "_model.joblib"
  }

  /** Fitting one model of a dataset, on scaled features exactly when the rule asks for it. */
  function TrainRun(fit: (string, string, bool) -> Option<real>, dataset: string): string -> Option<real> {
    m => fit(dataset, m, UsesScaledInputs(m))
  }

  /** The model files `joblib.dump` wrote, in order: one per result whose save went through. */
  function SavedPaths(results: seq<Scored>, dataset: string, save: string -> bool): (ps: seq<string>)
    ensures |ps| <= |results|
    ensures forall p :: p in ps ==> save(p) && exists k :: 0 <= k < |results| && p == ModelPath(results[k].name, dataset)
  {
    if |results| == 0 then []
    else
      var rest := SavedPaths(results[..|results| - 1], dataset, save);
      var path := ModelPath(results[|results| - 1].name, dataset);
      assert forall k :: 0 <= k < |results| - 1 ==> results[..|results| - 1][k] == results[k];
      if save(path) then rest + [path] else rest
  }

  /**
   * `train_models`: fits every created model in order, skipping one that raises; a model's
   * result is recorded before its file is dumped, so a failed dump keeps the result.
   */
  method TrainModels(models: seq<string>, dataset: string, fit: (string, string, bool) -> Option<real>, save: string -> bool)
    returns (results: seq<Scored>, saved: seq<string>)
    ensures results == Kept(models, TrainRun(fit, dataset))
    ensures saved == SavedPaths(results, dataset, save)
  {
    results, saved := [], [];
    var run := TrainRun(fit, dataset);
    for i := 0 to |models|
      invariant results == Kept(models[..i], run)
      invariant saved == SavedPaths(results, dataset, save)
    {
      assert models[..i + 1][..i] == models[..i];
      var score := fit(dataset, models[i], UsesScaledInputs(models[i]));
      if score.Some? {
        var old_results := results;
        results := results + [Scored(models[i], score.value)];
        assert results[..|results| - 1] == old_results;
        var path := ModelPath(models[i], dataset);
        if save(path) {
          saved := saved + [path];
        }
      }
    }
    assert models[..|models|] == models;
  }

  /** The training summary written to `training_results_{dataset}.json`. */
  datatype TrainingSummary = TrainingSummary(
    dataset: string, problemType: string, metric: string, modelsTrained: nat, bestModel: string, results: seq<Scored>)

  /**
   * `save_training_results`: `models_trained` counts the results and `best_model` is the first
   * lowest-RMSE or highest-accuracy model; with no result at all `min`/`max` raise.
   */
  function SaveTrainingResults(results: seq<Scored>, dataset: string, problemType: string): (r: Result<TrainingSummary, string>)
    ensures r.Failure? <==> |results| == 0
    ensures r.Success? ==>
      r.value.modelsTrained == |results| && r.value.results == results &&
      r.value.dataset == dataset && r.value.problemType == problemType &&
      r.value.metric == MetricName(problemType) &&
      exists b :: 0 <= b < |results| && results[b].name == r.value.bestModel &&
        IsFirstBest(ScoresOf(results), b, Minimises(problemType))
  {
    if |results| == 0 then Failure("ValueError")
    else
      var b := FirstBest(ScoresOf(results), Minimises(problemType));
      Success(TrainingSummary(dataset, problemType, MetricName(problemType), |results|, results[b].name, results))
  }

  /**
   * `train_dataset`: load, prepare with the detected target and `auto`, split and scale
   * (`splitOk` is false when scikit-learn raises there), train, then summarise; any exception
   * on the way makes it return `False`.
   */
  function TrainingOutcome(
    processed: Option<Frame>, raw: Option<Frame>, dataset: string, splitOk: bool, xgboostAvailable: bool,
    fit: (string, string, bool) -> Option<real>): Result<TrainingSummary, string>
  {
    match LoadProcessedData(processed, raw)
    case Failure(e) => Failure(e)
    case Success(df) =>
      match PrepareData(df, None, AutoDetect)
      case Failure(e) => Failure(e)
      case Success(p) =>
        if !splitOk then Failure("ValueError")
        else SaveTrainingResults(Kept(CreateModels(p.problemType, xgboostAvailable), TrainRun(fit, dataset)), dataset, p.problemType)
  }

  /**
   * A dataset trains successfully exactly when its data loads with at least one column, the
   * split goes through and at least one created model fits; its summary then names a model
   * that fitted.
   */
  lemma TrainingSucceeds(
    processed: Option<Frame>, raw: Option<Frame>, dataset: string, splitOk: bool, xgboostAvailable: bool,
    fit: (string, string, bool) -> Option<real>)
    ensures var r := TrainingOutcome(processed, raw, dataset, splitOk, xgboostAvailable, fit);
      r.Success? <==>
        LoadProcessedData(processed, raw).Success? && |LoadProcessedData(processed, raw).value| > 0 && splitOk &&
        var p := PrepareData(LoadProcessedData(processed, raw).value, None, AutoDetect).value;
        exists m :: m in CreateModels(p.problemType, xgboostAvailable) && fit(dataset, m, UsesScaledInputs(m)).Some?
    ensures var r := TrainingOutcome(processed, raw, dataset, splitOk, xgboostAvailable, fit);
      r.Success? ==>
        r.value.problemType in {Regression, Classification} &&
        r.value.bestModel in ScoredNames(r.value.results) &&
        fit(dataset, r.value.bestModel, UsesScaledInputs(r.value.bestModel)).Some?
  {
    var r := TrainingOutcome(processed, raw, dataset, splitOk, xgboostAvailable, fit);
    var loaded := LoadProcessedData(processed, raw);
    if loaded.Success? && |loaded.value| > 0 && splitOk {
      var p := PrepareData(loaded.value, None, AutoDetect).value;
      var models := CreateModels(p.problemType, xgboostAvailable);
      var run := TrainRun(fit, dataset);
      KeptEmpty(models, run);
      var results := Kept(models, run);
      if results != [] {
        var b :| 0 <= b < |results| && results[b].name == r.value.bestModel &&
          IsFirstBest(ScoresOf(results), b, Minimises(p.problemType));
        assert ScoredNames(results)[b] == r.value.bestModel;
      }
    }
  }

  /** `train_dataset`, step by step. */
  method TrainDataset(
    processed: Option<Frame>, raw: Option<Frame>, dataset: string, splitOk: bool, xgboostAvailable: bool,
    fit: (string, string, bool) -> Option<real>, save: string -> bool)
    returns (ok: bool, saved: seq<string>)
    ensures ok <==> TrainingOutcome(processed, raw, dataset, splitOk, xgboostAvailable, fit).Success?
    ensures forall p :: p in saved ==> save(p)
  {
    saved := [];
    var loaded := LoadProcessedData(processed, raw);
    if loaded.Failure? {
      return false, saved;
    }
    var prepared := PrepareData(loaded.value, None, AutoDetect);
    if prepared.Failure? || !splitOk {
      return false, saved;
    }
    var models := CreateModels(prepared.value.problemType, xgboostAvailable);
    var results;
    results, saved := TrainModels(models, dataset, fit, save);
    var summary := SaveTrainingResults(results, dataset, prepared.value.problemType);
    ok := summary.Success?;
  }

  /** Whether `train_dataset` returns `True` for one dataset. */
  predicate TrainedOk(
    processed: string -> Option<Frame>, raw: string -> Option<Frame>, splitOk: string -> bool, xgboostAvailable: bool,
    fit: (string, string, bool) -> Option<real>, dataset: string)
  {
    TrainingOutcome(processed(dataset), raw(dataset), dataset, splitOk(dataset), xgboostAvailable, fit).Success?
  }

  /** Whether each of `datasets` trains. */
  function TrainingOks(
    processed: string -> Option<Frame>, raw: string -> Option<Frame>, splitOk: string -> bool, xgboostAvailable: bool,
    fit: (string, string, bool) -> Option<real>, datasets: seq<string>): (oks: seq<bool>)
    ensures |oks| == |datasets|
  {
    seq(|datasets|, i requires 0 <= i < |datasets| => TrainedOk(processed, raw, splitOk, xgboostAvailable, fit, datasets[i]))
  }

  /** `main`: trains every dataset in turn, counting the successes; 0 when one succeeded, else 1. */
  method TrainMain(
    processed: string -> Option<Frame>, raw: string -> Option<Frame>, splitOk: string -> bool, xgboostAvailable: bool,
    fit: (string, string, bool) -> Option<real>, save: string -> bool)
    returns (code: int)
    ensures code == ExitCode(Successes(TrainingOks(processed, raw, splitOk, xgboostAvailable, fit, Datasets)))
    ensures code == 0 <==> true in TrainingOks(processed, raw, splitOk, xgboostAvailable, fit, Datasets)
  {
    ghost var oks := TrainingOks(processed, raw, splitOk, xgboostAvailable, fit, Datasets);
    var successfulTrainings := 0;
    for i := 0 to |Datasets|
      invariant successfulTrainings == Successes(oks[..i])
    {
      var d := Datasets[i];
      var ok, _ := TrainDataset(processed(d), raw(d), d, splitOk(d), xgboostAvailable, fit, save);
      assert ok == oks[i];
      SuccessesStep(oks, i);
      if ok {
        successfulTrainings := successfulTrainings + 1;
      }
    }
    assert oks[..|Datasets|] == oks;
    ExitCodeOfOutcomes(oks);
    code := ExitCode(successfulTrainings);
  }
}
