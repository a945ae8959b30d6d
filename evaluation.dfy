/**
 * The evaluation script (`evaluate_model.py`): for each dataset it reads the training summary,
 * re-derives the target and test split, reloads every trained model from its file, scores the
 * ones that load and predict, and records the best. Loading a file that exists and predicting
 * with it is a parameter `predict` (the model's RMSE or accuracy, `None` when it raises); the
 * model files on disk are the set `stored`.
 */
module Evaluation {
  import opened Wrappers
  import opened Frames
  import opened Pipeline
  import Training

  /** The part of `training_results_{dataset}.json` the evaluation reads. */
  datatype TrainingRecord = TrainingRecord(problemType: string, models: seq<string>)

  /** The record the training script wrote for a summary. */
  function RecordOf(summary: Training.TrainingSummary): TrainingRecord {
    TrainingRecord(summary.problemType, ScoredNames(summary.results))
  }

  /** The directory the evaluation reloads models from. */
  const ModelsDir: string := "data/models"

  /** `f'{models_dir}/{model_name}_{dataset_name}_model.joblib'`. */
  function EvaluationModelPath(model: string, dataset: string): string {
    ModelsDir + "/" + model + "_" + dataset + "_model.joblib"
  }

  /** The evaluation looks for every model exactly where training dumped it. */
  lemma ModelPathsAgree(model: string, dataset: string)
    ensures EvaluationModelPath(model, dataset) == Training.ModelPath(model, dataset)
  {
    assert ModelsDir + "/" == "data/models/";
  }

  /** The test labels hold three pairwise different values. */
  predicate ThreeDistinct(yTrue: seq<string>) {
    exists a, b, c :: a in yTrue && b in yTrue && c in yTrue && a != b && a != c && b != c
  }

  /**
   * `evaluate_classification_model`: weighted averages when the test labels `y_true` hold more
   * than two distinct values (`len(np.unique(y_true)) > 2`), else binary.
   */
  function Averaging(yTrue: seq<string>): (average: string)
    ensures average == "weighted" <==> ThreeDistinct(yTrue)
    ensures average == "binary" <==> !ThreeDistinct(yTrue)
  {
    var labels := set y | y in yTrue;
    assert forall y :: y in labels <==> y in yTrue;
    CardAtLeastThree(labels);
    if |labels| > 2 then "weighted" else "binary"
  }

  lemma CardAtLeastThree(s: set<string>)
    ensures |s| > 2 <==> exists a, b, c :: a in s && b in s && c in s && a != b && a != c && b != c
  {
    if |s| > 2 {
      ThreeOfLarge(s);
    }
    if exists a, b, c :: a in s && b in s && c in s && a != b && a != c && b != c {
      var a, b, c :| a in s && b in s && c in s && a != b && a != c && b != c;
      LargeOfThree(s, a, b, c);
    }
  }

  lemma ThreeOfLarge(s: set<string>)
    requires |s| > 2
    ensures exists a, b, c :: a in s && b in s && c in s && a != b && a != c && b != c
  {
    var a :| a in s;
    var s1 := s - {a};
    assert |s1| == |s| - 1;
    var b :| b in s1;
    var s2 := s1 - {b};
    assert |s2| == |s| - 2;
    var c :| c in s2;
    assert a in s && b in s && c in s && a != b && a != c && b != c;
  }

  lemma LargeOfThree(s: set<string>, a: string, b: string, c: string)
    requires a in s && b in s && c in s && a != b && a != c && b != c
    ensures |s| > 2
  {
    var t := {a, b, c};
    assert s == t + (s - t);
    assert |t| == 3;
  }

  lemma {:induction false} SeqSetCard(s: seq<string>)
    ensures |set x | x in s| <= |s|
  {
    if |s| > 0 {
      SeqSetCard(s[1..]);
      assert (set x | x in s) == {s[0]} + (set x | x in s[1..]);
    }
  }

  /** Test labels drawn from a column's values can hold three distinct ones only if the column has three. */
  lemma ThreeDistinctNeedsThreeLevels(yTrue: seq<string>, levels: seq<string>)
    requires forall i :: 0 <= i < |yTrue| ==> yTrue[i] in levels
    ensures ThreeDistinct(yTrue) ==> |levels| >= 3
  {
    if ThreeDistinct(yTrue) {
      var a, b, c :| a in yTrue && b in yTrue && c in yTrue && a != b && a != c && b != c;
      var t := set x | x in levels;
      assert a in t && b in t && c in t;
      CardAtLeastThree(t);
      SeqSetCard(levels);
    }
  }

  /**
   * A target column with at most two values is always scored with binary averages, whatever rows
   * the test split holds. The converse fails: the averaging follows the test split, not the column.
   */
  lemma AveragingForTarget(y: Column, yTest: seq<string>)
    requires forall i :: 0 <= i < |yTest| ==> yTest[i] in y.levels
    ensures |y.levels| <= 2 ==> Averaging(yTest) == "binary"
  {
    ThreeDistinctNeedsThreeLevels(yTest, y.levels);
  }

  /** A three-valued target whose test split holds only two of its values gets binary averages. */
  lemma AveragingFollowsSplit()
    ensures Averaging(["a", "b", "a"]) == "binary"
    ensures Averaging(["a", "b", "c"]) == "weighted"
  {
    var two := ["a", "b", "a"];
    forall a, b, c | a in two && b in two && c in two ensures a == b || a == c || b == c {
      assert a == "a" || a == "b";
    }
    var three := ["a", "b", "c"];
    assert three[0] in three && three[1] in three && three[2] in three;
  }

  /**
   * Scoring one model: a missing file raises `FileNotFoundError` inside the per-model `try`;
   * otherwise the model predicts on scaled features exactly when training scaled them.
   */
  function EvaluationRun(stored: set<string>, predict: (string, string, bool) -> Option<real>, dataset: string)
    : string -> Option<real>
  {
    m => if EvaluationModelPath(m, dataset) in stored then predict(dataset, m, Training.UsesScaledInputs(m)) else None
  }

  /** The evaluation summary written to `evaluation_results_{dataset}.json`. */
  datatype EvaluationSummary = EvaluationSummary(
    dataset: string, problemType: string, modelsEvaluated: nat, metrics: seq<Scored>, bestModel: string)

  /**
   * What `evaluate_dataset_models` does for one dataset: returns `True` with a summary, returns
   * `False`, or raises (the data file, the last-column fallback and the split are outside any
   * `try`).
   */
  datatype Outcome = Evaluated(summary: EvaluationSummary) | NotEvaluated | Raised(error: string)

  /** The evaluation of one dataset, by its specification. */
  function EvaluationOutcome(
    record: Option<TrainingRecord>, processed: Option<Frame>, raw: Option<Frame>, dataset: string, splitOk: bool,
    stored: set<string>, predict: (string, string, bool) -> Option<real>): Outcome
  {
    match record
    case None => NotEvaluated
    case Some(rec) =>
      match Training.LoadProcessedData(processed, raw)
      case Failure(e) => Raised(e)
      case Success(df) =>
        if DetectTarget(df).None? then Raised("IndexError")
        else if !splitOk then Raised("ValueError")
        else
          var metrics := Kept(rec.models, EvaluationRun(stored, predict, dataset));
          if |metrics| == 0 then NotEvaluated
          else
            var b := FirstBest(ScoresOf(metrics), Training.Minimises(rec.problemType));
            Evaluated(EvaluationSummary(dataset, rec.problemType, |metrics|, metrics, metrics[b].name))
  }

  /** The test data loads, has a column to take as the target, and splits. */
  predicate DataReady(processed: Option<Frame>, raw: Option<Frame>, splitOk: bool) {
    var loaded := Training.LoadProcessedData(processed, raw);
    loaded.Success? && |loaded.value| > 0 && splitOk
  }

  /**
   * Missing training results give `False` before anything is loaded; otherwise the dataset is
   * evaluated exactly when its data loads with a column, the split goes through and some
   * trained model has a file and predicts. The summary then counts its metric records and
   * names the first lowest-RMSE (regression) or highest-accuracy model among them.
   */
  lemma EvaluationSpec(
    record: Option<TrainingRecord>, processed: Option<Frame>, raw: Option<Frame>, dataset: string, splitOk: bool,
    stored: set<string>, predict: (string, string, bool) -> Option<real>)
    ensures record.None? ==> EvaluationOutcome(record, processed, raw, dataset, splitOk, stored, predict) == NotEvaluated
    ensures record.Some? && !DataReady(processed, raw, splitOk) ==>
      EvaluationOutcome(record, processed, raw, dataset, splitOk, stored, predict).Raised?
    ensures record.Some? && DataReady(processed, raw, splitOk) ==>
      var o := EvaluationOutcome(record, processed, raw, dataset, splitOk, stored, predict);
      (o.Evaluated? <==>
        exists m :: m in record.value.models && EvaluationModelPath(m, dataset) in stored &&
          predict(dataset, m, Training.UsesScaledInputs(m)).Some?) &&
      (o.Evaluated? ==>
        var s := o.summary;
        s.modelsEvaluated == |s.metrics| && s.modelsEvaluated <= |record.value.models| &&
        exists b :: 0 <= b < |s.metrics| && s.metrics[b].name == s.bestModel &&
          IsFirstBest(ScoresOf(s.metrics), b, record.value.problemType == Training.Regression))
  {
    if record.Some? && DataReady(processed, raw, splitOk) {
      var run := EvaluationRun(stored, predict, dataset);
      KeptEmpty(record.value.models, run);
    }
  }

  /**
   * Only trained models are evaluated, each from the file training dumped it to and with the
   * score its prediction gave.
   */
  lemma EvaluatedModelsHaveFiles(
    record: Option<TrainingRecord>, processed: Option<Frame>, raw: Option<Frame>, dataset: string, splitOk: bool,
    stored: set<string>, predict: (string, string, bool) -> Option<real>)
    ensures var o := EvaluationOutcome(record, processed, raw, dataset, splitOk, stored, predict);
      o.Evaluated? ==>
        forall k :: 0 <= k < |o.summary.metrics| ==>
          var m := o.summary.metrics[k];
          m.name in record.value.models && Training.ModelPath(m.name, dataset) in stored &&
          predict(dataset, m.name, Training.UsesScaledInputs(m.name)) == Some(m.score)
  {
    var o := EvaluationOutcome(record, processed, raw, dataset, splitOk, stored, predict);
    if o.Evaluated? {
      forall k | 0 <= k < |o.summary.metrics|
        ensures Training.ModelPath(o.summary.metrics[k].name, dataset) in stored
      {
        ModelPathsAgree(o.summary.metrics[k].name, dataset);
      }
    }
  }

  /** `evaluate_dataset_models`, step by step: the per-model loop appends to `metrics_list`. */
  method EvaluateDatasetModels(
    record: Option<TrainingRecord>, processed: Option<Frame>, raw: Option<Frame>, dataset: string, splitOk: bool,
    stored: set<string>, predict: (string, string, bool) -> Option<real>)
    returns (outcome: Outcome)
    ensures outcome == EvaluationOutcome(record, processed, raw, dataset, splitOk, stored, predict)
  {
    if record.None? {
      return NotEvaluated;
    }
    var problemType := record.value.problemType;
    var loaded := Training.LoadProcessedData(processed, raw);
    if loaded.Failure? {
      return Raised(loaded.error);
    }
    var target := DetectTarget(loaded.value);
    if target.None? {
      return Raised("IndexError");
    }
    if !splitOk {
      return Raised("ValueError");
    }
    var models := record.value.models;
    ghost var run := EvaluationRun(stored, predict, dataset);
    var metricsList: seq<Scored> := [];
    for i := 0 to |models|
      invariant metricsList == Kept(models[..i], run)
    {
      assert models[..i + 1][..i] == models[..i];
      var modelName := models[i];
      var modelPath := EvaluationModelPath(modelName, dataset);
      if modelPath in stored {
        var score := predict(dataset, modelName, Training.UsesScaledInputs(modelName));
        if score.Some? {
          metricsList := metricsList + [Scored(modelName, score.value)];
        }
      }
    }
    assert models[..|models|] == models;
    if |metricsList| == 0 {
      return NotEvaluated;
    }
    var best := FirstBest(ScoresOf(metricsList), Training.Minimises(problemType));
    outcome := Evaluated(EvaluationSummary(dataset, problemType, |metricsList|, metricsList, metricsList[best].name));
  }

  /** The outcome of `evaluate_dataset` for one dataset of `main`. */
  function OutcomeFor(
    records: string -> Option<TrainingRecord>, processed: string -> Option<Frame>, raw: string -> Option<Frame>,
    splitOk: string -> bool, stored: set<string>, predict: (string, string, bool) -> Option<real>, dataset: string)
    : Outcome
  {
    EvaluationOutcome(records(dataset), processed(dataset), raw(dataset), dataset, splitOk(dataset), stored, predict)
  }

  /** The outcome of every dataset of `main`, in order. */
  function Outcomes(
    records: string -> Option<TrainingRecord>, processed: string -> Option<Frame>, raw: string -> Option<Frame>,
    splitOk: string -> bool, stored: set<string>, predict: (string, string, bool) -> Option<real>, datasets: seq<string>)
    : (os: seq<Outcome>)
    ensures |os| == |datasets|
  {
    seq(|datasets|, i requires 0 <= i < |datasets| => OutcomeFor(records, processed, raw, splitOk, stored, predict, datasets[i]))
  }

  /** Which outcomes are evaluations. */
  function EvaluatedOks(outcomes: seq<Outcome>): (oks: seq<bool>)
    ensures |oks| == |outcomes|
    ensures forall i :: 0 <= i < |outcomes| ==> (oks[i] <==> outcomes[i].Evaluated?)
  {
    seq(|outcomes|, i requires 0 <= i < |outcomes| => outcomes[i].Evaluated?)
  }

  /**
   * The exit status of the evaluation `main` for the outcomes of its datasets: an exception is
   * not caught, so the script stops with status 1; otherwise 0 exactly when some dataset was
   * evaluated.
   */
  function MainExit(outcomes: seq<Outcome>): (code: int)
    ensures code == 0 || code == 1
    ensures code == 0 <==>
      (forall i :: 0 <= i < |outcomes| ==> !outcomes[i].Raised?) &&
      exists i :: 0 <= i < |outcomes| && outcomes[i].Evaluated?
  {
    if exists i :: 0 <= i < |outcomes| && outcomes[i].Raised? then 1
    else
      var oks := EvaluatedOks(outcomes);
      SuccessesExtremes(oks);
      ExitCode(Successes(oks))
  }

  /** The evaluation `main`: every dataset in turn, counting the evaluated ones. */
  method EvaluateMain(
    records: string -> Option<TrainingRecord>, processed: string -> Option<Frame>, raw: string -> Option<Frame>,
    splitOk: string -> bool, stored: set<string>, predict: (string, string, bool) -> Option<real>)
    returns (code: int)
    ensures code == MainExit(Outcomes(records, processed, raw, splitOk, stored, predict, Datasets))
  {
    ghost var outcomes := Outcomes(records, processed, raw, splitOk, stored, predict, Datasets);
    ghost var oks := EvaluatedOks(outcomes);
    var successfulEvaluations := 0;
    for i := 0 to |Datasets|
      invariant successfulEvaluations == Successes(oks[..i])
      invariant forall j :: 0 <= j < i ==> !outcomes[j].Raised?
    {
      var d := Datasets[i];
      var outcome := EvaluateDatasetModels(records(d), processed(d), raw(d), d, splitOk(d), stored, predict);
      assert outcome == outcomes[i];
      if outcome.Raised? {
        return 1;
      }
      SuccessesStep(oks, i);
      if outcome.Evaluated? {
        successfulEvaluations := successfulEvaluations + 1;
      }
    }
    assert oks[..|Datasets|] == oks;
    code := ExitCode(successfulEvaluations);
  }
}
