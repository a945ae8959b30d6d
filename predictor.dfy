/**
 * `PredictionService` of ml_models/predictor.py. The classifier's `predict_proba` output is an
 * input (one probability row per sample, one column per class) and `labels` is the classifier's
 * label list. The ranking of a row is numpy's `argsort`, taken as stable (see module Ranking).
 */
module Predictor {
  import opened Ranking

  /** A `(label, confidence)` pair. */
  type Prediction = (string, real)

  /** `batch_predict` calls `get_predictions` with its default `top_k`. */
  const DefaultTopK: nat := 3

  /** Every probability row indexes only into the label list. */
  predicate RowsFitLabels(labels: seq<string>, probas: seq<seq<real>>) {
    forall i :: 0 <= i < |probas| ==> |probas[i]| <= |labels|
  }

  predicate DistinctLabels(labels: seq<string>) {
    forall a, b :: 0 <= a < b < |labels| ==> labels[a] != labels[b]
  }

  /** The list `get_predictions` builds for one row: `(labels[idx], proba[idx])` over the top indices. */
  function RowPredictions(labels: seq<string>, proba: seq<real>, topK: nat): (r: seq<Prediction>)
    requires |proba| <= |labels|
    ensures |r| == Min(topK, |proba|)
  {
    var top := TopK(proba, topK);
    seq(|top|, j requires 0 <= j < |top| => (labels[top[j]], proba[top[j]]))
  }

  /** One prediction list per row, in row order. */
  function Predictions(labels: seq<string>, probas: seq<seq<real>>, topK: nat): (r: seq<seq<Prediction>>)
    requires RowsFitLabels(labels, probas)
    ensures |r| == |probas|
    ensures forall i :: 0 <= i < |probas| ==> |r[i]| == Min(topK, |probas[i]|)
  {
    seq(|probas|, i requires 0 <= i < |probas| => RowPredictions(labels, probas[i], topK))
  }

  /**
   * `get_predictions`: one list per input row, in input order; the list for a row holds
   * min(top_k, number of classes) pairs whose labels come from the label list.
   */
  method GetPredictions(labels: seq<string>, probas: seq<seq<real>>, topK: nat) returns (results: seq<seq<Prediction>>)
    requires topK >= 1
    requires RowsFitLabels(labels, probas)
    ensures results == Predictions(labels, probas, topK)
    ensures |results| == |probas|
    ensures forall i :: 0 <= i < |probas| ==> |results[i]| == Min(topK, |probas[i]|)
    ensures forall i, j :: 0 <= i < |results| && 0 <= j < |results[i]| ==> results[i][j].0 in labels
  {
    results := [];
    for i := 0 to |probas|
      invariant results == Predictions(labels, probas[..i], topK)
      invariant forall r, j :: 0 <= r < i && 0 <= j < |results[r]| ==> results[r][j].0 in labels
    {
      var topIndices := TopK(probas[i], topK);
      var predictions := seq(|topIndices|, j requires 0 <= j < |topIndices| => (labels[topIndices[j]], probas[i][topIndices[j]]));
      results := results + [predictions];
    }
    assert probas[..|probas|] == probas;
  }

  /**
   * Within one row's list the confidences never increase, each entry is a class's label with
   * that class's probability, and a class left out has a probability no higher than any kept.
   */
  lemma RowPredictionsAreTopClasses(labels: seq<string>, proba: seq<real>, topK: nat)
    requires |proba| <= |labels|
    ensures var r := RowPredictions(labels, proba, topK);
      && (forall a, b :: 0 <= a < b < |r| ==> r[a].1 >= r[b].1)
      && (forall a :: 0 <= a < |r| ==> exists c :: 0 <= c < |proba| && r[a] == (labels[c], proba[c]))
      && (forall c, a :: 0 <= c < |proba| && labels[c] !in Labels(r) && 0 <= a < |r| ==> proba[c] <= r[a].1)
  {
    var top := TopK(proba, topK);
    var r := RowPredictions(labels, proba, topK);
    TopKIsTopK(proba, topK);
    forall c, a | 0 <= c < |proba| && labels[c] !in Labels(r) && 0 <= a < |r|
      ensures proba[c] <= r[a].1
    {
      assert c !in top by {
        forall j | 0 <= j < |top| ensures top[j] != c {
          assert Labels(r)[j] == labels[top[j]];
        }
      }
    }
  }

  function Labels(r: seq<Prediction>): (ls: seq<string>)
    ensures |ls| == |r|
  {
    seq(|r|, j requires 0 <= j < |r| => r[j].0)
  }

  /** With a duplicate-free label list, no class appears twice in a row's list. */
  lemma RowPredictionsDistinct(labels: seq<string>, proba: seq<real>, topK: nat)
    requires |proba| <= |labels| && DistinctLabels(labels)
    ensures DistinctLabels(Labels(RowPredictions(labels, proba, topK)))
  {
    TopKIsTopK(proba, topK);
  }

  /** When a row is a probability vector, every reported confidence lies in [0, 1]. */
  lemma ConfidencesAreProbabilities(labels: seq<string>, proba: seq<real>, topK: nat)
    requires |proba| <= |labels|
    requires forall c :: 0 <= c < |proba| ==> 0.0 <= proba[c] <= 1.0
    ensures forall a :: 0 <= a < |RowPredictions(labels, proba, topK)| ==>
      0.0 <= RowPredictions(labels, proba, topK)[a].1 <= 1.0
  {
  }

  /**
   * `batch_predict`: one result per batch, result b holding one list per row of batch b, each
   * computed with the default top-k of 3.
   */
  function BatchPredict(labels: seq<string>, batches: seq<seq<seq<real>>>): (r: seq<seq<seq<Prediction>>>)
    requires forall b :: 0 <= b < |batches| ==> RowsFitLabels(labels, batches[b])
    ensures |r| == |batches|
    ensures forall b :: 0 <= b < |batches| ==> |r[b]| == |batches[b]|
    ensures forall b, i :: 0 <= b < |batches| && 0 <= i < |batches[b]| ==>
      |r[b][i]| == Min(DefaultTopK, |batches[b][i]|)
  {
    seq(|batches|, b requires 0 <= b < |batches| => Predictions(labels, batches[b], DefaultTopK))
  }
}
