/**
 * What the three ML workflow scripts (feature engineering, training, evaluation) share: the
 * datasets they walk through, the rule that turns a success count into the exit status, the
 * skip-on-failure loop over models and the first-best choice among scores.
 */
module Pipeline {
  import opened Wrappers

  /** The datasets each script's `main` processes, in order. */
  const Datasets: seq<string> := ["california_housing", "iris", "wine"]

  /** How many of the outcomes are successes. */
  function Successes(outcomes: seq<bool>): (n: nat)
    ensures n <= |outcomes|
  {
    if |outcomes| == 0 then 0
    else (if outcomes[|outcomes| - 1] then 1 else 0) + Successes(outcomes[..|outcomes| - 1])
  }

  /** No success counts 0 and only successes count all of them. */
  lemma {:induction false} SuccessesExtremes(outcomes: seq<bool>)
    ensures Successes(outcomes) == 0 <==> forall i :: 0 <= i < |outcomes| ==> !outcomes[i]
    ensures Successes(outcomes) == |outcomes| <==> forall i :: 0 <= i < |outcomes| ==> outcomes[i]
    decreases |outcomes|
  {
    if |outcomes| > 0 {
      var init := outcomes[..|outcomes| - 1];
      SuccessesExtremes(init);
      assert forall i :: 0 <= i < |init| ==> init[i] == outcomes[i];
    }
  }

  /** The exit status is 0 exactly when some dataset succeeded. */
  lemma ExitCodeOfOutcomes(outcomes: seq<bool>)
    ensures ExitCode(Successes(outcomes)) == 0 <==> true in outcomes
  {
    SuccessesExtremes(outcomes);
    if true in outcomes {
      var i :| 0 <= i < |outcomes| && outcomes[i];
    }
  }

  /** Counting the outcome of one more dataset. */
  lemma SuccessesStep(outcomes: seq<bool>, i: nat)
    requires i < |outcomes|
    ensures Successes(outcomes[..i + 1]) == Successes(outcomes[..i]) + (if outcomes[i] then 1 else 0)
  {
    assert outcomes[..i + 1][..i] == outcomes[..i];
  }

  /** Exit status 0 when at least one dataset succeeded, 1 otherwise. */
  function ExitCode(successes: nat): (code: int)
    ensures code == 0 || code == 1
    ensures code == 0 <==> successes > 0
  {
    if successes > 0 then 0 else 1
  }

  /** A model name with its score (RMSE or accuracy). */
  datatype Scored = Scored(name: string, score: real)

  function ScoredNames(r: seq<Scored>): (ns: seq<string>)
    ensures |ns| == |r|
  {
    seq(|r|, k requires 0 <= k < |r| => r[k].name)
  }

  function ScoresOf(r: seq<Scored>): (s: seq<real>)
    ensures |s| == |r|
  {
    seq(|r|, k requires 0 <= k < |r| => r[k].score)
  }

  /**
   * The models of a `try: ... except: continue` loop that got through, in order, each with the
   * score `run` produced for it (`None` when it raised).
   */
  function Kept(names: seq<string>, run: string -> Option<real>): (r: seq<Scored>)
    ensures |r| <= |names|
    ensures forall k :: 0 <= k < |r| ==> r[k].name in names && run(r[k].name) == Some(r[k].score)
    decreases |names|
  {
    if |names| == 0 then []
    else
      var rest := Kept(names[..|names| - 1], run);
      var last := names[|names| - 1];
      match run(last)
      case Some(s) => rest + [Scored(last, s)]
      case None => rest
  }

  /** A model is kept exactly when its run succeeded. */
  lemma {:induction false} KeptExactly(names: seq<string>, run: string -> Option<real>)
    ensures forall n :: n in names ==> (n in ScoredNames(Kept(names, run)) <==> run(n).Some?)
    decreases |names|
  {
    if |names| > 0 {
      var init := names[..|names| - 1];
      var last := names[|names| - 1];
      KeptExactly(init, run);
      var rest := Kept(init, run);
      var kept := Kept(names, run);
      assert names == init + [last];
      if run(last).Some? {
        assert kept == rest + [Scored(last, run(last).value)];
        assert ScoredNames(kept) == ScoredNames(rest) + [last];
      } else {
        assert kept == rest;
      }
      forall n | n in names ensures n in ScoredNames(kept) <==> run(n).Some? {
        if n in ScoredNames(kept) {
          var k :| 0 <= k < |kept| && ScoredNames(kept)[k] == n;
        } else if n != last {
          assert n in init;
        }
      }
    }
  }

  /** Every model fails, or none is kept: the loop comes back empty exactly when all runs failed. */
  lemma KeptEmpty(names: seq<string>, run: string -> Option<real>)
    ensures Kept(names, run) == [] <==> forall n :: n in names ==> run(n).None?
  {
    KeptExactly(names, run);
    if Kept(names, run) != [] {
      assert ScoredNames(Kept(names, run))[0] in ScoredNames(Kept(names, run));
    }
  }

  /**
   * `scores[b]` is an extreme score (the least when `minimise`, else the greatest) and every
   * earlier score is strictly worse: the element Python's `min`/`max` with a key return.
   */
  predicate IsFirstBest(scores: seq<real>, b: int, minimise: bool) {
    0 <= b < |scores| &&
    (forall j :: 0 <= j < |scores| ==> if minimise then scores[b] <= scores[j] else scores[j] <= scores[b]) &&
    (forall j :: 0 <= j < b ==> if minimise then scores[b] < scores[j] else scores[j] < scores[b])
  }

  /** Only one position is the first best one. */
  lemma FirstBestUnique(scores: seq<real>, b: int, c: int, minimise: bool)
    requires IsFirstBest(scores, b, minimise) && IsFirstBest(scores, c, minimise)
    ensures b == c
  {
    assert scores[b] == scores[c];
  }

  /**
   * Python's `min` (when `minimise`) or `max` over scores: an extreme score, the first one in
   * order when several are equal.
   */
  function FirstBest(scores: seq<real>, minimise: bool): (b: nat)
    requires |scores| > 0
    ensures IsFirstBest(scores, b, minimise)
  {
    if |scores| == 1 then 0
    else
      var last := |scores| - 1;
      var b := FirstBest(scores[..last], minimise);
      assert scores[..last][b] == scores[b];
      assert forall j :: 0 <= j < last ==> scores[..last][j] == scores[j];
      if (if minimise then scores[last] < scores[b] else scores[b] < scores[last]) then last else b
  }
}
