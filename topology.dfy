/**
 * The primary-cache choice in `networkTopologyHandler` (cmd/api/main.go): every region is
 * scored in place, and the first healthy region with the lowest score below 1000 becomes the
 * primary cache. The score formula (`CalculateScore`, floating point) is a parameter; the probes
 * that fill in latency, bandwidth and health, and the JSON response, are not part of this model.
 */
module Topology {
  import opened Wrappers

  /** `models.RegionInfo`. */
  datatype Region = Region(name: string, endpoint: string, latencyMs: int, bandwidthMbps: real, score: real, healthy: bool)

  /** The initial `bestScore`: a region must score below it to be chosen. */
  const ScoreCeiling: real := 1000.0

  /** The fallback list the handler reports, whatever the primary. */
  const FallbackCaches: seq<string> := ["us-west", "eu-central"]

  function Scored(r: Region, calculateScore: (int, real) -> real): Region {
    r.(score := calculateScore(r.latencyMs, r.bandwidthMbps))
  }

  /** The score to beat after a prefix of the loop: the chosen region's, or the ceiling. */
  function BestScore(rs: seq<Region>, choice: Option<nat>): real
    requires choice.Some? ==> choice.value < |rs|
  {
    match choice
    case None => ScoreCeiling
    case Some(k) => rs[k].score
  }

  /** The index the loop has chosen after visiting `rs` in order, if any. */
  function Leader(rs: seq<Region>): (choice: Option<nat>)
    ensures choice.Some? ==> choice.value < |rs|
  {
    if rs == [] then None
    else
      var prev := Leader(rs[..|rs| - 1]);
      var last := rs[|rs| - 1];
      if last.healthy && last.score < BestScore(rs, prev) then Some(|rs| - 1) else prev
  }

  /** The `primaryCache` string: the chosen region's name, or "" when none is chosen. */
  function PrimaryCache(rs: seq<Region>): string {
    match Leader(rs)
    case None => ""
    case Some(k) => rs[k].name
  }

  /**
   * Reference definition of the primary region: healthy, scoring below 1000, scoring no more
   * than any healthy region, and strictly less than every healthy region listed before it.
   */
  ghost predicate IsPrimary(rs: seq<Region>, k: int) {
    && 0 <= k < |rs|
    && rs[k].healthy
    && rs[k].score < ScoreCeiling
    && (forall j :: 0 <= j < |rs| && rs[j].healthy ==> rs[k].score <= rs[j].score)
    && (forall j :: 0 <= j < k && rs[j].healthy ==> rs[j].score > rs[k].score)
  }

  /**
   * The loop picks the primary region of the reference definition, and picks none exactly
   * when no healthy region scores below 1000.
   */
  lemma {:induction false} LeaderIsPrimary(rs: seq<Region>)
    ensures Leader(rs).Some? ==> IsPrimary(rs, Leader(rs).value)
    ensures Leader(rs).None? <==> forall j :: 0 <= j < |rs| && rs[j].healthy ==> rs[j].score >= ScoreCeiling
  {
    if rs != [] {
      var n := |rs|;
      var p := rs[..n - 1];
      LeaderIsPrimary(p);
      assert forall j :: 0 <= j < n - 1 ==> rs[j] == p[j];
    }
  }

  /** The reference definition admits at most one region, so it pins down the choice. */
  lemma IsPrimaryUnique(rs: seq<Region>, k1: int, k2: int)
    requires IsPrimary(rs, k1) && IsPrimary(rs, k2)
    ensures k1 == k2
  {
  }

  /** A non-empty primary cache names a healthy region that meets the reference definition. */
  lemma PrimaryCacheIsHealthy(rs: seq<Region>)
    requires PrimaryCache(rs) != ""
    ensures exists k :: IsPrimary(rs, k) && rs[k].name == PrimaryCache(rs)
  {
    LeaderIsPrimary(rs);
  }

  /**
   * The selection loop of `networkTopologyHandler`: every region's score is written in place,
   * the primary cache is the one the loop chooses, and the fallbacks are the fixed pair.
   */
  method DetectTopology(regions: array<Region>, calculateScore: (int, real) -> real)
    returns (primaryCache: string, fallbackCaches: seq<string>)
    modifies regions
    ensures forall i :: 0 <= i < regions.Length ==> regions[i] == Scored(old(regions[i]), calculateScore)
    ensures primaryCache == PrimaryCache(regions[..])
    ensures fallbackCaches == FallbackCaches
  {
    primaryCache := "";
    var bestScore := ScoreCeiling;
    ghost var choice: Option<nat> := None;
    for i := 0 to regions.Length
      invariant forall j :: 0 <= j < i ==> regions[j] == Scored(old(regions[j]), calculateScore)
      invariant forall j :: i <= j < regions.Length ==> regions[j] == old(regions[j])
      invariant choice == Leader(regions[..i])
      invariant choice.Some? ==> choice.value < i
      invariant bestScore == BestScore(regions[..i], choice)
      invariant primaryCache == match choice case None => "" case Some(k) => regions[k].name
    {
      regions[i] := Scored(regions[i], calculateScore);
      assert regions[..i + 1][..i] == regions[..i];
      if regions[i].healthy && regions[i].score < bestScore {
        bestScore := regions[i].score;
        primaryCache := regions[i].name;
        choice := Some(i);
      }
    }
    assert regions[..regions.Length] == regions[..];
    fallbackCaches := FallbackCaches;
  }
}
