/**
 * The cache helpers of pkg/cache/utils.go. File hashing is left to a parameter standing for
 * `ComputeChecksum` (SHA-256 over a file's bytes), and the clock reading of `time.Since` is
 * passed in as `now`. Instants and durations are integers of nanoseconds.
 */
module CacheUtils {
  import opened GoInts
  import opened Wrappers

  // ---------------------------------------------------------------------------
  // CacheKey

  /** `CacheKey`: the three parts joined by '/'. */
  function CacheKey(service: string, version: string, platform: string): (key: string)
    ensures |key| == |service| + |version| + |platform| + 2
    ensures key[..|service|] == service && key[|service|] == '/'
    ensures key[|service| + 1..|service| + 1 + |version|] == version
    ensures key[|service| + 1 + |version|] == '/'
    ensures key[|key| - |platform|..] == platform
  {
    service + "/" + version + "/" + platform
  }

  /** The position of the first '/' in `s`, or `|s|` when there is none. */
  function FirstSeparator(s: string): (i: nat)
    ensures i <= |s|
  {
    if s == [] || s[0] == '/' then 0 else 1 + FirstSeparator(s[1..])
  }

  lemma {:induction false} FirstSeparatorAfter(a: string, b: string)
    requires '/' !in a
    ensures FirstSeparator(a + "/" + b) == |a|
  {
    if a != [] {
      assert (a + "/" + b)[1..] == a[1..] + "/" + b;
      FirstSeparatorAfter(a[1..], b);
    }
  }

  lemma SplitAtSeparator(a: string, b: string, c: string, d: string)
    requires '/' !in a && '/' !in c
    requires a + "/" + b == c + "/" + d
    ensures a == c && b == d
  {
    var x := a + "/" + b;
    FirstSeparatorAfter(a, b);
    FirstSeparatorAfter(c, d);
    assert a == x[..|a|] && c == x[..|c|];
    assert b == x[|a| + 1..] && d == x[|c| + 1..];
  }

  /**
   * Keys of parts that contain no '/' identify their parts: two artifacts share a key only
   * when service, version and platform all agree.
   */
  lemma CacheKeyInjective(s1: string, v1: string, p1: string, s2: string, v2: string, p2: string)
    requires '/' !in s1 && '/' !in v1 && '/' !in s2 && '/' !in v2
    requires CacheKey(s1, v1, p1) == CacheKey(s2, v2, p2)
    ensures s1 == s2 && v1 == v2 && p1 == p2
  {
    assert CacheKey(s1, v1, p1) == s1 + "/" + (v1 + "/" + p1);
    assert CacheKey(s2, v2, p2) == s2 + "/" + (v2 + "/" + p2);
    SplitAtSeparator(s1, v1 + "/" + p1, s2, v2 + "/" + p2);
    SplitAtSeparator(v1, p1, v2, p2);
  }

  // ---------------------------------------------------------------------------
  // CompressRatio and SavingsPercent

  /** `CompressRatio`: compressed over original size, and 0 for an empty original. */
  function CompressRatio(originalSize: int64, compressedSize: int64): (ratio: real)
    ensures originalSize == 0 ==> ratio == 0.0
    ensures originalSize != 0 ==> ratio * (originalSize as real) == compressedSize as real
  {
    if originalSize == 0 then 0.0 else (compressedSize as real) / (originalSize as real)
  }

  /**
   * `SavingsPercent`: 0 for an empty original; otherwise the percentage that, with the
   * ratio as a percentage, makes up 100, so equal sizes save nothing.
   */
  function SavingsPercent(originalSize: int64, compressedSize: int64): (percent: real)
    ensures originalSize == 0 ==> percent == 0.0
    ensures originalSize != 0 ==> percent + CompressRatio(originalSize, compressedSize) * 100.0 == 100.0
    ensures originalSize == compressedSize ==> percent == 0.0
  {
    if originalSize == 0 then 0.0
    else
      EqualSizesRatio(originalSize, compressedSize);
      (1.0 - CompressRatio(originalSize, compressedSize)) * 100.0
  }

  /** Equal, non-zero sizes have ratio 1. */
  lemma EqualSizesRatio(originalSize: int64, compressedSize: int64)
    requires originalSize != 0
    ensures originalSize == compressedSize ==> CompressRatio(originalSize, compressedSize) == 1.0
  {
    var o := originalSize as real;
    assert o / o == 1.0;
  }

  /** A compressed size between 0 and a positive original size saves between 0 and 100 percent. */
  lemma SavingsPercentBounds(originalSize: int64, compressedSize: int64)
    requires 0 < originalSize && 0 <= compressedSize <= originalSize
    ensures 0.0 <= SavingsPercent(originalSize, compressedSize) <= 100.0
  {
    var ratio := CompressRatio(originalSize, compressedSize);
    assert ratio == (compressedSize as real) / (originalSize as real);
  }

  // ---------------------------------------------------------------------------
  // VerifyChecksum

  /**
   * `VerifyChecksum`: `(false, err)` when the checksum cannot be computed, else whether it
   * equals the expected one, with no error. So it reports a match exactly when the file's
   * checksum is computed and equal to the expected one.
   */
  function VerifyChecksum(computeChecksum: string -> Result<string, string>, filePath: string, expectedChecksum: string): (r: (bool, Option<string>))
    ensures computeChecksum(filePath).Failure? ==> r == (false, Some(computeChecksum(filePath).error))
    ensures computeChecksum(filePath).Success? ==> r.1 == None
    ensures r.0 <==> computeChecksum(filePath) == Success(expectedChecksum)
  {
    match computeChecksum(filePath)
    case Failure(err) => (false, Some(err))
    case Success(actual) => (actual == expectedChecksum, None)
  }

  // ---------------------------------------------------------------------------
  // IsExpired

  /**
   * `IsExpired`: the age `time.Since(timestamp)` (a `Duration`, saturating at the `int64`
   * bounds) exceeds the ttl. An expired entry is always older than its ttl; while the age fits
   * a `Duration` the test is exact, so an entry exactly ttl old is not expired.
   */
  function IsExpired(timestamp: int, ttl: int64, now: int): (expired: bool)
    ensures expired ==> now - timestamp > ttl as int
    ensures Int64Min <= now - timestamp <= Int64Max ==> (expired <==> now - timestamp > ttl as int)
  {
    Saturate64(now - timestamp) > ttl as int
  }

  /** Once expired, an entry stays expired as the clock moves on. */
  lemma ExpiryIsPermanent(timestamp: int, ttl: int64, now: int, later: int)
    requires now <= later && IsExpired(timestamp, ttl, now)
    ensures IsExpired(timestamp, ttl, later)
  {
  }
}
