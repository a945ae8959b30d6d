/**
 * The network helpers of pkg/network/detector.go: the compression bands, the chunked
 * transfer loop and the human-readable size and rate units. Go's `float64` is modelled
 * as `real`; the random latency, bandwidth and health probes are not part of this model.
 */
module NetworkDetector {
  import opened GoInts
  import opened Wrappers
  import Decimal

  /**
   * What a formatter prints: an exact text, or a quantity printed with `%.1f`
   * followed by a space and a unit. The `%.1f` digits themselves are not modelled.
   */
  datatype Rendered = Exact(text: string) | Approx(value: real, unit: string)

  /** `ShouldCompress`: whether to compress, and with which algorithm, for a bandwidth in Mbps. */
  function ShouldCompress(bandwidthMbps: real): (r: (bool, string))
    ensures r.0 <==> bandwidthMbps <= 100.0
    ensures r.0 <==> r.1 != "none"
    ensures r.1 == "zstd" <==> bandwidthMbps <= 50.0
    ensures r.1 == "gzip" <==> 50.0 < bandwidthMbps <= 100.0
  {
    if bandwidthMbps > 100.0 then (false, "none")
    else if bandwidthMbps > 50.0 then (true, "gzip")
    else (true, "zstd")
  }

  // ---------------------------------------------------------------------------
  // FormatBytes

  const ByteUnit: int := 1024
  /** Unit prefixes, indexed by how many times 1024 divides into the size beyond the first. */
  const UnitPrefixes: string := "KMGTPE"

  function Pow(b: nat, e: nat): (p: nat)
    ensures b >= 1 ==> p >= 1
  {
    if e == 0 then 1 else b * Pow(b, e - 1)
  }

  /** The prefix `UnitPrefixes[e]` is right for `x` when 1024^(e+1) <= x < 1024^(e+2). */
  predicate Brackets(x: int, e: nat) {
    Pow(ByteUnit, e + 1) <= x < Pow(ByteUnit, e + 2)
  }

  lemma {:induction false} PowMonotone(b: nat, i: nat, j: nat)
    requires b >= 1 && i <= j
    ensures Pow(b, i) <= Pow(b, j)
  {
    if i < j {
      PowMonotone(b, i, j - 1);
      MulMonotone(1, b, Pow(b, j - 1));
    }
  }

  /** At most one unit brackets a size, so the unit FormatBytes picks is determined by the size. */
  lemma BracketsUnique(x: int, e1: nat, e2: nat)
    requires Brackets(x, e1) && Brackets(x, e2)
    ensures e1 == e2
  {
    if e1 < e2 {
      PowMonotone(ByteUnit, e1 + 2, e2 + 1);
    } else if e2 < e1 {
      PowMonotone(ByteUnit, e2 + 2, e1 + 1);
    }
  }

  lemma DivUnique(a: int, m: int, q: int, r: int)
    requires m > 0 && 0 <= r < m && a == q * m + r
    ensures a / m == q
  {
    var q0, r0 := a / m, a % m;
    assert a == q0 * m + r0;
    if q0 > q {
      MulAtLeast(q0 - q, m);
    } else if q0 < q {
      MulAtLeast(q - q0, m);
    }
  }

  lemma MulAtLeast(k: int, m: int)
    requires k >= 1 && m > 0
    ensures k * m >= m
  {
    assert k * m == (k - 1) * m + m;
  }

  lemma MulDistributes(x: int, y: int, m: int)
    ensures (x + y) * m == x * m + y * m
  {
  }

  lemma MulAssociates(x: int, y: int, z: int)
    ensures x * y * z == x * (z * y)
  {
  }

  lemma MulMonotone(x: int, y: int, m: nat)
    requires x <= y
    ensures x * m <= y * m
  {
  }

  /** Dividing twice is dividing once by the product: the step `n /= unit` keeps `n == bytes / div`. */
  lemma DivDiv(a: nat, b: nat, c: nat)
    requires b > 0 && c > 0
    ensures a / b / c == a / (b * c)
  {
    var q, r := a / b, a % b;
    var q2, r2 := q / c, q % c;
    assert a == q * b + r;
    assert q == q2 * c + r2;
    assert q * b == q2 * (b * c) + r2 * b by {
      MulDistributes(q2 * c, r2, b);
      MulAssociates(q2, c, b);
    }
    assert r2 * b + r < b * c by {
      MulMonotone(r2, c - 1, b);
      MulDistributes(c, -1, b);
    }
    DivUnique(a, b * c, q2, r2 * b + r);
  }

  lemma QuotientBound(a: nat, d: nat, q: nat)
    requires d > 0 && a / d >= q
    ensures a >= q * d
  {
    assert a == (a / d) * d + a % d;
    assert (a / d) * d >= q * d;
  }

  /**
   * One step of the scaling loop: when at least 1024 units of 1024^(e+1) remain, the next
   * power still fits in an `int64`, the prefix index stays in range, and the quotient moves on.
   */
  lemma ScaleStep(x: nat, e: nat)
    requires x < 0x8000_0000_0000_0000 && e <= 5
    requires x / Pow(ByteUnit, e + 1) >= 1024
    ensures e < 5
    ensures Pow(ByteUnit, e + 2) == Pow(ByteUnit, e + 1) * 1024 <= x
    ensures x / Pow(ByteUnit, e + 1) / 1024 == x / Pow(ByteUnit, e + 2)
  {
    assert Pow(ByteUnit, e + 2) == Pow(ByteUnit, e + 1) * 1024;
    QuotientBound(x, Pow(ByteUnit, e + 1), 1024);
    DivDiv(x, Pow(ByteUnit, e + 1), 1024);
    assert Pow(1024, 7) > 0x8000_0000_0000_0000;
  }

  /** When the loop stops, the power reached brackets the size. */
  lemma LastScale(x: nat, e: nat)
    requires 1 <= x / Pow(ByteUnit, e + 1) < 1024
    ensures Brackets(x, e)
  {
    var d := Pow(ByteUnit, e + 1);
    QuotientBound(x, d, 1);
    assert x == (x / d) * d + x % d;
    MulMonotone(x / d, 1023, d);
    assert Pow(ByteUnit, e + 2) == 1024 * d;
  }

  /**
   * `FormatBytes`: a size under 1024, negatives included, is printed exactly as `%d B`;
   * any larger `int64` size is divided by the one power 1024^(e+1) that brackets it, and
   * e is a valid index into "KMGTPE" (the scaling divisor never overflows `int64`).
   */
  method FormatBytes(bytes: int64) returns (r: Rendered)
    ensures bytes < 1024 ==> r == Exact(Decimal.IntString(bytes as int) + " B")
    ensures bytes >= 1024 ==>
      exists e: nat :: e < |UnitPrefixes| && Brackets(bytes as int, e) &&
        r == Approx((bytes as real) / (Pow(ByteUnit, e + 1) as real), [UnitPrefixes[e], 'B'])
  {
    if bytes < 1024 {
      return Exact(Decimal.IntString(bytes as int) + " B");
    }
    var div: int64, exp: nat := 1024, 0;
    var n: int64 := bytes / 1024;
    while n >= 1024
      invariant exp <= 5
      invariant div as int == Pow(ByteUnit, exp + 1)
      invariant n as int == (bytes as int) / (div as int)
      invariant n >= 1
    {
      ScaleStep(bytes as int, exp);
      div := div * 1024;
      exp := exp + 1;
      n := n / 1024;
    }
    LastScale(bytes as int, exp);
    r := Approx((bytes as real) / (div as real), [UnitPrefixes[exp], 'B']);
  }

  // ---------------------------------------------------------------------------
  // SimulateTransfer

  const ChunkSize: int := 1024 * 1024

  function Min(a: int, b: int): int {
    if a <= b then a else b
  }

  /** The number of 1 MiB chunks a transfer of `size` bytes takes: ceil(size / 1 MiB). */
  function ChunkCount(size: int): nat {
    if size <= 0 then 0 else (size + ChunkSize - 1) / ChunkSize
  }

  /** The progress reported after each chunk: i+1 whole chunks, capped at the size. */
  function ProgressTrace(size: int, count: nat): (t: seq<int>)
    ensures |t| == count
  {
    seq(count, i requires 0 <= i < count => Min((i + 1) * ChunkSize, size))
  }

  lemma ChunkCountExact(size: int, c: nat)
    requires size > 0 && (c - 1) * ChunkSize < size <= c * ChunkSize
    ensures ChunkCount(size) == c
  {
    DivUnique(size + ChunkSize - 1, ChunkSize, c, size + ChunkSize - 1 - c * ChunkSize);
  }

  /**
   * `SimulateTransfer` with the callback `onProgress` observed: `progress` lists the values
   * the callback receives (nothing when the callback is nil), in order. They are i+1 chunks
   * capped at the size, one per chunk, so a positive size gives ceil(size / 1 MiB) callbacks
   * ending at the size itself, and a size <= 0 gives none. The function always returns nil.
   */
  method SimulateTransfer(sizeBytes: int64, hasCallback: bool) returns (progress: seq<int>, err: Option<string>)
    ensures err == None
    ensures progress == if hasCallback then ProgressTrace(sizeBytes as int, ChunkCount(sizeBytes as int)) else []
  {
    var transferred: int := 0;
    ghost var chunks: nat := 0;
    progress := [];
    while transferred < sizeBytes as int
      invariant sizeBytes <= 0 ==> chunks == 0
      invariant transferred == if chunks == 0 then 0 else Min(chunks * ChunkSize, sizeBytes as int)
      invariant sizeBytes > 0 ==> (chunks - 1) * ChunkSize < sizeBytes as int
      invariant progress == if hasCallback then ProgressTrace(sizeBytes as int, chunks) else []
      decreases sizeBytes as int - transferred
    {
      transferred := transferred + ChunkSize;
      if transferred > sizeBytes as int {
        transferred := sizeBytes as int;
      }
      chunks := chunks + 1;
      if hasCallback {
        progress := progress + [transferred];
      }
    }
    if sizeBytes > 0 {
      ChunkCountExact(sizeBytes as int, chunks);
    }
    err := None;
  }

  /**
   * The progress trace rises strictly, never passes the size, and ends exactly at it.
   */
  lemma {:induction false} ProgressTraceShape(size: int)
    requires size > 0
    ensures var t := ProgressTrace(size, ChunkCount(size));
      && |t| >= 1
      && t[|t| - 1] == size
      && (forall i :: 0 <= i < |t| ==> 0 < t[i] <= size)
      && (forall i, j :: 0 <= i < j < |t| ==> t[i] < t[j])
  {
    var c := ChunkCount(size);
    var t := ProgressTrace(size, c);
    assert (c - 1) * ChunkSize < size <= c * ChunkSize by {
      var m := size + ChunkSize - 1;
      assert m == (m / ChunkSize) * ChunkSize + m % ChunkSize;
    }
    assert c >= 1;
    forall i, j | 0 <= i < j < |t|
      ensures t[i] < t[j]
    {
      assert (i + 1) * ChunkSize <= (c - 1) * ChunkSize;
    }
  }

  /**
   * The Go loop's step as written: `transferred += chunkSize` wraps around in `int64`
   * before the cap is applied.
   */
  function TransferStepAsWritten(transferred: int64, sizeBytes: int64): int {
    var next := Wrap64(transferred as int + ChunkSize);
    if next > sizeBytes as int then sizeBytes as int else next
  }

  /**
   * For the largest `int64` size the loop reaches 2^63 - 2^20 (a value of the intended trace),
   * and the next step wraps to -2^63: a negative progress value, after which the loop
   * climbs back up and wraps again without end.
   */
  lemma TransferStepAsWrittenWraps()
    ensures var size := Int64Max;
      var reached := Int64Max + 1 - ChunkSize;
      && ProgressTrace(size, ChunkCount(size))[ChunkCount(size) - 2] == reached
      && TransferStepAsWritten(reached as int64, size as int64) == Int64Min
  {
    var size := Int64Max;
    assert ChunkCount(size) == 0x800_0000_0000 by {
      ChunkCountExact(size, 0x800_0000_0000);
    }
  }

  // ---------------------------------------------------------------------------
  // FormatBandwidth

  /** How many Mbps one unit of a bandwidth unit stands for. */
  function MbpsPerUnit(unit: string): real {
    if unit == "Gbps" then 1000.0 else 1.0
  }

  /**
   * `FormatBandwidth`: Gbps exactly when the rate is at least 1000 Mbps, else Mbps; the printed
   * quantity times its unit gives back the rate.
   */
  function FormatBandwidth(mbps: real): (r: Rendered)
    ensures r.Approx?
    ensures r.unit == "Gbps" <==> mbps >= 1000.0
    ensures r.unit == "Gbps" || r.unit == "Mbps"
    ensures r.value * MbpsPerUnit(r.unit) == mbps
  {
    if mbps >= 1000.0 then Approx(mbps / 1000.0, "Gbps") else Approx(mbps, "Mbps")
  }
}
