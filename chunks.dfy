/**
 * Bucketing of the down-mixed samples into about 100 averaged "peaks"
 * (server/src/routes/api/sound.js:66-80).
 *
 * With `L` samples and `size = ceil(L / 100)`, bucket `k` holds the samples
 * `[Boundary(L, k), Boundary(L, k + 1))`. The loop closes a bucket at index `i`
 * when `(i + 1) % size == 0 || i + 1 == L` and divides the bucket's sum by
 * `(i + 1) - prev_i`, where `prev_i` is 0 for the first bucket and afterwards
 * the INDEX of the sample that closed the previous bucket (not that index + 1).
 */
module Chunks {
  import opened Samples

  /** The number of chunks the waveform aims for. */
  const TargetChunks: nat := 100

  // ---------------------------------------------------------------------------
  // Integer division facts

  lemma DivBounds(a: nat, b: nat)
    requires b > 0
    ensures a == (a / b) * b + a % b
    ensures 0 <= a % b < b
    ensures (a / b) * b <= a < (a / b) * b + b
  {
  }

  lemma MulMono(x: int, y: int, b: nat)
    requires x <= y
    ensures x * b <= y * b
  {
    assert y * b - x * b == (y - x) * b;
  }

  lemma DivUnique(a: nat, b: nat, q: int)
    requires b > 0
    requires q * b <= a < q * b + b
    ensures a / b == q
  {
    DivBounds(a, b);
    var q0 := a / b;
    if q0 < q {
      MulMono(q0 + 1, q, b);
    } else if q < q0 {
      MulMono(q + 1, q0, b);
    }
  }

  /** Moving from `a` to `a + 1` bumps the quotient exactly when `a + 1` is a multiple. */
  lemma DivStep(a: nat, b: nat)
    requires b > 0
    ensures (a + 1) / b == a / b + (if (a + 1) % b == 0 then 1 else 0)
  {
    DivBounds(a, b);
    DivBounds(a + 1, b);
    var q := a / b;
    if a % b + 1 < b {
      DivUnique(a + 1, b, q);
    } else {
      DivUnique(a + 1, b, q + 1);
    }
  }

  // ---------------------------------------------------------------------------
  // Sizes

  /** `Math.ceil(length / 100)`. */
  function ChunkSize(length: nat): (size: nat)
    ensures size * TargetChunks >= length
    ensures (size - 1) * TargetChunks < length
  {
    (length + TargetChunks - 1) / TargetChunks
  }

  /** The number of buckets the loop closes: `ceil(length / ChunkSize(length))`. */
  function PeakCount(length: nat): (count: nat)
    ensures length == 0 ==> count == 0
    ensures length > 0 ==> (count - 1) * ChunkSize(length) < length <= count * ChunkSize(length)
  {
    if length == 0 then 0
    else
      var size := ChunkSize(length);
      DivBounds(length - 1, size);
      (length - 1) / size + 1
  }

  /** One past the last sample of the first `k` buckets: `min(k * size, length)`. */
  function Boundary(length: nat, k: nat): (b: nat)
    ensures b <= length
  {
    var end := k * ChunkSize(length);
    if end < length then end else length
  }

  /** The number of samples bucket `k` holds. */
  function BucketLength(length: nat, k: nat): int
  {
    Boundary(length, k + 1) - Boundary(length, k)
  }

  /** The value `prev_i` holds while bucket `k` is open. */
  function PrevBoundary(length: nat, k: nat): int
  {
    if k == 0 then 0 else Boundary(length, k) - 1
  }

  /** The divisor `n = (i + 1) - prev_i` used when bucket `k` is closed at `i + 1 == Boundary(length, k + 1)`. */
  function Divisor(length: nat, k: nat): int
  {
    Boundary(length, k + 1) - PrevBoundary(length, k)
  }

  lemma BucketBounds(length: nat, k: nat)
    requires k < PeakCount(length)
    ensures ChunkSize(length) > 0
    ensures Boundary(length, k) == k * ChunkSize(length)
    ensures Boundary(length, k) < Boundary(length, k + 1)
    ensures Divisor(length, k) >= 1
  {
    MulMono(k, PeakCount(length) - 1, ChunkSize(length));
  }

  /** The sample count of every bucket, and the divisor the loop uses for it. */
  lemma DivisorQuirk(length: nat, k: nat)
    requires k < PeakCount(length)
    ensures k + 1 < PeakCount(length) ==> Boundary(length, k + 1) - Boundary(length, k) == ChunkSize(length)
    ensures k + 1 == PeakCount(length) ==>
              Boundary(length, k + 1) == length && 0 < length - Boundary(length, k) <= ChunkSize(length)
    ensures k == 0 ==> Divisor(length, k) == Boundary(length, k + 1) - Boundary(length, k)
    ensures k > 0 ==> Divisor(length, k) == Boundary(length, k + 1) - Boundary(length, k) + 1
    ensures 0 < k && k + 1 < PeakCount(length) ==> Divisor(length, k) == ChunkSize(length) + 1
  {
    BucketBounds(length, k);
    if k + 1 < PeakCount(length) {
      BucketBounds(length, k + 1);
    }
  }

  /** Every bucket before the last is full. */
  lemma FullBucketLength(length: nat, k: nat)
    requires k + 1 < PeakCount(length)
    ensures BucketLength(length, k) == ChunkSize(length)
  {
    DivisorQuirk(length, k);
  }

  /** At most 100 peaks, at least one for non-empty input. */
  lemma PeakCountBound(length: nat)
    ensures PeakCount(length) <= TargetChunks
    ensures length > 0 ==> PeakCount(length) >= 1
  {
    if length > 0 {
      var size := ChunkSize(length);
      var count := PeakCount(length);
      if count > TargetChunks {
        MulMono(TargetChunks, count - 1, size);
      }
    }
  }

  /** Input of at most 100 samples gives one peak per sample; every peak after the first is halved. */
  lemma ShortInput(length: nat)
    requires 0 < length <= TargetChunks
    ensures ChunkSize(length) == 1
    ensures PeakCount(length) == length
    ensures Divisor(length, 0) == 1
    ensures forall k :: 0 < k < length ==> Divisor(length, k) == 2
  {
    assert ChunkSize(length) == 1;
    forall k | 0 < k < length
      ensures Divisor(length, k) == 2
    {
      DivisorQuirk(length, k);
    }
  }

  /** The count is not always 100: 101 samples give chunks of 2 and only 51 peaks. */
  lemma PeakCountOf101()
    ensures ChunkSize(101) == 2 && PeakCount(101) == 51
  {
  }

  // ---------------------------------------------------------------------------
  // Where buckets close

  /**
   * The loop's test for closing a bucket after sample `i`: it holds exactly
   * at the last sample of the bucket `i` lies in.
   */
  predicate ClosesAt(length: nat, i: nat): (closes: bool)
    requires i < length
    ensures closes <==> i + 1 == Boundary(length, i / ChunkSize(length) + 1)
  {
    ClosesAtBucketEnd(length, i);
    (i + 1) % ChunkSize(length) == 0 || i + 1 == length
  }

  /** How many of the first `n` samples close a bucket, i.e. how many peaks are pushed. */
  function ClosedBefore(length: nat, n: nat): nat
    requires n <= length
  {
    if n == 0 then 0
    else ClosedBefore(length, n - 1) + (if ClosesAt(length, n - 1) then 1 else 0)
  }

  lemma {:induction false} ClosedCount(length: nat, n: nat)
    requires n <= length
    ensures n < length ==> ClosedBefore(length, n) == n / ChunkSize(length)
    ensures n == length ==> ClosedBefore(length, n) == PeakCount(length)
  {
    if n > 0 {
      ClosedCount(length, n - 1);
      DivStep(n - 1, ChunkSize(length));
    }
  }

  /** Sample `i` lies in bucket `i / size`. */
  lemma BucketOfSample(length: nat, i: nat)
    requires i < length
    ensures ChunkSize(length) > 0
    ensures i / ChunkSize(length) < PeakCount(length)
    ensures Boundary(length, i / ChunkSize(length)) <= i < Boundary(length, i / ChunkSize(length) + 1)
  {
    var size := ChunkSize(length);
    var k := i / size;
    DivBounds(i, size);
    if k >= PeakCount(length) {
      MulMono(PeakCount(length), k, size);
    }
    BucketBounds(length, k);
  }

  /** ... and in no other bucket. */
  lemma SampleInOneBucket(length: nat, i: nat, j: nat)
    requires i < length
    requires j < PeakCount(length) && Boundary(length, j) <= i < Boundary(length, j + 1)
    ensures j == i / ChunkSize(length)
  {
    BucketBounds(length, j);
    DivUnique(i, ChunkSize(length), j);
  }

  /** Sample `i` closes a bucket exactly when it is the last sample of its bucket. */
  lemma ClosesAtBucketEnd(length: nat, i: nat)
    requires i < length
    ensures ChunkSize(length) > 0
    ensures (i + 1) % ChunkSize(length) == 0 || i + 1 == length <==>
              i + 1 == Boundary(length, i / ChunkSize(length) + 1)
  {
    var size := ChunkSize(length);
    DivBounds(i, size);
    DivBounds(i + 1, size);
    DivStep(i, size);
    BucketOfSample(length, i);
  }

  /** Before sample `i` is added, the open bucket starts at or before `i`. */
  lemma OpenBucket(length: nat, i: nat)
    requires i < length
    ensures ClosedBefore(length, i) < PeakCount(length)
    ensures Boundary(length, ClosedBefore(length, i)) <= i
  {
    ClosedCount(length, i);
    BucketOfSample(length, i);
  }

  /**
   * Closing the open bucket `k` after sample `i`: the value pushed is
   * `Peak(xs, k)`, and the next bucket starts empty right after `i`.
   */
  lemma CloseStep(xs: seq<real>, i: nat, acc: real)
    requires i < |xs| && ClosesAt(|xs|, i)
    requires ClosedBefore(|xs|, i) < PeakCount(|xs|)
    requires Boundary(|xs|, ClosedBefore(|xs|, i)) <= i
    requires acc == Sum(xs[Boundary(|xs|, ClosedBefore(|xs|, i))..i + 1])
    ensures var k := ClosedBefore(|xs|, i);
            && ClosedBefore(|xs|, i + 1) == k + 1
            && Boundary(|xs|, k + 1) == i + 1
            && PrevBoundary(|xs|, k + 1) == i
            && i + 1 - PrevBoundary(|xs|, k) >= 1
            && Average(acc, i + 1 - PrevBoundary(|xs|, k)) == Peak(xs, k)
  {
    var k := ClosedBefore(|xs|, i);
    ClosedCount(|xs|, i);
    BucketBounds(|xs|, k);
  }

  /** Not closing after sample `i` leaves the open bucket open. */
  lemma KeepStep(length: nat, i: nat)
    requires i < length && !ClosesAt(length, i)
    ensures ClosedBefore(length, i + 1) == ClosedBefore(length, i)
  {
  }

  // ---------------------------------------------------------------------------
  // The peaks

  /** The value pushed for bucket `k`: the bucket's sum over the loop's divisor. */
  function Peak(xs: seq<real>, k: nat): real
    requires k < PeakCount(|xs|)
  {
    BucketBounds(|xs|, k);
    Average(Sum(xs[Boundary(|xs|, k)..Boundary(|xs|, k + 1)]), Divisor(|xs|, k))
  }

  /** Reference definition of the `peaks` array. */
  function Peaks(xs: seq<real>): seq<real>
  {
    seq(PeakCount(|xs|), k requires 0 <= k < PeakCount(|xs|) => Peak(xs, k))
  }

  /** The bucketing loop of `calculateWave`. */
  method ChunkPeaks(normalized: seq<real>) returns (peaks: seq<real>)
    ensures peaks == Peaks(normalized)
  {
    var length := |normalized|;
    var chunkSize := ChunkSize(length);
    peaks := [];
    var acc := 0.0;
    var prevI := 0;
    for i := 0 to length
      invariant |peaks| == ClosedBefore(length, i) <= PeakCount(length)
      invariant Boundary(length, |peaks|) <= i
      invariant acc == Sum(normalized[Boundary(length, |peaks|)..i])
      invariant prevI == PrevBoundary(length, |peaks|)
      invariant forall k :: 0 <= k < |peaks| ==> peaks[k] == Peak(normalized, k)
    {
      OpenBucket(length, i);
      SumExtend(normalized, Boundary(length, |peaks|), i);
      acc := acc + normalized[i];
      if (i + 1) % chunkSize == 0 || i + 1 == length {
        CloseStep(normalized, i, acc);
        var n := (i + 1) - prevI;
        assert acc / (n as real) == Peak(normalized, |peaks|);
        peaks := peaks + [acc / (n as real)];
        prevI := i;
        acc := 0.0;
        assert normalized[i + 1..i + 1] == [];
      } else {
        KeepStep(length, i);
      }
    }
    ClosedCount(length, length);
  }

  // ---------------------------------------------------------------------------
  // Properties of the peaks

  lemma PeaksNonNegative(xs: seq<real>)
    requires AllNonNegative(xs)
    ensures AllNonNegative(Peaks(xs))
  {
    forall k | 0 <= k < PeakCount(|xs|)
      ensures Peaks(xs)[k] >= 0.0
    {
      BucketBounds(|xs|, k);
      var bucket := xs[Boundary(|xs|, k)..Boundary(|xs|, k + 1)];
      SumNonNegative(bucket);
      var d := Divisor(|xs|, k) as real;
      assert Sum(bucket) / d >= 0.0;
      assert Peaks(xs)[k] == Peak(xs, k) == Sum(bucket) / d;
    }
  }

  /** Each peak multiplied back by the divisor it was divided by. */
  function Undivided(xs: seq<real>): seq<real>
  {
    seq(PeakCount(|xs|), k requires 0 <= k < PeakCount(|xs|) => Peaks(xs)[k] * (Divisor(|xs|, k) as real))
  }

  lemma UndividedBucket(xs: seq<real>, k: nat)
    requires k < PeakCount(|xs|)
    ensures Undivided(xs)[k] == Sum(xs[Boundary(|xs|, k)..Boundary(|xs|, k + 1)])
  {
    BucketBounds(|xs|, k);
    UndoDivision(Sum(xs[Boundary(|xs|, k)..Boundary(|xs|, k + 1)]), Divisor(|xs|, k) as real);
  }

  lemma {:induction false} UndividedPrefix(xs: seq<real>, k: nat)
    requires k <= PeakCount(|xs|)
    ensures Sum(Undivided(xs)[..k]) == Sum(xs[..Boundary(|xs|, k)])
  {
    if k > 0 {
      var us := Undivided(xs);
      BucketBounds(|xs|, k - 1);
      assert us[..k][..k - 1] == us[..k - 1];
      UndividedBucket(xs, k - 1);
      UndividedPrefix(xs, k - 1);
      SumSplit(xs, Boundary(|xs|, k - 1), Boundary(|xs|, k));
    }
  }

  /**
   * Every sample is summed into exactly one bucket: multiplying each peak back
   * by its divisor and adding up recovers the sum of all samples.
   */
  lemma PeaksConserveSum(xs: seq<real>)
    ensures |Undivided(xs)| == |Peaks(xs)|
    ensures Sum(Undivided(xs)) == Sum(xs)
  {
    var us := Undivided(xs);
    UndividedPrefix(xs, |us|);
    assert us[..|us|] == us;
    assert xs[..Boundary(|xs|, |us|)] == xs;
  }

  /** On constant input `v` the first bucket yields `v`. */
  lemma FirstConstantPeak(xs: seq<real>, v: real)
    requires forall i :: 0 <= i < |xs| ==> xs[i] == v
    requires 0 < PeakCount(|xs|)
    ensures Peaks(xs)[0] == v
  {
    DivisorQuirk(|xs|, 0);
    BucketBounds(|xs|, 0);
    var bucket := xs[Boundary(|xs|, 0)..Boundary(|xs|, 1)];
    assert Peaks(xs)[0] == Sum(bucket) / (Divisor(|xs|, 0) as real);
    MeanOfConstant(bucket, v, Divisor(|xs|, 0));
  }

  /**
   * On constant input `v` every later bucket, the last one included, yields
   * `v * m / (m + 1)` for the `m` samples it holds.
   */
  lemma LaterConstantPeak(xs: seq<real>, v: real, k: nat, m: int)
    requires forall i :: 0 <= i < |xs| ==> xs[i] == v
    requires 0 < k < PeakCount(|xs|)
    requires m == BucketLength(|xs|, k)
    ensures Peaks(xs)[k] == v * (m as real) / ((m + 1) as real)
  {
    DivisorQuirk(|xs|, k);
    BucketBounds(|xs|, k);
    var bucket := xs[Boundary(|xs|, k)..Boundary(|xs|, k + 1)];
    assert Peaks(xs)[k] == Sum(bucket) / (Divisor(|xs|, k) as real);
    OverCountedConstant(bucket, v, m, Divisor(|xs|, k));
  }

  /** On constant input `v` every full later bucket yields `v * size / (size + 1)`. */
  lemma FullConstantPeak(xs: seq<real>, v: real, k: nat)
    requires forall i :: 0 <= i < |xs| ==> xs[i] == v
    requires 0 < k && k + 1 < PeakCount(|xs|)
    ensures Peaks(xs)[k] == v * (ChunkSize(|xs|) as real) / ((ChunkSize(|xs|) + 1) as real)
  {
    FullBucketLength(|xs|, k);
    LaterConstantPeak(xs, v, k, ChunkSize(|xs|));
  }

  /** 1000 samples of 0.5: 100 peaks, the first 0.5, the second and the last 5/11 rather than 0.5. */
  lemma ThousandHalfSamples()
    ensures var xs := seq(1000, _ => 0.5);
            && |Peaks(xs)| == 100 && Peaks(xs)[0] == 0.5
            && Peaks(xs)[1] == 5.0 / 11.0 && Peaks(xs)[99] == 5.0 / 11.0
  {
    var xs := seq(1000, _ => 0.5);
    assert ChunkSize(1000) == 10;
    FirstConstantPeak(xs, 0.5);
    FullConstantPeak(xs, 0.5, 1);
    LaterConstantPeak(xs, 0.5, 99, 10);
  }
}
