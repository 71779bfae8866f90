/**
 The latency histogram of `UpdateTelemetry` in src/main.rs: samples fall into power-of-two buckets, and reading the
 percentiles drains them. The reference is the nearest-rank percentile of the samples themselves.
 */
module Telemetry {
  const U32_MAX: nat := 0xFFFF_FFFF
  const U64_MAX: nat := 0xFFFF_FFFF_FFFF_FFFF
  const BUCKETS: nat := 32

  function Pow2(n: nat): (p: nat)
    ensures p > 0
  {
    if n == 0 then 1 else 2 * Pow2(n - 1)
  }

  /** How many bits a number needs. */
  function BitLength(n: nat): nat {
    if n == 0 then 0 else 1 + BitLength(n / 2)
  }

  lemma {:induction false} BitLengthBounds(n: nat)
    requires n > 0
    ensures BitLength(n) > 0 && Pow2(BitLength(n) - 1) <= n < Pow2(BitLength(n))
  {
    if n > 1 {
      BitLengthBounds(n / 2);
    }
  }

  lemma {:induction false} Pow2Grows(a: nat, b: nat)
    requires a <= b
    ensures Pow2(a) <= Pow2(b)
    decreases b
  {
    if a < b {
      Pow2Grows(a, b - 1);
    }
  }

  function Bucket(micros: nat): (bucket: nat) {
    var capped := if micros < U32_MAX then micros else U32_MAX;
    var bits := BitLength(if capped > 1 then capped else 1);
    if bits < BUCKETS - 1 then bits else BUCKETS - 1
  }

  function Clamped(micros: nat): nat {
    if micros > 1 then micros else 1
  }

  /** What a bucket holds: below the top one, the numbers from half its power of two up to just below it. */
  lemma {:induction false} BucketBounds(micros: nat)
    ensures 0 < Bucket(micros) < BUCKETS
    ensures Bucket(micros) < BUCKETS - 1 ==> Pow2(Bucket(micros)) <= 2 * Clamped(micros) && Clamped(micros) < Pow2(Bucket(micros))
    ensures Bucket(micros) == BUCKETS - 1 <==> micros >= Pow2(BUCKETS - 2)
  {
    var capped := if micros < U32_MAX then micros else U32_MAX;
    var n := Clamped(capped);
    var bits := BitLength(n);
    BitLengthBounds(n);
    Pow30();
    if bits < BUCKETS - 1 {
      Pow2Grows(bits, BUCKETS - 2);
    } else {
      Pow2Grows(BUCKETS - 2, bits - 1);
    }
  }

  lemma Pow30()
    ensures Pow2(BUCKETS - 2) == 0x4000_0000
  {
    assert Pow2(10) == 1024;
    assert Pow2(20) == 1024 * 1024;
    assert Pow2(30) == 0x4000_0000;
  }

  lemma {:induction false} BucketGrows(a: nat, b: nat)
    requires a <= b
    ensures Bucket(a) <= Bucket(b)
  {
    BucketBounds(a);
    BucketBounds(b);
    if Bucket(a) > Bucket(b) {
      Pow2Grows(Bucket(b), Bucket(a) - 1);
    }
  }

  // ---------------------------------------------------------------- nearest rank

  /** How many samples are at most `x`. */
  function AtMost(samples: seq<nat>, x: int): nat {
    if samples == [] then 0
    else AtMost(samples[..|samples| - 1], x) + if samples[|samples| - 1] <= x then 1 else 0
  }

  /** How many samples fall into bucket `i`. */
  function InBucket(samples: seq<nat>, i: int): nat {
    if samples == [] then 0
    else InBucket(samples[..|samples| - 1], i) + if Bucket(samples[|samples| - 1]) == i then 1 else 0
  }

  /** How many fall into the buckets before `i`. */
  function BeforeBucket(samples: seq<nat>, i: int): nat {
    if samples == [] then 0
    else BeforeBucket(samples[..|samples| - 1], i) + if Bucket(samples[|samples| - 1]) < i then 1 else 0
  }

  /** `x` is the `rank`-th smallest sample. */
  predicate IsRanked(samples: seq<nat>, rank: nat, x: nat) {
    AtMost(samples, x - 1) < rank <= AtMost(samples, x)
  }

  /** The rank of a percentile: of `count` samples, `percent` in a hundred, rounded up. */
  function RankOf(count: nat, percent: nat): nat {
    (count * percent + 99) / 100
  }

  lemma {:induction false} AtMostBounds(samples: seq<nat>, x: int, y: int)
    ensures AtMost(samples, x) <= |samples|
    ensures x <= y ==> AtMost(samples, x) <= AtMost(samples, y)
    ensures x < 0 ==> AtMost(samples, x) == 0
    ensures AtMost(samples, x - 1) < AtMost(samples, x) ==> x in samples
  {
    if samples != [] {
      AtMostBounds(samples[..|samples| - 1], x, y);
    }
  }

  lemma {:induction false} EnoughIsAll(samples: seq<nat>) returns (x: nat)
    ensures AtMost(samples, x) == |samples|
  {
    x := 0;
    if samples != [] {
      var last := samples[|samples| - 1];
      var before := EnoughIsAll(samples[..|samples| - 1]);
      x := if last > before then last else before;
      AtMostBounds(samples[..|samples| - 1], before, x);
      AtMostBounds(samples[..|samples| - 1], x, x);
    }
  }

  /** Every rank from one to the number of samples is some sample's, and only that one's. */
  lemma {:induction false} RankedExists(samples: seq<nat>, rank: nat) returns (x: nat)
    requires 0 < rank <= |samples|
    ensures IsRanked(samples, rank, x) && x in samples
  {
    var enough := EnoughIsAll(samples);
    x := 0;
    AtMostBounds(samples, -1, 0);
    while AtMost(samples, x) < rank
      invariant x <= enough && AtMost(samples, x - 1) < rank
      decreases enough - x
    {
      AtMostBounds(samples, enough, x + 1);
      x := x + 1;
    }
    AtMostBounds(samples, x, x);
  }

  lemma {:induction false} RankedIsUnique(samples: seq<nat>, rank: nat, x: nat, y: nat)
    requires IsRanked(samples, rank, x) && IsRanked(samples, rank, y)
    ensures x == y
  {
    if x < y {
      AtMostBounds(samples, x, y - 1);
    } else if y < x {
      AtMostBounds(samples, y, x - 1);
    }
  }

  lemma {:induction false} BucketsAdd(samples: seq<nat>, i: int)
    ensures BeforeBucket(samples, i + 1) == BeforeBucket(samples, i) + InBucket(samples, i)
    ensures i <= 0 ==> BeforeBucket(samples, i) == 0
    ensures i >= BUCKETS ==> BeforeBucket(samples, i) == |samples|
  {
    hide Bucket;
    if samples != [] {
      BucketsAdd(samples[..|samples| - 1], i);
      BucketBounds(samples[|samples| - 1]);
    }
  }

  lemma {:induction false} BucketsAgainstValues(samples: seq<nat>, x: nat)
    ensures AtMost(samples, x) <= BeforeBucket(samples, Bucket(x) + 1)
    ensures BeforeBucket(samples, Bucket(x)) <= AtMost(samples, x - 1)
  {
    hide Bucket;
    if samples != [] {
      BucketsAgainstValues(samples[..|samples| - 1], x);
      var last := samples[|samples| - 1];
      if last <= x {
        BucketGrows(last, x);
      } else {
        BucketGrows(x, last);
      }
    }
  }

  lemma {:induction false} BeforeGrows(samples: seq<nat>, i: int, j: int)
    requires i <= j
    ensures BeforeBucket(samples, i) <= BeforeBucket(samples, j)
  {
    if samples != [] {
      BeforeGrows(samples[..|samples| - 1], i, j);
    }
  }

  /** The first bucket whose running total reaches the rank is the ranked sample's own. */
  lemma {:induction false} FirstBucketIsRanked(samples: seq<nat>, rank: nat, x: nat, i: nat)
    requires IsRanked(samples, rank, x)
    requires BeforeBucket(samples, i) < rank <= BeforeBucket(samples, i + 1)
    ensures i == Bucket(x)
  {
    hide Bucket, AtMost, BeforeBucket;
    BucketsAgainstValues(samples, x);
    if i < Bucket(x) {
      BeforeGrows(samples, i + 1, Bucket(x));
    } else if Bucket(x) < i {
      BeforeGrows(samples, Bucket(x) + 1, i);
    }
  }

  // ---------------------------------------------------------------- percentiles

  /** What is shown for a sample: the end of its bucket, and the greatest number for the top one. */
  function Shown(x: nat): nat {
    if Bucket(x) == BUCKETS - 1 then U64_MAX else Pow2(Bucket(x))
  }

  /** Below the top bucket that is a power of two above the sample, and at most twice it. */
  lemma ShownIsClose(x: nat)
    ensures if x >= Pow2(BUCKETS - 2) then Shown(x) == U64_MAX
            else Clamped(x) < Shown(x) <= 2 * Clamped(x) && exists n: nat :: Shown(x) == Pow2(n)
  {
    BucketBounds(x);
  }

  /** At least `percent` in a hundred samples are at most the sample `x`, and fewer than that are below it. */
  ghost predicate NearestRank(samples: seq<nat>, percent: nat, x: nat) {
    && x in samples
    && 100 * |Places(samples, x)| >= percent * |samples|
    && 100 * |Places(samples, x - 1)| < percent * |samples|
  }

  /** Where the samples stand that are at most `x`. */
  ghost function Places(samples: seq<nat>, x: int): set<nat> {
    set i: nat | i < |samples| && samples[i] <= x
  }

  lemma {:induction false} AtMostCounts(samples: seq<nat>, x: int)
    ensures AtMost(samples, x) == |Places(samples, x)|
  {
    if samples != [] {
      var n := |samples| - 1;
      AtMostCounts(samples[..n], x);
      assert Places(samples, x) == Places(samples[..n], x) + if samples[n] <= x then {n} else {};
    }
  }

  lemma RankReaches(count: nat, percent: nat, n: nat)
    ensures RankOf(count, percent) <= n <==> percent * count <= 100 * n
  {
  }

  lemma RankedIsNearest(samples: seq<nat>, percent: nat, x: nat)
    requires x in samples
    ensures IsRanked(samples, RankOf(|samples|, percent), x) <==> NearestRank(samples, percent, x)
  {
    hide RankOf;
    AtMostCounts(samples, x);
    AtMostCounts(samples, x - 1);
    RankReaches(|samples|, percent, AtMost(samples, x));
    RankReaches(|samples|, percent, AtMost(samples, x - 1));
  }

  /** What a reading may be for a sample: a power of two above it and at most twice it, or the greatest number. */
  ghost predicate Close(x: nat, result: nat) {
    if x >= 0x4000_0000 then result == 0xFFFF_FFFF_FFFF_FFFF
    else x < result && 1 < result && (result <= 2 * x || result == 2) && exists n: nat :: result == Pow2(n)
  }

  /** A percentile reading: zero of nothing, else what is shown for the one nearest-rank sample. */
  ghost predicate Reads(samples: seq<nat>, percent: nat, result: nat) {
    if samples == [] then result == 0
    else
      (forall x, y :: NearestRank(samples, percent, x) && NearestRank(samples, percent, y) ==> x == y) &&
      exists x :: NearestRank(samples, percent, x) && Close(x, result)
  }

  lemma {:induction false} ShownIsRead(samples: seq<nat>, percent: nat, x: nat)
    requires samples != [] && x in samples && IsRanked(samples, RankOf(|samples|, percent), x)
    ensures Reads(samples, percent, Shown(x))
  {
    hide IsRanked, RankOf, NearestRank, Bucket, Shown, Pow2;
    RankedIsNearest(samples, percent, x);
    forall y | NearestRank(samples, percent, y) ensures x == y {
      NearestIsIn(samples, percent, y);
      RankedIsNearest(samples, percent, y);
      RankedIsUnique(samples, RankOf(|samples|, percent), x, y);
    }
    Pow30();
    ShownIsClose(x);
  }

  lemma NearestIsIn(samples: seq<nat>, percent: nat, x: nat)
    requires NearestRank(samples, percent, x)
    ensures x in samples
  {
  }

  lemma RankIsIn(count: nat, percent: nat)
    requires 0 < count && 0 < percent <= 100
    ensures 0 < RankOf(count, percent) <= count
  {
    assert count <= count * percent <= count * 100;
  }

  class UpdateTelemetry {
    var completed: nat
    var failed: nat
    const latency: array<nat>
    const queueWait: array<nat>
    ghost var latencies: seq<nat>
    ghost var waits: seq<nat>

    ghost predicate Valid()
      reads this, latency, queueWait
    {
      && latency != queueWait && latency.Length == BUCKETS && queueWait.Length == BUCKETS
      && Holds(latency[..], latencies) && Holds(queueWait[..], waits)
    }

    constructor ()
      ensures Valid() && latencies == [] && waits == [] && completed == 0 && failed == 0
      ensures fresh(latency) && fresh(queueWait)
    {
      latency := new nat[BUCKETS](_ => 0);
      queueWait := new nat[BUCKETS](_ => 0);
      latencies, waits := [], [];
      completed, failed := 0, 0;
    }

    method Record(histogram: array<nat>, micros: nat, ghost samples: seq<nat>)
      requires histogram.Length == BUCKETS && Holds(histogram[..], samples)
      modifies histogram
      ensures Holds(histogram[..], samples + [micros])
    {
      hide Bucket;
      BucketBounds(micros);
      var bucket := Bucket(micros);
      histogram[bucket] := histogram[bucket] + 1;
      assert (samples + [micros])[..|samples|] == samples;
    }

    /** A finished handler leaves its two samples; a failed one only counts. */
    method Complete(ok: bool, latencyMicros: nat, waitMicros: nat) returns (done: bool)
      requires Valid()
      modifies this, latency, queueWait
      ensures Valid() && done == ok
      ensures completed == old(completed) + (if ok then 1 else 0) && failed == old(failed) + (if ok then 0 else 1)
      ensures latencies == if ok then old(latencies) + [latencyMicros] else old(latencies)
      ensures waits == if ok then old(waits) + [waitMicros] else old(waits)
    {
      hide Holds;
      if ok {
        completed := completed + 1;
        Record(latency, latencyMicros, latencies);
        latencies := latencies + [latencyMicros];
        Record(queueWait, waitMicros, waits);
        waits := waits + [waitMicros];
        return true;
      }
      failed := failed + 1;
      return false;
    }

    /** The percentiles of the latencies since the last reading; the samples are gone afterwards. */
    method LatencyPercentiles() returns (p50: nat, p95: nat, p99: nat)
      requires Valid()
      modifies this, latency
      ensures Valid() && latencies == [] && waits == old(waits)
      ensures Reads(old(latencies), 50, p50) && Reads(old(latencies), 95, p95) && Reads(old(latencies), 99, p99)
    {
      hide Holds, Reads;
      p50, p95, p99 := Percentiles(latency, latencies);
      latencies := [];
    }
  }

  /** Each cell counts its bucket's samples. */
  ghost predicate Holds(cells: seq<nat>, samples: seq<nat>)
    requires |cells| == BUCKETS
  {
    forall i :: 0 <= i < BUCKETS ==> cells[i] == InBucket(samples, i)
  }

  method Percentiles(histogram: array<nat>, ghost samples: seq<nat>) returns (p50: nat, p95: nat, p99: nat)
    requires histogram.Length == BUCKETS && Holds(histogram[..], samples)
    modifies histogram
    ensures Holds(histogram[..], [])
    ensures Reads(samples, 50, p50) && Reads(samples, 95, p95) && Reads(samples, 99, p99)
  {
    hide Reads, Bucket;
    var buckets := histogram[..];
    var count := 0;
    BucketsAdd(samples, 0);
    for index := 0 to BUCKETS
      invariant count == BeforeBucket(samples, index)
      invariant forall i :: 0 <= i < index ==> histogram[i] == 0
      invariant buckets == old(histogram[..])
    {
      BucketsAdd(samples, index);
      histogram[index] := 0;
      count := count + buckets[index];
    }
    BucketsAdd(samples, BUCKETS);
    p50 := Percentile(buckets, count, 50, samples);
    p95 := Percentile(buckets, count, 95, samples);
    p99 := Percentile(buckets, count, 99, samples);
  }

  method Percentile(buckets: seq<nat>, count: nat, percent: nat, ghost samples: seq<nat>) returns (result: nat)
    requires |buckets| == BUCKETS && Holds(buckets, samples) && count == |samples| && 0 < percent <= 100
    ensures Reads(samples, percent, result)
  {
    hide Bucket, Pow2, AtMost, BeforeBucket;
    if count == 0 {
      return 0;
    }
    var target := RankOf(count, percent);
    RankIsIn(count, percent);
    ghost var x := RankedExists(samples, target);
    ShownIsRead(samples, percent, x);
    var cumulative := 0;
    BucketsAdd(samples, 0);
    for index := 0 to BUCKETS
      invariant cumulative == BeforeBucket(samples, index) < target
    {
      BucketsAdd(samples, index);
      cumulative := cumulative + buckets[index];
      if cumulative >= target {
        FirstBucketIsRanked(samples, target, x, index);
        return if index == BUCKETS - 1 then U64_MAX else Pow2(index);
      }
    }
    BucketsAdd(samples, BUCKETS);
    assert false;
  }
}
