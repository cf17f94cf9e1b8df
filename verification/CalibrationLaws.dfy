/** What the calibration error of eval/system-one/harness/score.py charges: in every
    bucket the distance between the sum of the probabilities and the number of true
    outcomes. */
module CalibrationLaws {
  import opened Score

  // ----- one bucket -----

  lemma Ordered(x: real, y: real, n: real)
    requires n > 0.0
    ensures x <= y <==> x / n <= y / n
  {
    var a, b := x / n, y / n;
    assert a * n == x && b * n == y;
    if a < b {
      ScaledOrder(a, b, n);
    } else if b < a {
      ScaledOrder(b, a, n);
    }
  }

  lemma Difference(x: real, y: real, n: real)
    requires n > 0.0
    ensures n * (x / n - y / n) == x - y
  {
    assert x / n * n == x && y / n * n == y;
  }

  lemma ShareTimes(n: real, total: real, gap: real)
    requires total > 0.0
    ensures total * (n / total * gap) == n * gap
  {
    var share := n / total;
    assert share * total == n;
    assert total * (share * gap) == (share * total) * gap;
  }

  /** A bucket is charged the distance between what was predicted and what came true. */
  lemma GapTimes(bucket: seq<Sample>, total: nat)
    requires total > 0
    ensures total as real * Gap(bucket, total)
         == if SumP(bucket) >= SumY(bucket) as real then SumP(bucket) - SumY(bucket) as real
            else SumY(bucket) as real - SumP(bucket)
  {
    if bucket != [] {
      var n, p, y := |bucket| as real, SumP(bucket), SumY(bucket) as real;
      Ordered(p, y, n);
      Ordered(y, p, n);
      Difference(p, y, n);
      Difference(y, p, n);
      GapIs(bucket, total, Abs(y / n - p / n));
      ShareTimes(n, total as real, Abs(y / n - p / n));
    }
  }

  lemma NoFactor(total: real, gap: real)
    requires total > 0.0
    ensures (gap == 0.0 <==> total * gap == 0.0) && (gap >= 0.0 <==> total * gap >= 0.0)
  {
    if gap > 0.0 {
      ScaledOrder(0.0, gap, total);
    } else if gap < 0.0 {
      ScaledOrder(gap, 0.0, total);
    }
  }

  // ----- all buckets -----

  ghost predicate Calibrated(samples: seq<Sample>, b: nat, bins: nat)
    requires b < bins
  {
    SumP(Bucket(samples, b, bins)) == SumY(Bucket(samples, b, bins)) as real
  }

  /** No error exactly when in every bucket the probabilities add up to the number of
      true outcomes. */
  lemma {:induction false} NoErrorExactlyWhen(samples: seq<Sample>, b: nat, bins: nat)
    requires samples != [] && b <= bins
    ensures Error(samples, b, bins) >= 0.0
    ensures Error(samples, b, bins) == 0.0 <==> forall c: nat :: c < b ==> Calibrated(samples, c, bins)
  {
    if b > 0 {
      NoErrorExactlyWhen(samples, b - 1, bins);
      var bucket := Bucket(samples, b - 1, bins);
      GapTimes(bucket, |samples|);
      NoFactor(|samples| as real, Gap(bucket, |samples|));
      assert Calibrated(samples, b - 1, bins) <==> Gap(bucket, |samples|) == 0.0;
    }
  }

  // ----- samples of one bucket -----

  lemma {:induction false} BucketOfAll(samples: seq<Sample>, b: nat, bins: nat, c: nat)
    requires b < bins && forall i :: 0 <= i < |samples| ==> (InBucket(samples[i].p, b, bins) <==> b == c)
    ensures Bucket(samples, b, bins) == if b == c then samples else []
  {
    if samples != [] {
      BucketOfAll(samples[..|samples| - 1], b, bins, c);
    }
  }

  ghost predicate AllIn(samples: seq<Sample>, c: nat, bins: nat)
    requires c < bins
  {
    forall i, b: nat :: 0 <= i < |samples| && b < bins ==> (InBucket(samples[i].p, b, bins) <==> b == c)
  }

  lemma {:induction false} ErrorOfOneBucket(samples: seq<Sample>, b: nat, bins: nat, c: nat)
    requires samples != [] && b <= bins && c < bins && AllIn(samples, c, bins)
    ensures Error(samples, b, bins) == if c < b then Gap(samples, |samples|) else 0.0
  {
    if b > 0 {
      ErrorOfOneBucket(samples, b - 1, bins, c);
      BucketOfAll(samples, b - 1, bins, c);
    }
  }

  lemma {:induction false} SumOfSame(samples: seq<Sample>, p: real)
    requires forall i :: 0 <= i < |samples| ==> samples[i].p == p
    ensures SumP(samples) == |samples| as real * p
  {
    if samples != [] {
      SumOfSame(samples[..|samples| - 1], p);
    }
  }

  /** How many outcomes came true. */
  lemma {:induction false} OutcomesCount(samples: seq<Sample>)
    requires Proper(samples)
    ensures SumY(samples) == |set i | 0 <= i < |samples| && samples[i].y == 1|
  {
    var all := set i | 0 <= i < |samples| && samples[i].y == 1;
    if samples == [] {
      assert all == {};
    } else {
      var n := |samples| - 1;
      var front := samples[..n];
      OutcomesCount(front);
      var before := set i | 0 <= i < |front| && front[i].y == 1;
      assert all == before + if samples[n].y == 1 then {n} else {};
    }
  }

  /** Samples with one probability, whatever the number of buckets: the error is how far
      the share of true outcomes lies from it, on either side. */
  lemma ErrorOfOneProbability(samples: seq<Sample>, p: real, bins: nat)
    requires samples != [] && bins > 0 && 0.0 <= p <= 1.0
    requires forall i :: 0 <= i < |samples| ==> samples[i].p == p
    ensures var share := SumY(samples) as real / |samples| as real;
            Error(samples, bins, bins) == if share >= p then share - p else p - share
  {
    var c := OneBucket(p, bins);
    ErrorOfOneBucket(samples, bins, bins, c);
    GapOfSame(samples, p);
  }

  lemma GapOfSame(samples: seq<Sample>, p: real)
    requires samples != [] && forall i :: 0 <= i < |samples| ==> samples[i].p == p
    ensures var share := SumY(samples) as real / |samples| as real;
            Gap(samples, |samples|) == if share >= p then share - p else p - share
  {
    SumOfSame(samples, p);
    MeanOfSame(SumP(samples), |samples| as real, p);
    var gap := Abs(SumY(samples) as real / |samples| as real - p);
    GapIs(samples, |samples|, gap);
    Whole(|samples| as real, gap);
  }

  lemma MeanOfSame(sum: real, n: real, p: real)
    requires n > 0.0 && sum == n * p
    ensures sum / n == p
  {
    Divided(sum, n, p);
  }

  lemma Whole(n: real, gap: real)
    requires n > 0.0
    ensures n / n * gap == gap
  {}

  // ----- where the buckets begin -----

  /** A bucket holds its lower end and not its upper one; the last one holds 1 as well. */
  lemma BoundsBelong(k: nat, bins: nat, b: nat)
    requires k <= bins && b < bins
    ensures InBucket(Part(k, bins), b, bins) <==> b == if k < bins then k else bins - 1
  {
    Ends(bins);
    PartsGrow(0, k, bins);
    PartsGrow(k, bins, bins);
    var c := OneBucket(Part(k, bins), bins);
    if k < bins {
      Ordered(k as real, (k + 1) as real, bins as real);
      Ordered((k + 1) as real, k as real, bins as real);
      assert InBucket(Part(k, bins), k, bins);
    } else {
      assert InBucket(1.0, bins - 1, bins);
    }
  }
}
