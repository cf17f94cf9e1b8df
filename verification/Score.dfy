/** The evaluation metrics of eval/system-one/harness/score.py, over exact reals. */
module Score {
  import opened Wrappers

  function Abs(x: real): real { if x < 0.0 then -x else x }

  function Ceil(x: real): int { -((-x).Floor) }

  // ----- calibration error -----

  /** A predicted probability and what came true, 1 or 0. */
  datatype Sample = Sample(p: real, y: int)

  predicate InBucket(p: real, b: nat, bins: nat)
    requires bins > 0
  {
    (b as real / bins as real <= p && p < (b + 1) as real / bins as real) || (b == bins - 1 && p == 1.0)
  }

  /** The samples of one bucket. */
  function Bucket(samples: seq<Sample>, b: nat, bins: nat): seq<Sample>
    requires bins > 0
  {
    if samples == [] then []
    else
      var last := samples[|samples| - 1];
      Bucket(samples[..|samples| - 1], b, bins) + if InBucket(last.p, b, bins) then [last] else []
  }

  function SumP(samples: seq<Sample>): real {
    if samples == [] then 0.0 else SumP(samples[..|samples| - 1]) + samples[|samples| - 1].p
  }

  function SumY(samples: seq<Sample>): int {
    if samples == [] then 0 else SumY(samples[..|samples| - 1]) + samples[|samples| - 1].y
  }

  /** What one bucket adds: its share of the samples times the gap between its
      accuracy and its confidence. */
  function Gap(bucket: seq<Sample>, total: nat): real
    requires total > 0
  {
    if bucket == [] then 0.0
    else
      var n := |bucket| as real;
      n / total as real * Abs(SumY(bucket) as real / n - SumP(bucket) / n)
  }

  function Error(samples: seq<Sample>, b: nat, bins: nat): real
    requires samples != [] && b <= bins
  {
    if b == 0 then 0.0 else Error(samples, b - 1, bins) + Gap(Bucket(samples, b - 1, bins), |samples|)
  }

  method Select(samples: seq<Sample>, b: nat, bins: nat) returns (bucket: seq<Sample>)
    requires bins > 0
    ensures bucket == Bucket(samples, b, bins)
  {
    bucket := [];
    var i := 0;
    while i < |samples|
      invariant 0 <= i <= |samples|
      invariant bucket == Bucket(samples[..i], b, bins)
    {
      assert samples[..i + 1][..i] == samples[..i];
      if InBucket(samples[i].p, b, bins) {
        bucket := bucket + [samples[i]];
      }
      i := i + 1;
    }
    assert samples[..i] == samples;
  }

  method Ece(samples: seq<Sample>, bins: nat) returns (err: Option<real>)
    ensures err == if samples == [] then None else Some(Error(samples, bins, bins))
  {
    if samples == [] {
      return None;
    }
    var sum := 0.0;
    var b := 0;
    while b < bins
      invariant 0 <= b <= bins
      invariant sum == Error(samples, b, bins)
    {
      var bucket := Select(samples, b, bins);
      sum := sum + Gap(bucket, |samples|);
      b := b + 1;
    }
    err := Some(sum);
  }

  // ----- every probability has one bucket -----

  function Part(b: int, bins: nat): real
    requires bins > 0
  {
    b as real / bins as real
  }

  lemma PartsGrow(b: int, c: int, bins: nat)
    requires bins > 0 && b <= c
    ensures Part(b, bins) <= Part(c, bins)
  {
    var d := (c - b) as real / bins as real;
    assert d >= 0.0;
    assert Part(c, bins) == Part(b, bins) + d;
  }

  lemma Ends(bins: nat)
    requires bins > 0
    ensures Part(0, bins) == 0.0 && Part(bins, bins) == 1.0
  {}

  /** The bucket of a probability: the first whose upper end lies above it. */
  function BucketOf(p: real, bins: nat, b: nat): (c: nat)
    requires 0 < bins && b < bins && Part(b, bins) <= p
    ensures b <= c < bins && Part(c, bins) <= p && (p < Part(c + 1, bins) || c == bins - 1)
    decreases bins - b
  {
    if p < Part(b + 1, bins) || b == bins - 1 then b else BucketOf(p, bins, b + 1)
  }

  /** The buckets partition the probabilities from 0 to 1. */
  lemma OneBucket(p: real, bins: nat) returns (c: nat)
    requires bins > 0 && 0.0 <= p <= 1.0
    ensures c < bins
    ensures forall b: nat :: b < bins ==> (InBucket(p, b, bins) <==> b == c)
  {
    Ends(bins);
    c := BucketOf(p, bins, 0);
    forall b: nat | b < bins ensures InBucket(p, b, bins) <==> b == c {
      if b < c {
        PartsGrow(b + 1, c, bins);
        assert b != bins - 1;
      } else if b > c {
        PartsGrow(c + 1, b, bins);
        if p == 1.0 {
          PartsGrow(c + 1, bins, bins);
        }
      } else if !(p < Part(c + 1, bins)) {
        assert c == bins - 1;
      }
    }
  }

  /** The samples in the first `b` buckets. */
  function Counted(samples: seq<Sample>, b: nat, bins: nat): nat
    requires b <= bins
  {
    if b == 0 then 0 else Counted(samples, b - 1, bins) + |Bucket(samples, b - 1, bins)|
  }

  ghost predicate Proper(samples: seq<Sample>) {
    forall i :: 0 <= i < |samples| ==> 0.0 <= samples[i].p <= 1.0 && 0 <= samples[i].y <= 1
  }

  lemma {:induction false} CountedSnoc(samples: seq<Sample>, p: real, b: nat, bins: nat, c: nat)
    requires samples != [] && samples[|samples| - 1].p == p && b <= bins && c < bins
    requires forall k: nat :: k < bins ==> (InBucket(p, k, bins) <==> k == c)
    ensures Counted(samples, b, bins) == Counted(samples[..|samples| - 1], b, bins) + if c < b then 1 else 0
  {
    if b > 0 {
      CountedSnoc(samples, p, b - 1, bins, c);
    }
  }

  /** Every sample is counted in exactly one bucket. */
  lemma {:induction false} AllCounted(samples: seq<Sample>, bins: nat)
    requires Proper(samples) && bins > 0
    ensures Counted(samples, bins, bins) == |samples|
  {
    if samples == [] {
      NoneCounted(bins, bins);
    } else {
      var n := |samples| - 1;
      var c := OneBucket(samples[n].p, bins);
      CountedSnoc(samples, samples[n].p, bins, bins, c);
      AllCounted(samples[..n], bins);
    }
  }

  lemma {:induction false} NoneCounted(b: nat, bins: nat)
    requires b <= bins
    ensures Counted([], b, bins) == 0
  {
    if b > 0 {
      NoneCounted(b - 1, bins);
    }
  }

  lemma {:induction false} BucketProper(samples: seq<Sample>, b: nat, bins: nat)
    requires Proper(samples) && bins > 0
    ensures Proper(Bucket(samples, b, bins))
  {
    if samples != [] {
      BucketProper(samples[..|samples| - 1], b, bins);
    }
  }

  lemma {:induction false} SumsBounded(samples: seq<Sample>)
    requires Proper(samples)
    ensures 0.0 <= SumP(samples) <= |samples| as real && 0 <= SumY(samples) <= |samples|
  {
    if samples != [] {
      SumsBounded(samples[..|samples| - 1]);
    }
  }

  lemma Within(a: real, n: real)
    requires n > 0.0 && 0.0 <= a <= n
    ensures 0.0 <= a / n <= 1.0
  {}

  lemma GapOfOne(n: real, y: real, p: real) returns (gap: real)
    requires n > 0.0 && 0.0 <= y <= n && 0.0 <= p <= n
    ensures gap == Abs(y / n - p / n) && 0.0 <= gap <= 1.0
  {
    Within(y, n);
    Within(p, n);
    gap := Abs(y / n - p / n);
  }

  lemma GapIs(bucket: seq<Sample>, total: nat, gap: real)
    requires total > 0 && bucket != []
    requires gap == Abs(SumY(bucket) as real / |bucket| as real - SumP(bucket) / |bucket| as real)
    ensures Gap(bucket, total) == |bucket| as real / total as real * gap
  {}

  lemma Scaled(share: real, gap: real)
    requires share >= 0.0 && 0.0 <= gap <= 1.0
    ensures 0.0 <= share * gap <= share
  {}

  lemma {:induction false} ErrorBounded(samples: seq<Sample>, b: nat, bins: nat)
    requires samples != [] && Proper(samples) && b <= bins
    ensures 0.0 <= Error(samples, b, bins) <= Counted(samples, b, bins) as real / |samples| as real
  {
    if b > 0 {
      ErrorBounded(samples, b - 1, bins);
      var bucket := Bucket(samples, b - 1, bins);
      BucketProper(samples, b - 1, bins);
      SumsBounded(bucket);
      GapBounded(bucket, |samples|);
      Shares(Counted(samples, b - 1, bins), |bucket|, |samples|);
    }
  }

  lemma GapBounded(bucket: seq<Sample>, total: nat)
    requires total > 0 && 0.0 <= SumP(bucket) <= |bucket| as real && 0 <= SumY(bucket) <= |bucket|
    ensures 0.0 <= Gap(bucket, total) <= |bucket| as real / total as real
  {
    if bucket != [] {
      var gap := GapOfOne(|bucket| as real, SumY(bucket) as real, SumP(bucket));
      GapIs(bucket, total, gap);
      Quotient(|bucket|, total);
      Scaled(|bucket| as real / total as real, gap);
    }
  }

  lemma Quotient(a: nat, total: nat)
    requires total > 0
    ensures a as real / total as real >= 0.0
  {}

  lemma Shares(a: nat, b: nat, total: nat)
    requires total > 0
    ensures (a + b) as real / total as real == a as real / total as real + b as real / total as real
  {}

  /** The calibration error of probabilities is itself between 0 and 1. */
  lemma EceWithinOne(samples: seq<Sample>, bins: nat)
    requires samples != [] && Proper(samples) && bins > 0
    ensures 0.0 <= Error(samples, bins, bins) <= 1.0
  {
    ErrorBounded(samples, bins, bins);
    AllCounted(samples, bins);
    Ends(|samples|);
  }

  // ----- precision, recall and F1 -----

  function Ratio(a: nat, b: nat): real { if b == 0 then 0.0 else a as real / b as real }

  function F1(precision: real, recall: real): real {
    if precision + recall == 0.0 then 0.0 else 2.0 * precision * recall / (precision + recall)
  }

  /** F1 lies between precision and recall. */
  lemma F1Between(p: real, r: real)
    requires p >= 0.0 && r >= 0.0
    ensures (if p <= r then p else r) <= F1(p, r) <= (if p <= r then r else p)
  {
    if p + r != 0.0 {
      if p <= r {
        Between(p, r);
      } else {
        Between(r, p);
      }
    }
  }

  lemma Between(p: real, r: real)
    requires 0.0 <= p <= r && p + r > 0.0
    ensures p <= F1(p, r) <= r && F1(r, p) == F1(p, r)
  {
    var s, x := p + r, 2.0 * p * r;
    assert p * s <= x by {
      assert p * s == p * p + p * r;
      assert p * p <= p * r;
    }
    assert x <= r * s by {
      assert r * s == r * p + r * r;
      assert p * r <= r * r;
    }
    Squeeze(p, r, x, s);
  }

  lemma Squeeze(low: real, high: real, x: real, s: real)
    requires s > 0.0 && low * s <= x <= high * s
    ensures low <= x / s <= high
  {
    var q := x / s;
    assert q * s == x;
    if q < low {
      ScaledOrder(q, low, s);
    }
    if q > high {
      ScaledOrder(high, q, s);
    }
  }

  lemma ScaledOrder(a: real, b: real, s: real)
    requires s > 0.0 && a < b
    ensures a * s < b * s
  {
    assert (b - a) * s > 0.0;
  }

  lemma CancelFactor(x: real, y: real, k: real)
    requires k > 0.0 && x * k == y * k
    ensures x == y
  {
    if x < y {
      ScaledOrder(x, y, k);
    } else if y < x {
      ScaledOrder(y, x, k);
    }
  }

  lemma Dice(p: real, r: real, q: real, t: real, a: real, b: real)
    requires p * a == t && r * b == t && q * (a + b) == 2.0 * t && a > 0.0 && b > 0.0
    ensures q * (p + r) == 2.0 * p * r
  {
    var k := a * b;
    assert q * (p + r) * k == q * ((p * a) * b + (r * b) * a);
    assert q * (t * b + t * a) == t * (q * (a + b));
    assert 2.0 * p * r * k == 2.0 * (p * a) * (r * b);
    CancelFactor(q * (p + r), 2.0 * p * r, k);
  }

  lemma F1OfShares(p: real, r: real, q: real, t: real, a: real, b: real)
    requires p * a == t && r * b == t && q * (a + b) == 2.0 * t && a > 0.0 && b > 0.0 && p > 0.0 && r > 0.0
    ensures F1(p, r) == q
  {
    Dice(p, r, q, t, a, b);
    Divided(2.0 * p * r, p + r, q);
  }

  lemma Divided(x: real, y: real, q: real)
    requires y > 0.0 && q * y == x
    ensures x / y == q
  {}

  lemma RatioTimes(a: nat, b: nat)
    requires b > 0
    ensures Ratio(a, b) * b as real == a as real && (a > 0 ==> Ratio(a, b) > 0.0)
  {}

  /** F1 in terms of the confusion counts: true negatives play no part. */
  lemma F1OfCounts(tp: nat, fp: nat, fn: nat)
    ensures F1(Ratio(tp, tp + fp), Ratio(tp, tp + fn)) == Ratio(2 * tp, 2 * tp + fp + fn)
  {
    if tp > 0 {
      RatioTimes(tp, tp + fp);
      RatioTimes(tp, tp + fn);
      RatioTimes(2 * tp, 2 * tp + fp + fn);
      F1OfShares(Ratio(tp, tp + fp), Ratio(tp, tp + fn), Ratio(2 * tp, 2 * tp + fp + fn), tp as real,
                 (tp + fp) as real, (tp + fn) as real);
    } else {
      NoRatio(fp);
      NoRatio(fn);
      NoRatio(fp + fn);
    }
  }

  lemma NoRatio(b: nat)
    ensures Ratio(0, b) == 0.0
  {}

  // ----- ranking metrics -----

  datatype Answer = Answer(text: string, prob: real)

  /** A record with the gold answer of its case, the probabilities in the order of
      the dictionary, and the answer the record names as the top one. */
  datatype Record = Record(gold: string, probabilities: seq<Answer>, top1: Option<string>)

  predicate Falls(s: seq<Answer>) { forall i, j :: 0 <= i < j < |s| ==> s[i].prob >= s[j].prob }

  predicate NoTwice(s: seq<Answer>) { forall i, j :: 0 <= i < j < |s| ==> s[i].text != s[j].text }

  function Insert(x: Answer, s: seq<Answer>): (r: seq<Answer>)
    ensures |r| == |s| + 1
    ensures forall a :: a in r <==> a == x || a in s
    ensures r[0] == x || (s != [] && r[0] == s[0])
  {
    if s == [] || x.prob >= s[0].prob then [x] + s else [s[0]] + Insert(x, s[1..])
  }

  /** The order of `sorted(..., reverse=True)`: by falling probability, and equal
      ones as they were. */
  function Falling(s: seq<Answer>): (r: seq<Answer>)
    ensures |r| == |s|
    ensures forall a :: a in r <==> a in s
  {
    if s == [] then [] else Insert(s[0], Falling(s[1..]))
  }

  function Texts(s: seq<Answer>): (t: seq<string>)
    ensures |t| == |s|
    ensures forall i :: 0 <= i < |s| ==> t[i] == s[i].text
  {
    seq(|s|, i requires 0 <= i < |s| => s[i].text)
  }

  function RankedTexts(r: Record): seq<string> { Texts(Falling(r.probabilities)) }

  predicate Hit(r: Record) { r.top1 == Some(r.gold) }

  /** One over the place of the gold answer, nothing if it is missing. */
  function Reciprocal(gold: string, answers: seq<string>, place: nat): (x: real)
    ensures 0.0 <= x <= 1.0
    ensures x > 0.0 <==> gold in answers
    ensures place == 0 ==> (x == 1.0 <==> answers != [] && answers[0] == gold)
    ensures place > 0 ==> x < 1.0
  {
    if answers == [] then 0.0
    else if answers[0] == gold then 1.0 / (place + 1) as real
    else Reciprocal(gold, answers[1..], place + 1)
  }

  function Share(r: Record): real { Reciprocal(r.gold, RankedTexts(r), 0) }

  function Hits(cases: seq<Record>): nat {
    if cases == [] then 0 else Hits(cases[..|cases| - 1]) + if Hit(cases[|cases| - 1]) then 1 else 0
  }

  function ReciprocalSum(cases: seq<Record>): real {
    if cases == [] then 0.0 else ReciprocalSum(cases[..|cases| - 1]) + Share(cases[|cases| - 1])
  }

  /** R@1 and MRR of the cases, nothing if there are none. */
  method RankMetrics(cases: seq<Record>) returns (metrics: Option<(real, real)>)
    ensures metrics.None? <==> cases == []
    ensures metrics.Some? ==> metrics.value.0 == Hits(cases) as real / |cases| as real
    ensures metrics.Some? ==> metrics.value.1 == ReciprocalSum(cases) / |cases| as real
  {
    if cases == [] {
      return None;
    }
    var hits, mrrSum := 0, 0.0;
    var i := 0;
    while i < |cases|
      invariant 0 <= i <= |cases|
      invariant hits == Hits(cases[..i]) && mrrSum == ReciprocalSum(cases[..i])
    {
      assert cases[..i + 1][..i] == cases[..i];
      if Hit(cases[i]) {
        hits := hits + 1;
      }
      var ranked := RankedTexts(cases[i]);
      mrrSum := mrrSum + Reciprocal(cases[i].gold, ranked, 0);
      i := i + 1;
    }
    assert cases[..i] == cases;
    metrics := Some((hits as real / |cases| as real, mrrSum / |cases| as real));
  }

  // ----- where the gold answer is ranked -----

  function CountAbove(s: seq<Answer>, p: real): nat {
    if s == [] then 0 else (if s[0].prob > p then 1 else 0) + CountAbove(s[1..], p)
  }

  function CountFrom(s: seq<Answer>, p: real): nat {
    if s == [] then 0 else (if s[0].prob >= p then 1 else 0) + CountFrom(s[1..], p)
  }

  /** How many answers outrank answer `g`: the more probable ones, and the equally
      probable ones named before it. */
  function Outranking(s: seq<Answer>, g: nat): nat
    requires g < |s|
  {
    CountFrom(s[..g], s[g].prob) + CountAbove(s[g + 1..], s[g].prob)
  }

  lemma {:induction false} InsertFalls(x: Answer, s: seq<Answer>)
    requires Falls(s)
    ensures Falls(Insert(x, s))
  {
    if s != [] && x.prob < s[0].prob {
      InsertFalls(x, s[1..]);
      var rest := Insert(x, s[1..]);
      forall j | 0 <= j < |rest| ensures s[0].prob >= rest[j].prob {
        assert rest[j] in rest;
      }
    }
  }

  lemma {:induction false} FallingFalls(s: seq<Answer>)
    ensures Falls(Falling(s))
  {
    if s != [] {
      FallingFalls(s[1..]);
      InsertFalls(s[0], Falling(s[1..]));
    }
  }

  lemma {:induction false} InsertPlace(x: Answer, s: seq<Answer>)
    requires Falls(s)
    ensures CountAbove(s, x.prob) <= |s| && Insert(x, s)[CountAbove(s, x.prob)] == x
  {
    if s != [] {
      InsertPlace(x, s[1..]);
      if x.prob >= s[0].prob {
        NoneAbove(s, x.prob);
      }
    }
  }

  lemma {:induction false} NoneAbove(s: seq<Answer>, p: real)
    requires forall i :: 0 <= i < |s| ==> s[i].prob <= p
    ensures CountAbove(s, p) == 0
  {
    if s != [] {
      NoneAbove(s[1..], p);
    }
  }

  lemma {:induction false} InsertShifts(x: Answer, s: seq<Answer>, k: nat)
    requires Falls(s) && k < |s|
    ensures Insert(x, s)[if x.prob >= s[k].prob then k + 1 else k] == s[k]
  {
    if x.prob < s[0].prob && k > 0 {
      InsertShifts(x, s[1..], k - 1);
    }
  }

  lemma {:induction false} InsertCounts(x: Answer, s: seq<Answer>, p: real)
    ensures CountAbove(Insert(x, s), p) == CountAbove(s, p) + if x.prob > p then 1 else 0
  {
    if s != [] && x.prob < s[0].prob {
      InsertCounts(x, s[1..], p);
      assert ([s[0]] + Insert(x, s[1..]))[1..] == Insert(x, s[1..]);
    } else {
      assert ([x] + s)[1..] == s;
    }
  }

  lemma {:induction false} FallingCounts(s: seq<Answer>, p: real)
    ensures CountAbove(Falling(s), p) == CountAbove(s, p)
  {
    if s != [] {
      FallingCounts(s[1..], p);
      InsertCounts(s[0], Falling(s[1..]), p);
    }
  }

  /** Answer `g` stands behind exactly the answers that outrank it. */
  lemma {:induction false} RankedBehind(s: seq<Answer>, g: nat)
    requires g < |s|
    ensures Outranking(s, g) < |s| && Falling(s)[Outranking(s, g)] == s[g]
  {
    var rest := Falling(s[1..]);
    FallingFalls(s[1..]);
    if g == 0 {
      FallingCounts(s[1..], s[0].prob);
      InsertPlace(s[0], rest);
    } else {
      RankedBehind(s[1..], g - 1);
      OutrankingStep(s, g);
      InsertShifts(s[0], rest, Outranking(s[1..], g - 1));
    }
  }

  lemma OutrankingStep(s: seq<Answer>, g: nat)
    requires 0 < g < |s|
    ensures Outranking(s, g) == Outranking(s[1..], g - 1) + if s[0].prob >= s[g].prob then 1 else 0
  {
    assert s[..g][1..] == s[1..][..g - 1];
    assert s[1..][g..] == s[g + 1..];
  }

  lemma {:induction false} InsertNoTwice(x: Answer, s: seq<Answer>)
    requires NoTwice(s) && forall a :: a in s ==> a.text != x.text
    ensures NoTwice(Insert(x, s))
  {
    if s != [] && x.prob < s[0].prob {
      InsertNoTwice(x, s[1..]);
      var rest := Insert(x, s[1..]);
      forall j | 0 <= j < |rest| ensures s[0].text != rest[j].text {
        assert rest[j] in rest;
      }
    } else {
      forall j | 0 <= j < |s| ensures x.text != s[j].text {
        assert s[j] in s;
      }
    }
  }

  lemma {:induction false} FallingNoTwice(s: seq<Answer>)
    requires NoTwice(s)
    ensures NoTwice(Falling(s))
  {
    if s != [] {
      FallingNoTwice(s[1..]);
      InsertNoTwice(s[0], Falling(s[1..]));
    }
  }

  lemma {:induction false} ReciprocalAt(gold: string, answers: seq<string>, k: nat, place: nat)
    requires k < |answers| && answers[k] == gold && forall j :: 0 <= j < k ==> answers[j] != gold
    ensures Reciprocal(gold, answers, place) == 1.0 / (place + k + 1) as real
  {
    if k > 0 {
      ReciprocalAt(gold, answers[1..], k - 1, place + 1);
    }
  }

  /** So a record adds one over one more than the number of answers that outrank
      the gold one, and a tie counts for the answer named first. */
  lemma ShareIsRank(r: Record, g: nat)
    requires NoTwice(r.probabilities) && g < |r.probabilities| && r.probabilities[g].text == r.gold
    ensures Share(r) == 1.0 / (Outranking(r.probabilities, g) + 1) as real
  {
    var k := Outranking(r.probabilities, g);
    RankedBehind(r.probabilities, g);
    FallingNoTwice(r.probabilities);
    PlaceGives(Falling(r.probabilities), r.gold, k);
  }

  lemma PlaceGives(ranked: seq<Answer>, gold: string, k: nat)
    requires NoTwice(ranked) && k < |ranked| && ranked[k].text == gold
    ensures Reciprocal(gold, Texts(ranked), 0) == 1.0 / (k + 1) as real
  {
    var texts := Texts(ranked);
    forall j | 0 <= j < k ensures texts[j] != gold {
      assert ranked[j].text != ranked[k].text;
    }
    ReciprocalAt(gold, texts, k, 0);
  }

  // ----- R@1 and MRR -----

  /** A hit names the answer that is ranked first. */
  predicate HitIsFirst(r: Record) {
    Hit(r) ==> RankedTexts(r) != [] && RankedTexts(r)[0] == r.gold
  }

  /** As the evaluation writes records, with the first ranked answer as the top one. */
  predicate TopIsFirst(r: Record) {
    r.top1 == if RankedTexts(r) == [] then None else Some(RankedTexts(r)[0])
  }

  lemma {:induction false} HitsBelowReciprocals(cases: seq<Record>)
    requires forall i :: 0 <= i < |cases| ==> HitIsFirst(cases[i])
    ensures Hits(cases) as real <= ReciprocalSum(cases)
  {
    if cases != [] {
      HitsBelowReciprocals(cases[..|cases| - 1]);
      assert HitIsFirst(cases[|cases| - 1]);
    }
  }

  lemma {:induction false} ReciprocalsBelowCount(cases: seq<Record>)
    ensures 0.0 <= ReciprocalSum(cases) <= |cases| as real
  {
    if cases != [] {
      ReciprocalsBelowCount(cases[..|cases| - 1]);
    }
  }

  /** On records as the evaluation writes them R@1 is at most MRR, and MRR at most 1. */
  lemma RecallBelowMrr(cases: seq<Record>)
    requires cases != [] && forall i :: 0 <= i < |cases| ==> TopIsFirst(cases[i])
    ensures 0.0 <= Hits(cases) as real / |cases| as real <= ReciprocalSum(cases) / |cases| as real <= 1.0
  {
    HitsBelowReciprocals(cases);
    ReciprocalsBelowCount(cases);
    Monotone(Hits(cases) as real, ReciprocalSum(cases), |cases| as real);
  }

  lemma SingleRecord(r: Record)
    ensures Hits([r]) == (if Hit(r) then 1 else 0) && ReciprocalSum([r]) == Share(r)
  {
    assert [r][..0] == [];
  }

  /** On any records: R@1 is at most MRR for every selection of them exactly when
      each hit is ranked first. */
  lemma RecallBelowMrrExactlyWhen(records: set<Record>)
    ensures (forall cases: seq<Record> :: (forall r :: r in cases ==> r in records) ==>
               Hits(cases) as real <= ReciprocalSum(cases))
       <==> (forall r :: r in records ==> HitIsFirst(r))
  {
    if forall r :: r in records ==> HitIsFirst(r) {
      forall cases: seq<Record> | forall r :: r in cases ==> r in records
        ensures Hits(cases) as real <= ReciprocalSum(cases)
      {
        HitsBelowReciprocals(cases);
      }
    } else {
      var r :| r in records && !HitIsFirst(r);
      var cases := [r];
      SingleRecord(r);
      assert forall x :: x in cases ==> x in records;
      assert !(Hits(cases) as real <= ReciprocalSum(cases));
    }
  }

  lemma Monotone(a: real, b: real, n: real)
    requires 0.0 <= a <= b <= n && n > 0.0
    ensures 0.0 <= a / n <= b / n <= 1.0
  {}

  // ----- percentiles -----

  function AtMost(values: seq<real>, v: real): nat {
    if values == [] then 0 else AtMost(values[..|values| - 1], v) + if values[|values| - 1] <= v then 1 else 0
  }

  ghost predicate Sorted(s: seq<real>) { forall i, j :: 0 <= i < j < |s| ==> s[i] <= s[j] }

  lemma {:induction false} AtMostConcat(s: seq<real>, t: seq<real>, v: real)
    ensures AtMost(s + t, v) == AtMost(s, v) + AtMost(t, v)
  {
    if t == [] {
      assert s + t == s;
    } else {
      assert (s + t)[..|s + t| - 1] == s + t[..|t| - 1];
      AtMostConcat(s, t[..|t| - 1], v);
    }
  }

  lemma AtMostOne(x: real, v: real)
    ensures AtMost([x], v) == if x <= v then 1 else 0
  {
    assert [x][..0] == [];
  }

  lemma InsertedCount(s: seq<real>, p: nat, x: real, v: real)
    requires p <= |s|
    ensures AtMost(s[..p] + [x] + s[p..], v) == AtMost(s, v) + if x <= v then 1 else 0
  {
    AtMostConcat(s[..p] + [x], s[p..], v);
    AtMostConcat(s[..p], [x], v);
    AtMostConcat(s[..p], s[p..], v);
    AtMostOne(x, v);
    assert s[..p] + s[p..] == s;
  }

  method Place(ordered: seq<real>, x: real) returns (p: nat)
    requires Sorted(ordered)
    ensures p <= |ordered|
    ensures forall i :: 0 <= i < p ==> ordered[i] <= x
    ensures forall i :: p <= i < |ordered| ==> x < ordered[i]
  {
    p := |ordered|;
    while p > 0 && x < ordered[p - 1]
      invariant 0 <= p <= |ordered|
      invariant forall i :: p <= i < |ordered| ==> x < ordered[i]
    {
      p := p - 1;
    }
  }

  /** The same number of values at or below any bound. */
  ghost predicate SameCounts(s: seq<real>, t: seq<real>) {
    forall v: real :: AtMost(s, v) == AtMost(t, v)
  }

  lemma InsertedSorted(s: seq<real>, p: nat, x: real, more: seq<real>)
    requires Sorted(s) && p <= |s| && more == s[..p] + [x] + s[p..]
    requires forall i :: 0 <= i < p ==> s[i] <= x
    requires forall i :: p <= i < |s| ==> x < s[i]
    ensures Sorted(more)
  {}

  lemma SameCountsSnoc(s: seq<real>, t: seq<real>, p: nat, x: real, longer: seq<real>)
    requires SameCounts(s, t) && p <= |s| && longer == t + [x]
    ensures SameCounts(s[..p] + [x] + s[p..], longer)
  {
    forall v: real ensures AtMost(s[..p] + [x] + s[p..], v) == AtMost(longer, v) {
      InsertedCount(s, p, x, v);
      AtMostConcat(t, [x], v);
      AtMostOne(x, v);
    }
  }

  ghost predicate SameValues(s: seq<real>, t: seq<real>) {
    |s| == |t| && forall v: real :: v in s <==> v in t
  }

  lemma SameValuesSnoc(s: seq<real>, t: seq<real>, p: nat, x: real, longer: seq<real>)
    requires SameValues(s, t) && p <= |s| && longer == t + [x]
    ensures SameValues(s[..p] + [x] + s[p..], longer)
  {
    assert s[..p] + s[p..] == s;
    forall v: real ensures v in s[..p] + [x] + s[p..] <==> v in longer {
      assert v in s <==> v in s[..p] || v in s[p..];
    }
  }

  /** What the built-in sort gives: in order, the same values equally often. */
  method Sort(values: seq<real>) returns (ordered: seq<real>)
    ensures Sorted(ordered) && SameValues(ordered, values) && SameCounts(ordered, values)
  {
    ordered := [];
    var i := 0;
    while i < |values|
      invariant 0 <= i <= |values|
      invariant Sorted(ordered) && SameValues(ordered, values[..i]) && SameCounts(ordered, values[..i])
    {
      var x := values[i];
      var p := Place(ordered, x);
      ghost var before := ordered;
      ordered := ordered[..p] + [x] + ordered[p..];
      assert values[..i + 1] == values[..i] + [x];
      InsertedSorted(before, p, x, ordered);
      SameValuesSnoc(before, values[..i], p, x, values[..i + 1]);
      SameCountsSnoc(before, values[..i], p, x, values[..i + 1]);
      i := i + 1;
    }
    assert values[..i] == values;
  }

  /** Enough samples lie at or below `v` for it to be the percentile. */
  predicate Reaches(values: seq<real>, v: real, pct: real) {
    AtMost(values, v) as real >= pct / 100.0 * |values| as real
  }

  function ClampedRank(pct: real, n: nat): nat
    requires n > 0
  {
    var rank := Ceil(pct / 100.0 * n as real) - 1;
    if rank < 0 then 0 else if rank > n - 1 then n - 1 else rank
  }

  /** The nearest-rank percentile: one of the samples; at least `pct` per cent of
      them lie at or below it; no smaller sample has that.  Out of range, it is
      the least or the greatest sample. */
  method Percentile(values: seq<real>, pct: real) returns (result: Option<real>)
    ensures result.None? <==> values == []
    ensures result.Some? ==> result.value in values
    ensures result.Some? && pct <= 100.0 ==> Reaches(values, result.value, pct)
    ensures result.Some? && pct > 0.0 ==> forall w :: w in values && w < result.value ==> !Reaches(values, w, pct)
    ensures result.Some? && pct <= 0.0 ==> forall w :: w in values ==> result.value <= w
    ensures result.Some? && pct > 100.0 ==> forall w :: w in values ==> w <= result.value
  {
    if values == [] {
      return None;
    }
    var ordered := Sort(values);
    var idx := ClampedRank(pct, |ordered|);
    PercentileIs(values, ordered, pct, idx);
    result := Some(ordered[idx]);
  }

  /** The rank, one-based and unclamped, against the share it stands for. */
  lemma RankMeans(pct: real, n: nat, idx: nat)
    requires n > 0 && idx == ClampedRank(pct, n)
    ensures idx < n
    ensures pct <= 100.0 ==> (idx + 1) as real >= pct / 100.0 * n as real
    ensures pct > 0.0 ==> (idx as real) < pct / 100.0 * n as real
    ensures pct <= 0.0 ==> idx == 0
    ensures pct > 100.0 ==> idx == n - 1
  {
    Proportion(pct, n);
  }

  lemma PercentileIs(values: seq<real>, ordered: seq<real>, pct: real, idx: nat)
    requires Sorted(ordered) && SameValues(ordered, values) && SameCounts(ordered, values)
    requires values != [] && idx == ClampedRank(pct, |values|)
    ensures idx < |values| && ordered[idx] in values
    ensures pct <= 100.0 ==> Reaches(values, ordered[idx], pct)
    ensures pct > 0.0 ==> forall w :: w in values && w < ordered[idx] ==> !Reaches(values, w, pct)
    ensures pct <= 0.0 ==> forall w :: w in values ==> ordered[idx] <= w
    ensures pct > 100.0 ==> forall w :: w in values ==> w <= ordered[idx]
  {
    RankMeans(pct, |values|, idx);
    RankReaches(values, ordered, pct, idx);
    RankIsLeast(values, ordered, pct, idx);
    forall w | w in values ensures idx == 0 ==> ordered[idx] <= w
                           ensures idx == |values| - 1 ==> w <= ordered[idx] {
      assert w in ordered;
    }
  }

  lemma RankReaches(values: seq<real>, ordered: seq<real>, pct: real, idx: nat)
    requires Sorted(ordered) && SameValues(ordered, values) && SameCounts(ordered, values) && idx < |values|
    ensures ordered[idx] in values
    ensures (idx + 1) as real >= pct / 100.0 * |values| as real ==> Reaches(values, ordered[idx], pct)
  {
    CountsAround(values, ordered, idx, pct / 100.0 * |values| as real);
  }

  lemma RankIsLeast(values: seq<real>, ordered: seq<real>, pct: real, idx: nat)
    requires Sorted(ordered) && SameValues(ordered, values) && SameCounts(ordered, values) && idx < |values|
    ensures idx as real < pct / 100.0 * |values| as real ==>
      forall w :: w in values && w < ordered[idx] ==> !Reaches(values, w, pct)
  {
    CountsAround(values, ordered, idx, pct / 100.0 * |values| as real);
  }

  /** The counts at the place `idx` of the sorted values, against a bar. */
  lemma CountsAround(values: seq<real>, ordered: seq<real>, idx: nat, bar: real)
    requires Sorted(ordered) && SameValues(ordered, values) && SameCounts(ordered, values) && idx < |values|
    ensures ordered[idx] in values
    ensures (idx + 1) as real >= bar ==> AtMost(values, ordered[idx]) as real >= bar
    ensures idx as real < bar ==> forall w :: w in values && w < ordered[idx] ==> AtMost(values, w) as real < bar
  {
    CountAtLeast(ordered, idx);
    assert ordered[idx] in ordered;
    assert AtMost(values, ordered[idx]) == AtMost(ordered, ordered[idx]);
    forall w | w in values && w < ordered[idx] ensures AtMost(values, w) <= idx {
      CountBelow(ordered, idx, w);
      assert AtMost(ordered, w) == AtMost(values, w);
    }
  }

  lemma Proportion(pct: real, n: nat)
    requires n > 0
    ensures pct <= 0.0 ==> pct / 100.0 * n as real <= 0.0
    ensures pct > 0.0 ==> pct / 100.0 * n as real > 0.0
    ensures pct <= 100.0 ==> pct / 100.0 * n as real <= n as real
    ensures pct > 100.0 ==> pct / 100.0 * n as real > n as real
  {}

  lemma {:induction false} CountAtLeast(s: seq<real>, k: nat)
    requires Sorted(s) && k < |s|
    ensures AtMost(s, s[k]) >= k + 1
  {
    AllAtMost(s[..k + 1], s[k]);
    AtMostConcat(s[..k + 1], s[k + 1..], s[k]);
    assert s[..k + 1] + s[k + 1..] == s;
  }

  lemma {:induction false} AllAtMost(s: seq<real>, v: real)
    requires forall i :: 0 <= i < |s| ==> s[i] <= v
    ensures AtMost(s, v) == |s|
  {
    if s != [] {
      AllAtMost(s[..|s| - 1], v);
    }
  }

  lemma {:induction false} NoneAtMost(s: seq<real>, v: real)
    requires forall i :: 0 <= i < |s| ==> v < s[i]
    ensures AtMost(s, v) == 0
  {
    if s != [] {
      NoneAtMost(s[..|s| - 1], v);
    }
  }

  lemma CountBelow(s: seq<real>, k: nat, w: real)
    requires Sorted(s) && k < |s| && w < s[k]
    ensures AtMost(s, w) <= k
  {
    NoneAtMost(s[k..], w);
    AtMostConcat(s[..k], s[k..], w);
    assert s[..k] + s[k..] == s;
    CountWithin(s[..k], w);
  }

  lemma {:induction false} CountWithin(s: seq<real>, w: real)
    ensures AtMost(s, w) <= |s|
  {
    if s != [] {
      CountWithin(s[..|s| - 1], w);
    }
  }
}
