/** Averaging a choice over cyclic shifts of its options, from
    eval/system-one/harness/cyclic_shift_experiment.py.  The model call is a
    function of the ordered options; probabilities are exact reals. */
module CyclicShift {
  import opened Wrappers

  /** The probabilities by position, some of which may be missing. */
  type Scorer = seq<string> -> map<nat, real>

  function Score(f: Scorer, options: seq<string>, j: nat): real {
    if j in f(options) then f(options)[j] else 0.0
  }

  // ----- rotations and sums -----

  /** The item that stands at place `j` after a left shift by `k`. */
  function Source(j: nat, k: nat, n: nat): (i: nat)
    requires j < n && k <= n
    ensures i < n
  {
    if j + k < n then j + k else j + k - n
  }

  /** Where item `i` stands after a left shift by `k`. */
  function Place(i: nat, k: nat, n: nat): (j: nat)
    requires i < n && k <= n
    ensures j < n
    ensures Source(j, k, n) == i
  {
    if k <= i then i - k else i + n - k
  }

  lemma SourceIsRemainder(j: nat, k: nat, n: nat)
    requires j < n && k <= n
    ensures Source(j, k, n) == (j + k) % n
  {
    if j + k >= n {
      assert j + k == 1 * n + (j + k - n);
    }
  }

  function Rotated<T>(s: seq<T>, k: nat): (r: seq<T>)
    requires k <= |s|
    ensures |r| == |s|
    ensures forall j :: 0 <= j < |s| ==> r[j] == s[Source(j, k, |s|)]
  {
    s[k..] + s[..k]
  }

  function Sum(s: seq<real>): real {
    if s == [] then 0.0 else Sum(s[..|s| - 1]) + s[|s| - 1]
  }

  lemma {:induction false} SumConcat(s: seq<real>, t: seq<real>)
    ensures Sum(s + t) == Sum(s) + Sum(t)
  {
    if t == [] {
      assert s + t == s;
    } else {
      assert (s + t)[..|s + t| - 1] == s + t[..|t| - 1];
      SumConcat(s, t[..|t| - 1]);
    }
  }

  lemma SumSwapped(s: seq<real>, t: seq<real>, whole: seq<real>)
    requires whole == s + t
    ensures Sum(t + s) == Sum(whole)
  {
    SumConcat(s, t);
    SumConcat(t, s);
  }

  lemma SumRotated(s: seq<real>, k: nat)
    requires k <= |s|
    ensures Sum(Rotated(s, k)) == Sum(s)
  {
    SumSwapped(s[..k], s[k..], s);
  }

  function Reversed<T>(s: seq<T>): (r: seq<T>)
    ensures |r| == |s|
    ensures forall j :: 0 <= j < |s| ==> r[j] == s[|s| - 1 - j]
  {
    seq(|s|, j requires 0 <= j < |s| => s[|s| - 1 - j])
  }

  lemma {:induction false} SumReversed(s: seq<real>)
    ensures Sum(Reversed(s)) == Sum(s)
  {
    if s != [] {
      var last := [s[|s| - 1]];
      assert Reversed(s) == last + Reversed(s[..|s| - 1]);
      SumConcat(last, Reversed(s[..|s| - 1]));
      SumReversed(s[..|s| - 1]);
      assert last[..0] == [];
      assert Sum(last) == Sum(last[..0]) + last[0];
    }
  }

  // ----- the averages -----

  /** What the call of round `k` gives to answer `i`. */
  function Term(f: Scorer, answers: seq<string>, i: nat, k: nat): real
    requires i < |answers| && k <= |answers|
  {
    Score(f, Rotated(answers, k), Place(i, k, |answers|))
  }

  function Terms(f: Scorer, answers: seq<string>, i: nat, rounds: nat): (t: seq<real>)
    requires i < |answers| && rounds <= |answers|
    ensures |t| == rounds
    ensures forall k :: 0 <= k < rounds ==> t[k] == Term(f, answers, i, k)
  {
    seq(rounds, k requires 0 <= k < rounds => Term(f, answers, i, k))
  }

  /** The mean of what the rounds give to answer `i`. */
  function Average(f: Scorer, answers: seq<string>, i: nat, rounds: nat): real
    requires i < |answers| && 0 < rounds <= |answers|
  {
    Mean(Sum(Terms(f, answers, i, rounds)), rounds)
  }

  function Mean(sum: real, rounds: nat): real
    requires rounds > 0
  {
    sum / rounds as real
  }

  function Min(a: int, b: int): int { if a < b then a else b }

  function Max(a: int, b: int): int { if a < b then b else a }

  method ShiftedIndices(n: nat, k: nat) returns (order: seq<nat>)
    requires k <= n
    ensures |order| == n
    ensures forall j :: 0 <= j < n ==> order[j] == Source(j, k, n)
  {
    forall j | 0 <= j < n ensures (j + k) % n == Source(j, k, n) {
      SourceIsRemainder(j, k, n);
    }
    order := seq(n, j requires 0 <= j < n => (j + k) % n);
  }

  method Arranged(answers: seq<string>, order: seq<nat>, ghost k: nat) returns (options: seq<string>)
    requires |order| == |answers| && k <= |answers|
    requires forall j :: 0 <= j < |order| ==> order[j] == Source(j, k, |order|)
    ensures options == Rotated(answers, k)
  {
    options := seq(|order|, j requires 0 <= j < |order| => answers[order[j]]);
  }

  /** Adds the scores of one call to the totals, each at the index its option came from. */
  method AddRound(f: Scorer, answers: seq<string>, k: nat, totals: array<real>)
    requires totals.Length == |answers| && k <= |answers|
    modifies totals
    ensures forall i :: 0 <= i < |answers| ==> totals[i] == old(totals[i]) + Term(f, answers, i, k)
  {
    var n := |answers|;
    var order := ShiftedIndices(n, k);
    var options := Arranged(answers, order, k);
    var probs := f(options);
    var j := 0;
    while j < n
      invariant 0 <= j <= n
      invariant forall i :: 0 <= i < n ==>
        totals[i] == old(totals[i]) + if Place(i, k, n) < j then Term(f, answers, i, k) else 0.0
    {
      totals[order[j]] := totals[order[j]] + if j in probs then probs[j] else 0.0;
      j := j + 1;
    }
  }

  lemma TermsSnoc(f: Scorer, answers: seq<string>, i: nat, k: nat)
    requires i < |answers| && k < |answers|
    ensures Sum(Terms(f, answers, i, k + 1)) == Sum(Terms(f, answers, i, k)) + Term(f, answers, i, k)
  {
    assert Terms(f, answers, i, k + 1)[..k] == Terms(f, answers, i, k);
  }

  ghost predicate TotalsAfter(f: Scorer, answers: seq<string>, rounds: nat, totals: seq<real>)
    requires rounds <= |answers|
  {
    |totals| == |answers| && forall i :: 0 <= i < |answers| ==> totals[i] == Sum(Terms(f, answers, i, rounds))
  }

  lemma TotalsStep(f: Scorer, answers: seq<string>, k: nat, before: seq<real>, after: seq<real>)
    requires k < |answers| == |after| && TotalsAfter(f, answers, k, before)
    requires forall i :: 0 <= i < |answers| ==> after[i] == before[i] + Term(f, answers, i, k)
    ensures TotalsAfter(f, answers, k + 1, after)
  {
    forall i | 0 <= i < |answers| ensures after[i] == Sum(Terms(f, answers, i, k + 1)) {
      TermsSnoc(f, answers, i, k);
    }
  }

  method DividedBy(totals: array<real>, rounds: int) returns (averages: seq<real>)
    requires totals.Length > 0 ==> rounds != 0
    ensures |averages| == totals.Length
    ensures rounds > 0 ==> forall i :: 0 <= i < totals.Length ==> averages[i] == Mean(totals[i], rounds)
    ensures rounds < 0 ==> forall i :: 0 <= i < totals.Length && totals[i] == 0.0 ==> averages[i] == 0.0
  {
    averages := [];
    var i := 0;
    while i < totals.Length
      invariant 0 <= i <= totals.Length && |averages| == i
      invariant rounds > 0 ==> forall j :: 0 <= j < i ==> averages[j] == Mean(totals[j], rounds)
      invariant rounds < 0 ==> forall j :: 0 <= j < i && totals[j] == 0.0 ==> averages[j] == 0.0
    {
      averages := averages + [totals[i] / rounds as real];
      i := i + 1;
    }
  }

  lemma NoTerms(f: Scorer, answers: seq<string>, i: nat)
    requires i < |answers|
    ensures Sum(Terms(f, answers, i, 0)) == 0.0
  {
    assert Terms(f, answers, i, 0) == [];
  }

  /** The sums over the first `rounds` calls; none for a negative count. */
  method SumRounds(f: Scorer, answers: seq<string>, rounds: int) returns (totals: array<real>)
    requires rounds <= |answers|
    ensures fresh(totals) && TotalsAfter(f, answers, Max(rounds, 0), totals[..])
  {
    totals := new real[|answers|](_ => 0.0);
    forall i | 0 <= i < |answers| ensures Sum(Terms(f, answers, i, 0)) == 0.0 {
      NoTerms(f, answers, i);
    }
    var k := 0;
    while k < rounds
      invariant 0 <= k <= Max(rounds, 0)
      invariant TotalsAfter(f, answers, k, totals[..])
    {
      ghost var before := totals[..];
      AddRound(f, answers, k, totals);
      TotalsStep(f, answers, k, before, totals[..]);
      k := k + 1;
    }
  }

  /** Fails only for a round count of zero with answers present, where Python
      divides by zero.  A negative count averages no rounds and gives zeros. */
  method AveragedProbs(f: Scorer, answers: seq<string>, kMax: int) returns (result: Result<seq<real>, string>)
    ensures result.Err? <==> answers != [] && kMax == 0
    ensures result.Ok? ==> |result.value| == |answers|
    ensures kMax > 0 ==> forall i :: 0 <= i < |answers| ==>
      result.value[i] == Average(f, answers, i, Min(kMax, |answers|))
    ensures kMax < 0 ==> forall i :: 0 <= i < |answers| ==> result.value[i] == 0.0
  {
    var rounds := Min(kMax, |answers|);
    var totals := SumRounds(f, answers, rounds);
    if answers != [] && rounds == 0 {
      return Err("division by zero");
    }
    var averages := DividedBy(totals, rounds);
    forall i | 0 <= i < |answers| ensures Sum(Terms(f, answers, i, 0)) == 0.0 {
      NoTerms(f, answers, i);
    }
    result := Ok(averages);
  }

  // ----- rotating the answers -----

  lemma RotatedTwice(s: seq<string>, r: nat, k: nat)
    requires r < |s| && k < |s|
    ensures Rotated(Rotated(s, r), k) == Rotated(s, Source(k, r, |s|))
  {
    var twice, once := Rotated(Rotated(s, r), k), Rotated(s, Source(k, r, |s|));
    assert forall j :: 0 <= j < |s| ==> twice[j] == once[j];
  }

  lemma TermsRotate(f: Scorer, answers: seq<string>, r: nat, i: nat)
    requires i < |answers| && r < |answers|
    ensures Terms(f, Rotated(answers, r), i, |answers|) == Rotated(Terms(f, answers, Source(i, r, |answers|), |answers|), r)
  {
    var n := |answers|;
    var m := Source(i, r, n);
    forall k | 0 <= k < n ensures Term(f, Rotated(answers, r), i, k) == Term(f, answers, m, Source(k, r, n)) {
      RotatedTwice(answers, r, k);
    }
  }

  /** Over a full set of shifts, rotating the answers rotates the averages: no
      answer gains from where the list starts, whatever the scorer. */
  lemma RotationInvariant(f: Scorer, answers: seq<string>, r: nat, i: nat)
    requires i < |answers| && r < |answers|
    ensures Average(f, Rotated(answers, r), i, |answers|) == Average(f, answers, Source(i, r, |answers|), |answers|)
  {
    var n := |answers|;
    TermsRotate(f, answers, r, i);
    SumRotated(Terms(f, answers, Source(i, r, n), n), r);
  }

  ghost predicate AveragesOf(f: Scorer, answers: seq<string>, rounds: nat, averages: seq<real>)
    requires 0 < rounds <= |answers|
  {
    |averages| == |answers| && forall i :: 0 <= i < |answers| ==> averages[i] == Average(f, answers, i, rounds)
  }

  /** The whole vector turns with the answers. */
  lemma AveragesRotate(f: Scorer, answers: seq<string>, r: nat, averages: seq<real>, rotated: seq<real>)
    requires r < |answers|
    requires AveragesOf(f, answers, |answers|, averages) && AveragesOf(f, Rotated(answers, r), |answers|, rotated)
    ensures rotated == Rotated(averages, r)
  {
    forall i | 0 <= i < |answers| ensures rotated[i] == averages[Source(i, r, |answers|)] {
      RotationInvariant(f, answers, r, i);
    }
  }

  ghost predicate IsTop(averages: seq<real>, i: nat)
    requires i < |averages|
  {
    forall j :: 0 <= j < |averages| ==> averages[j] <= averages[i]
  }

  /** So the answers that score highest stay the same ones. */
  lemma TopAnswersRotate(f: Scorer, answers: seq<string>, r: nat, averages: seq<real>, rotated: seq<real>, i: nat)
    requires i < |answers| && r < |answers|
    requires AveragesOf(f, answers, |answers|, averages) && AveragesOf(f, Rotated(answers, r), |answers|, rotated)
    ensures Rotated(answers, r)[i] == answers[Source(i, r, |answers|)]
    ensures IsTop(rotated, i) <==> IsTop(averages, Source(i, r, |answers|))
  {
    AveragesRotate(f, answers, r, averages, rotated);
    TopTurns(averages, r, i);
  }

  lemma TopTurns(averages: seq<real>, r: nat, i: nat)
    requires i < |averages| && r < |averages|
    ensures IsTop(Rotated(averages, r), i) <==> IsTop(averages, Source(i, r, |averages|))
  {
    var n, rotated := |averages|, Rotated(averages, r);
    if IsTop(rotated, i) {
      forall m | 0 <= m < n ensures averages[m] <= averages[Source(i, r, n)] {
        assert averages[m] == rotated[Place(m, r, n)];
      }
    }
  }

  // ----- the averages of distributions -----

  function Scores(f: Scorer, options: seq<string>): (s: seq<real>)
    ensures |s| == |options|
    ensures forall j :: 0 <= j < |s| ==> s[j] == Score(f, options, j)
  {
    seq(|options|, j requires 0 <= j < |options| => Score(f, options, j))
  }

  function Totals(f: Scorer, answers: seq<string>, rounds: nat): (t: seq<real>)
    requires rounds <= |answers|
    ensures |t| == |answers|
    ensures forall i :: 0 <= i < |t| ==> t[i] == Sum(Terms(f, answers, i, rounds))
  {
    seq(|answers|, i requires 0 <= i < |answers| => Sum(Terms(f, answers, i, rounds)))
  }

  lemma {:induction false} SumPointwise(s: seq<real>, t: seq<real>, both: seq<real>)
    requires |s| == |t| == |both|
    requires forall i :: 0 <= i < |s| ==> both[i] == s[i] + t[i]
    ensures Sum(both) == Sum(s) + Sum(t)
  {
    if s != [] {
      var k := |s| - 1;
      SumPointwise(s[..k], t[..k], both[..k]);
    }
  }

  lemma {:induction false} SumZero(s: seq<real>)
    requires forall i :: 0 <= i < |s| ==> s[i] == 0.0
    ensures Sum(s) == 0.0
  {
    if s != [] {
      SumZero(s[..|s| - 1]);
    }
  }

  lemma MeanAdds(a: real, b: real, n: nat)
    requires n > 0
    ensures Mean(a + b, n) == Mean(a, n) + Mean(b, n)
  {}

  lemma WholeMean(n: nat)
    requires n > 0
    ensures Mean(n as real, n) == 1.0 && Mean(0.0, n) == 0.0
  {}

  lemma {:induction false} SumOfMeans(s: seq<real>, n: nat, means: seq<real>)
    requires n > 0 && |s| == |means|
    requires forall i :: 0 <= i < |s| ==> means[i] == Mean(s[i], n)
    ensures Sum(means) == Mean(Sum(s), n)
  {
    if s == [] {
      WholeMean(n);
    } else {
      var k := |s| - 1;
      SumOfMeans(s[..k], n, means[..k]);
      MeanAdds(Sum(s[..k]), s[k], n);
    }
  }

  /** What the call of round `k` hands out to all the options together. */
  function CallTotal(f: Scorer, answers: seq<string>, k: nat): real
    requires k <= |answers|
  {
    Sum(Scores(f, Rotated(answers, k)))
  }

  /** Each of the calls made hands out a total of one. */
  ghost predicate CallsAddToOne(f: Scorer, answers: seq<string>, rounds: nat)
    requires rounds <= |answers|
  {
    forall k :: 0 <= k < rounds ==> CallTotal(f, answers, k) == 1.0
  }

  /** What round `k` hands out, by answer instead of by place. */
  lemma RoundAddsUp(f: Scorer, answers: seq<string>, k: nat) returns (given: seq<real>)
    requires k < |answers|
    ensures |given| == |answers|
    ensures forall i :: 0 <= i < |given| ==> given[i] == Term(f, answers, i, k)
    ensures Sum(given) == CallTotal(f, answers, k)
  {
    var n := |answers|;
    var scores := Scores(f, Rotated(answers, k));
    given := Rotated(scores, n - k);
    SumRotated(scores, n - k);
  }

  lemma {:induction false} TotalsAddUp(f: Scorer, answers: seq<string>, rounds: nat)
    requires rounds <= |answers| && CallsAddToOne(f, answers, rounds)
    ensures Sum(Totals(f, answers, rounds)) == rounds as real
  {
    if rounds == 0 {
      NoRoundsAddNothing(f, answers);
    } else {
      var k := rounds - 1;
      TotalsAddUp(f, answers, k);
      TotalsSnoc(f, answers, k);
      OneMore(k);
    }
  }

  lemma OneMore(k: nat)
    ensures k as real + 1.0 == (k + 1) as real
  {}

  lemma NoRoundsAddNothing(f: Scorer, answers: seq<string>)
    ensures Sum(Totals(f, answers, 0)) == 0.0
  {
    forall i | 0 <= i < |answers| ensures Totals(f, answers, 0)[i] == 0.0 {
      assert Terms(f, answers, i, 0) == [];
    }
    SumZero(Totals(f, answers, 0));
  }

  lemma TotalsSnoc(f: Scorer, answers: seq<string>, k: nat)
    requires k < |answers|
    ensures Sum(Totals(f, answers, k + 1)) == Sum(Totals(f, answers, k)) + CallTotal(f, answers, k)
  {
    var given := RoundAddsUp(f, answers, k);
    forall i | 0 <= i < |answers| ensures Totals(f, answers, k + 1)[i] == Totals(f, answers, k)[i] + given[i] {
      TermsSnoc(f, answers, i, k);
    }
    SumPointwise(Totals(f, answers, k), given, Totals(f, answers, k + 1));
  }

  /** If every call that is made hands out a total of one, so do the averages, for
      any number of rounds. */
  lemma AveragesSumToOne(f: Scorer, answers: seq<string>, rounds: nat, averages: seq<real>)
    requires 0 < rounds <= |answers| && CallsAddToOne(f, answers, rounds)
    requires |averages| == |answers|
    requires forall i :: 0 <= i < |answers| ==> averages[i] == Average(f, answers, i, rounds)
    ensures Sum(averages) == 1.0
  {
    TotalsAddUp(f, answers, rounds);
    AveragesAreMeans(f, answers, rounds, averages);
    WholeMean(rounds);
  }

  lemma AveragesAreMeans(f: Scorer, answers: seq<string>, rounds: nat, averages: seq<real>)
    requires 0 < rounds <= |answers| == |averages|
    requires forall i :: 0 <= i < |answers| ==> averages[i] == Average(f, answers, i, rounds)
    ensures Sum(averages) == Mean(Sum(Totals(f, answers, rounds)), rounds)
  {
    SumOfMeans(Totals(f, answers, rounds), rounds, averages);
  }

  // ----- what a position bias does -----

  /** A scorer whose score is the quality of the option plus a bias of its position. */
  ghost predicate Biased(f: Scorer, n: nat, quality: string -> real, bias: seq<real>) {
    |bias| == n && forall options: seq<string>, j :: |options| == n && 0 <= j < n ==>
      Score(f, options, j) == quality(options[j]) + bias[j]
  }

  lemma BiasMet(f: Scorer, answers: seq<string>, quality: string -> real, bias: seq<real>, i: nat, k: nat)
    requires Biased(f, |answers|, quality, bias) && i < |answers| && k < |answers|
    ensures Term(f, answers, i, k) == quality(answers[i]) + bias[Place(i, k, |answers|)]
  {
    var n := |answers|;
    assert Rotated(answers, k)[Place(i, k, n)] == answers[i];
  }

  /** An answer meets the positions one after the other, downwards from its own. */
  lemma MetInTurn(bias: seq<real>, i: nat, met: seq<real>)
    requires i < |bias| && |met| == |bias|
    requires forall k :: 0 <= k < |bias| ==> met[k] == bias[Place(i, k, |bias|)]
    ensures met == Rotated(Reversed(bias), |bias| - 1 - i)
  {}

  /** An answer meets every position once. */
  lemma BiasesAddUp(bias: seq<real>, i: nat, met: seq<real>)
    requires i < |bias| && |met| == |bias|
    requires forall k :: 0 <= k < |bias| ==> met[k] == bias[Place(i, k, |bias|)]
    ensures Sum(met) == Sum(bias)
  {
    MetInTurn(bias, i, met);
    SumRotated(Reversed(bias), |bias| - 1 - i);
    SumReversed(bias);
  }

  lemma {:induction false} SumConstant(s: seq<real>, c: real)
    requires forall i :: 0 <= i < |s| ==> s[i] == c
    ensures Sum(s) == |s| as real * c
  {
    if s != [] {
      SumConstant(s[..|s| - 1], c);
      assert (|s| - 1) as real == |s| as real - 1.0;
    }
  }

  lemma BiasedTermsAddUp(f: Scorer, answers: seq<string>, quality: string -> real, bias: seq<real>, i: nat,
                         own: seq<real>, met: seq<real>)
    requires Biased(f, |answers|, quality, bias) && i < |answers| && |own| == |met| == |answers|
    requires forall k :: 0 <= k < |own| ==> own[k] == quality(answers[i])
    requires forall k :: 0 <= k < |met| ==> met[k] == bias[Place(i, k, |met|)]
    ensures Sum(Terms(f, answers, i, |answers|)) == Sum(own) + Sum(met)
  {
    var n := |answers|;
    forall k | 0 <= k < n ensures Terms(f, answers, i, n)[k] == own[k] + met[k] {
      BiasMet(f, answers, quality, bias, i, k);
    }
    SumPointwise(own, met, Terms(f, answers, i, n));
  }

  lemma MeanOfConstant(s: seq<real>, c: real)
    requires |s| > 0 && forall i :: 0 <= i < |s| ==> s[i] == c
    ensures Mean(Sum(s), |s|) == c
  {
    SumConstant(s, c);
  }

  /** Over a full set of shifts an additive position bias cancels: every answer
      scores its own quality plus the same constant. */
  lemma BiasCancels(f: Scorer, answers: seq<string>, quality: string -> real, bias: seq<real>, i: nat)
    requires Biased(f, |answers|, quality, bias) && i < |answers|
    ensures Average(f, answers, i, |answers|) == quality(answers[i]) + Mean(Sum(bias), |answers|)
  {
    var n, q := |answers|, quality(answers[i]);
    var own := seq(n, _ => q);
    var met := seq(n, k requires 0 <= k < n => bias[Place(i, k, n)]);
    BiasedTermsAddUp(f, answers, quality, bias, i, own, met);
    BiasesAddUp(bias, i, met);
    MeanOfBoth(own, q, Sum(bias), Sum(Terms(f, answers, i, n)));
  }

  lemma MeanOfBoth(own: seq<real>, q: real, rest: real, total: real)
    requires |own| > 0 && total == Sum(own) + rest
    requires forall k :: 0 <= k < |own| ==> own[k] == q
    ensures Mean(total, |own|) == q + Mean(rest, |own|)
  {
    MeanOfConstant(own, q);
    MeanAdds(Sum(own), rest, |own|);
  }

  // ----- the answer on top -----

  /** The first place with the greatest average, as Python's `max` over indices gives it. */
  method FirstTop(averages: seq<real>) returns (top: Option<nat>)
    ensures top.None? <==> averages == []
    ensures top.Some? ==> top.value < |averages| && IsFirstTop(averages, top.value)
  {
    if averages == [] {
      return None;
    }
    var best, i := 0, 1;
    while i < |averages|
      invariant 1 <= i <= |averages| && best < i
      invariant IsFirstTop(averages[..i], best)
    {
      if averages[best] < averages[i] {
        best := i;
      }
      i := i + 1;
    }
    assert averages[..i] == averages;
    top := Some(best);
  }

  ghost predicate IsFirstTop(averages: seq<real>, top: nat)
    requires top < |averages|
  {
    && (forall j :: 0 <= j < |averages| ==> averages[j] <= averages[top])
    && (forall j :: 0 <= j < top ==> averages[j] < averages[top])
  }

  ghost predicate Best(answers: seq<string>, quality: string -> real, i: nat)
    requires i < |answers|
  {
    forall j :: 0 <= j < |answers| ==> quality(answers[j]) <= quality(answers[i])
  }

  /** Under an additive bias the answer on top is the first of the best ones. */
  lemma TopIsBest(f: Scorer, answers: seq<string>, quality: string -> real, bias: seq<real>, averages: seq<real>, top: nat)
    requires Biased(f, |answers|, quality, bias) && top < |answers|
    requires AveragesOf(f, answers, |answers|, averages) && IsFirstTop(averages, top)
    ensures Best(answers, quality, top)
    ensures forall j :: 0 <= j < top ==> !Best(answers, quality, j)
  {
    var c := Mean(Sum(bias), |answers|);
    forall j | 0 <= j < |answers| ensures averages[j] == quality(answers[j]) + c {
      BiasCancels(f, answers, quality, bias, j);
    }
    forall j | 0 <= j < top ensures !Best(answers, quality, j) {
      assert averages[j] < averages[top];
    }
  }

  /** With a full set of shifts and an additive bias, reversing the answers flips
      the answer on top exactly when the first and the last of the best answers
      are different texts: only a tie can flip. */
  lemma OnlyTiesFlip(f: Scorer, answers: seq<string>, quality: string -> real, bias: seq<real>,
                     forward: seq<real>, a: nat, backward: seq<real>, b: nat, first: nat, last: nat)
    requires Biased(f, |answers|, quality, bias)
    requires a < |answers| && AveragesOf(f, answers, |answers|, forward) && IsFirstTop(forward, a)
    requires b < |answers| && AveragesOf(f, Reversed(answers), |answers|, backward) && IsFirstTop(backward, b)
    requires first < |answers| && Best(answers, quality, first) && forall j :: 0 <= j < first ==> !Best(answers, quality, j)
    requires last < |answers| && Best(answers, quality, last) && forall j :: last < j < |answers| ==> !Best(answers, quality, j)
    ensures a == first && |answers| - 1 - b == last
    ensures answers[a] != Reversed(answers)[b] <==> answers[first] != answers[last]
  {
    TopIsBest(f, answers, quality, bias, forward, a);
    TopIsBest(f, Reversed(answers), quality, bias, backward, b);
    TopsAtEnds(answers, quality, a, b, first, last);
  }

  /** The first best answer, and the first best one of the reversed answers. */
  lemma TopsAtEnds(answers: seq<string>, quality: string -> real, a: nat, b: nat, first: nat, last: nat)
    requires a < |answers| && Best(answers, quality, a) && forall j :: 0 <= j < a ==> !Best(answers, quality, j)
    requires b < |answers| && Best(Reversed(answers), quality, b)
    requires forall j :: 0 <= j < b ==> !Best(Reversed(answers), quality, j)
    requires first < |answers| && Best(answers, quality, first) && forall j :: 0 <= j < first ==> !Best(answers, quality, j)
    requires last < |answers| && Best(answers, quality, last) && forall j :: last < j < |answers| ==> !Best(answers, quality, j)
    ensures a == first && |answers| - 1 - b == last
    ensures answers[a] != Reversed(answers)[b] <==> answers[first] != answers[last]
  {
    var n := |answers|;
    BestReversed(answers, quality, b);
    BestReversed(answers, quality, n - 1 - last);
  }

  lemma BestReversed(answers: seq<string>, quality: string -> real, j: nat)
    requires j < |answers|
    ensures Best(Reversed(answers), quality, j) <==> Best(answers, quality, |answers| - 1 - j)
  {
    var n, r := |answers|, Reversed(answers);
    forall i | 0 <= i < n ensures r[i] == answers[n - 1 - i] && r[n - 1 - i] == answers[i] {}
    if Best(r, quality, j) {
      forall i | 0 <= i < n ensures quality(answers[i]) <= quality(answers[n - 1 - j]) {
        assert quality(r[n - 1 - i]) <= quality(r[j]);
      }
    }
  }

  // ----- where the claim stops -----

  /** A scorer that knows nothing of the options and takes the first. */
  function TakesFirst(options: seq<string>): map<nat, real> { map[0 := 1.0] }

  function FirstOnly(n: nat): (bias: seq<real>)
    ensures |bias| == n
    ensures forall j :: 0 <= j < n ==> bias[j] == if j == 0 then 1.0 else 0.0
  {
    seq(n, j => if j == 0 then 1.0 else 0.0)
  }

  lemma TakesFirstIsBiased(n: nat)
    ensures Biased(TakesFirst, n, _ => 0.0, FirstOnly(n))
  {}

  /** The scorer that takes the first favours the answers that were first in some round. */
  lemma {:induction false} FirstInARound(answers: seq<string>, i: nat, rounds: nat)
    requires i < |answers| && rounds <= |answers|
    ensures Sum(Terms(TakesFirst, answers, i, rounds)) == if i < rounds then 1.0 else 0.0
  {
    if rounds == 0 {
      NoTerms(TakesFirst, answers, i);
    } else {
      var k := rounds - 1;
      FirstInARound(answers, i, k);
      TermsSnoc(TakesFirst, answers, i, k);
      FirstInTurn(answers, i, k);
    }
  }

  /** In round `k` the first option is answer `k`. */
  lemma FirstInTurn(answers: seq<string>, i: nat, k: nat)
    requires i < |answers| && k < |answers|
    ensures Term(TakesFirst, answers, i, k) == if i == k then 1.0 else 0.0
  {
    assert Place(i, k, |answers|) == 0 <==> i == k;
  }

  lemma PositiveMean(rounds: nat)
    requires rounds > 0
    ensures Mean(1.0, rounds) > 0.0 && Mean(0.0, rounds) == 0.0
  {}

  /** With fewer rounds than answers there is a bias that does not cancel: of answers
      that are all alike, the first comes out above the one that no round put first,
      and turning the list by that many places puts that one first. */
  lemma FewerRoundsKeepTheBias(answers: seq<string>, rounds: nat)
    requires 0 < rounds < |answers|
    ensures Biased(TakesFirst, |answers|, _ => 0.0, FirstOnly(|answers|))
    ensures Average(TakesFirst, answers, 0, rounds) > Average(TakesFirst, answers, rounds, rounds) == 0.0
    ensures Source(0, rounds, |answers|) == rounds
    ensures Average(TakesFirst, Rotated(answers, rounds), 0, rounds) > Average(TakesFirst, answers, rounds, rounds)
  {
    TakesFirstIsBiased(|answers|);
    FirstInARound(answers, 0, rounds);
    FirstInARound(answers, rounds, rounds);
    FirstInARound(Rotated(answers, rounds), 0, rounds);
    PositiveMean(rounds);
  }

  /** Turning the list turns the averages, whatever the scorer, exactly for a full
      set of shifts. */
  lemma InvariantExactlyWhen(answers: seq<string>, rounds: nat)
    requires 0 < rounds <= |answers|
    ensures (forall f: Scorer, r: nat, i: nat :: r < |answers| && i < |answers| ==>
               Average(f, Rotated(answers, r), i, rounds) == Average(f, answers, Source(i, r, |answers|), rounds))
       <==> rounds == |answers|
  {
    if rounds == |answers| {
      forall f: Scorer, r: nat, i: nat | r < |answers| && i < |answers|
        ensures Average(f, Rotated(answers, r), i, rounds) == Average(f, answers, Source(i, r, |answers|), rounds)
      {
        RotationInvariant(f, answers, r, i);
      }
    } else {
      FewerRoundsKeepTheBias(answers, rounds);
    }
  }

  /** Every additive bias adds the same to all answers exactly for a full set of shifts. */
  lemma BiasCancelsExactlyWhen(answers: seq<string>, rounds: nat)
    requires 0 < rounds <= |answers|
    ensures (forall f: Scorer, quality: string -> real, bias: seq<real>, i: nat, j: nat ::
               Biased(f, |answers|, quality, bias) && i < |answers| && j < |answers| ==>
               Average(f, answers, i, rounds) - quality(answers[i]) == Average(f, answers, j, rounds) - quality(answers[j]))
       <==> rounds == |answers|
  {
    if rounds == |answers| {
      forall f: Scorer, quality: string -> real, bias: seq<real>, i: nat, j: nat
        | Biased(f, |answers|, quality, bias) && i < |answers| && j < |answers|
        ensures Average(f, answers, i, rounds) - quality(answers[i]) == Average(f, answers, j, rounds) - quality(answers[j])
      {
        BiasCancels(f, answers, quality, bias, i);
        BiasCancels(f, answers, quality, bias, j);
      }
    } else {
      FewerRoundsKeepTheBias(answers, rounds);
      var quality: string -> real := _ => 0.0;
      assert Biased(TakesFirst, |answers|, quality, FirstOnly(|answers|));
      assert Average(TakesFirst, answers, 0, rounds) - quality(answers[0])
          != Average(TakesFirst, answers, rounds, rounds) - quality(answers[rounds]);
    }
  }
}
