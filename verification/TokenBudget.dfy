/** Token estimates and truncation to a token budget, from
    agent/shared/src/token_budget.rs.  Rates are exact reals. */
module TokenBudget {

  const TOKENS_PER_CJK_CHAR := 0.6
  const TOKENS_PER_LATIN_CHAR := 0.3

  predicate IsCjkChar(c: char) {
    || '\U{4E00}' <= c <= '\U{9FFF}'
    || '\U{3400}' <= c <= '\U{4DBF}'
    || '\U{F900}' <= c <= '\U{FAFF}'
    || '\U{3000}' <= c <= '\U{303F}'
    || '\U{FF00}' <= c <= '\U{FFEF}'
    || '\U{AC00}' <= c <= '\U{D7AF}'
    || '\U{3040}' <= c <= '\U{309F}'
    || '\U{30A0}' <= c <= '\U{30FF}'
  }

  function Clamp(x: real, low: real, high: real): real
    requires low <= high
  {
    if x < low then low else if x > high then high else x
  }

  function Ceil(x: real): int { -((-x).Floor) }

  /** What the text costs before rounding. */
  function Weight(text: string, cjk: real, latin: real): (w: real)
    ensures cjk >= 0.0 && latin >= 0.0 ==> w >= 0.0
  {
    if text == "" then 0.0
    else Weight(text[..|text| - 1], cjk, latin) + if IsCjkChar(text[|text| - 1]) then cjk else latin
  }

  /** The estimate at given rates: the clamped weight, rounded up once. */
  function Tokens(text: string, cjk: real, latin: real): int {
    Ceil(Weight(text, Clamp(cjk, 0.1, 2.0), Clamp(latin, 0.1, 2.0)))
  }

  /** The product form in which the counts are turned into a weight. */
  function Product(count: nat, rate: real): real { count as real * rate }

  lemma CountOne(text: string, i: nat, cjkChars: nat, latinChars: nat, cjk: real, latin: real)
    requires i < |text| && Product(cjkChars, cjk) + Product(latinChars, latin) == Weight(text[..i], cjk, latin)
    ensures IsCjkChar(text[i]) ==> Product(cjkChars + 1, cjk) + Product(latinChars, latin) == Weight(text[..i + 1], cjk, latin)
    ensures !IsCjkChar(text[i]) ==> Product(cjkChars, cjk) + Product(latinChars + 1, latin) == Weight(text[..i + 1], cjk, latin)
  {
    assert text[..i + 1][..i] == text[..i];
  }

  method EstimateTokensWithCharRates(text: string, tokensPerCjkChar: real, tokensPerLatinChar: real) returns (tokens: int)
    ensures tokens == Tokens(text, tokensPerCjkChar, tokensPerLatinChar)
  {
    var cjkRate := Clamp(tokensPerCjkChar, 0.1, 2.0);
    var latinRate := Clamp(tokensPerLatinChar, 0.1, 2.0);
    var cjkChars, latinChars := 0, 0;
    var i := 0;
    assert Product(0, cjkRate) == 0.0 && Product(0, latinRate) == 0.0;
    while i < |text|
      invariant 0 <= i <= |text|
      invariant Product(cjkChars, cjkRate) + Product(latinChars, latinRate) == Weight(text[..i], cjkRate, latinRate)
    {
      CountOne(text, i, cjkChars, latinChars, cjkRate, latinRate);
      if IsCjkChar(text[i]) {
        cjkChars := cjkChars + 1;
      } else {
        latinChars := latinChars + 1;
      }
      i := i + 1;
    }
    assert text[..i] == text;
    tokens := Ceil(Product(cjkChars, cjkRate) + Product(latinChars, latinRate));
  }

  function EstimateTokens(text: string): int { Tokens(text, TOKENS_PER_CJK_CHAR, TOKENS_PER_LATIN_CHAR) }

  // ----- the estimate in numbers -----

  /** The positions of the characters charged at the CJK rate, and of the others. */
  ghost function Places(text: string, cjk: bool): set<int> { set i | 0 <= i < |text| && IsCjkChar(text[i]) == cjk }

  lemma PlacesNext(front: string, c: char, cjk: bool)
    ensures Places(front + [c], cjk) == Places(front, cjk) + if IsCjkChar(c) == cjk then {|front|} else {}
    ensures |front| !in Places(front, cjk)
  {}

  lemma PlacesSnoc(front: string, c: char, cjk: bool)
    ensures |Places(front + [c], cjk)| == |Places(front, cjk)| + if IsCjkChar(c) == cjk then 1 else 0
  {
    PlacesNext(front, c, cjk);
  }

  lemma OneMore(n: nat, rate: real)
    ensures Product(n + 1, rate) == Product(n, rate) + rate
  {}

  /** What the text costs is its CJK characters at their rate and the others at theirs. */
  lemma {:induction false} WeightCounts(text: string, cjk: real, latin: real)
    ensures Weight(text, cjk, latin) == Product(|Places(text, true)|, cjk) + Product(|Places(text, false)|, latin)
  {
    if text == "" {
      assert Places(text, true) == {} && Places(text, false) == {};
    } else {
      var front, c := text[..|text| - 1], text[|text| - 1];
      WeightCounts(front, cjk, latin);
      assert text == front + [c];
      PlacesSnoc(front, c, true);
      PlacesSnoc(front, c, false);
      OneMore(|Places(front, true)|, cjk);
      OneMore(|Places(front, false)|, latin);
    }
  }

  /** At the default rates ten CJK characters make six tokens and ten others three, and
      a started token counts. */
  lemma DefaultEstimate(text: string)
    ensures EstimateTokens(text) == (6 * |Places(text, true)| + 3 * |Places(text, false)| + 9) / 10
  {
    WeightCounts(text, 0.6, 0.3);
    var tenths := 6 * |Places(text, true)| + 3 * |Places(text, false)|;
    assert Weight(text, 0.6, 0.3) == tenths as real / 10.0;
    CeilOfTenths(tenths);
  }

  lemma CeilOfTenths(n: int)
    ensures Ceil(n as real / 10.0) == (n + 9) / 10
  {
    var q := (n + 9) / 10;
    assert 10 * q - 10 < n <= 10 * q;
    assert (q - 1) as real < n as real / 10.0 <= q as real;
  }

  /** Rates out of range count as the nearest one in it, and no others do. */
  lemma ClampedRates(text: string, cjk: real, latin: real)
    ensures cjk <= 0.1 ==> Tokens(text, cjk, latin) == Tokens(text, 0.1, latin)
    ensures cjk >= 2.0 ==> Tokens(text, cjk, latin) == Tokens(text, 2.0, latin)
    ensures latin <= 0.1 ==> Tokens(text, cjk, latin) == Tokens(text, cjk, 0.1)
    ensures latin >= 2.0 ==> Tokens(text, cjk, latin) == Tokens(text, cjk, 2.0)
    ensures 0.1 <= cjk <= 2.0 && 0.1 <= latin <= 2.0 ==>
              var cost := Product(|Places(text, true)|, cjk) + Product(|Places(text, false)|, latin);
              cost <= Tokens(text, cjk, latin) as real < cost + 1.0
  {
    WeightCounts(text, cjk, latin);
  }

  /** The characters at the lower rate are those in these gaps. */
  lemma OtherScripts(c: char)
    ensures !IsCjkChar(c) <==>
      var n := c as int;
      || n < 0x3000 || 0x30FF < n < 0x3400 || 0x4DBF < n < 0x4E00 || 0x9FFF < n < 0xAC00
      || 0xD7AF < n < 0xF900 || 0xFAFF < n < 0xFF00 || 0xFFEF < n
  {}

  // ----- laws of the estimate, at any rates -----

  lemma {:induction false} WeightConcat(a: string, b: string, cjk: real, latin: real)
    ensures Weight(a + b, cjk, latin) == Weight(a, cjk, latin) + Weight(b, cjk, latin)
  {
    if b == "" {
      assert a + b == a;
    } else {
      assert (a + b)[..|a + b| - 1] == a + b[..|b| - 1];
      WeightConcat(a, b[..|b| - 1], cjk, latin);
    }
  }

  /** Splitting a text raises the estimate by at most one: rounding happens once. */
  lemma SplittingRoundsAtMostOnce(a: string, b: string, cjk: real, latin: real)
    ensures Tokens(a, cjk, latin) + Tokens(b, cjk, latin) - 1 <= Tokens(a + b, cjk, latin)
    ensures Tokens(a + b, cjk, latin) <= Tokens(a, cjk, latin) + Tokens(b, cjk, latin)
  {
    WeightConcat(a, b, Clamp(cjk, 0.1, 2.0), Clamp(latin, 0.1, 2.0));
  }

  /** A longer text costs no less, wherever the addition goes. */
  lemma InsertionCostsMore(a: string, inserted: string, b: string, cjk: real, latin: real)
    ensures Tokens(a + b, cjk, latin) <= Tokens(a + inserted + b, cjk, latin)
  {
    var c, l := Clamp(cjk, 0.1, 2.0), Clamp(latin, 0.1, 2.0);
    WeightConcat(a, b, c, l);
    WeightConcat(a, inserted, c, l);
    WeightConcat(a + inserted, b, c, l);
  }

  /** The empty text costs nothing and every other text something, but at most twice its length. */
  lemma {:induction false} CostBounds(text: string, cjk: real, latin: real)
    ensures text == "" <==> Tokens(text, cjk, latin) == 0
    ensures 0 <= Tokens(text, cjk, latin) <= 2 * |text|
  {
    var c, l := Clamp(cjk, 0.1, 2.0), Clamp(latin, 0.1, 2.0);
    WeightBounds(text, c, l);
  }

  lemma {:induction false} WeightBounds(text: string, cjk: real, latin: real)
    requires 0.1 <= cjk <= 2.0 && 0.1 <= latin <= 2.0
    ensures |text| as real * 0.1 <= Weight(text, cjk, latin) <= |text| as real * 2.0
  {
    if text != "" {
      WeightBounds(text[..|text| - 1], cjk, latin);
    }
  }

  // ----- truncation -----

  predicate Fits(text: string, n: nat, marker: string, maxTokens: nat)
    requires n <= |text|
  {
    EstimateTokens(text[..n] + marker) <= maxTokens
  }

  lemma ShorterFits(text: string, m: nat, n: nat, marker: string, maxTokens: nat)
    requires m <= n <= |text| && Fits(text, n, marker, maxTokens)
    ensures Fits(text, m, marker, maxTokens)
  {
    InsertionCostsMore(text[..m], text[m..n], marker, TOKENS_PER_CJK_CHAR, TOKENS_PER_LATIN_CHAR);
    assert text[..m] + text[m..n] == text[..n];
  }

  lemma WholeDoesNotFit(text: string, marker: string, maxTokens: nat)
    requires EstimateTokens(text) > maxTokens
    ensures !Fits(text, |text|, marker, maxTokens)
  {
    InsertionCostsMore(text, marker, "", TOKENS_PER_CJK_CHAR, TOKENS_PER_LATIN_CHAR);
    assert text + marker + "" == text + marker && text + "" == text;
    assert text[..|text|] == text;
  }

  /** A text within budget is kept.  Otherwise, if the marker fits, the result is
      within budget, keeps a proper prefix, and no longer prefix would fit; if the
      marker does not fit, the result is the marker alone. */
  method TruncateToTokenBudget(text: string, maxTokens: nat, marker: string) returns (result: string, ghost kept: nat)
    ensures EstimateTokens(text) <= maxTokens ==> result == text
    ensures EstimateTokens(text) > maxTokens ==> kept < |text| && result == text[..kept] + marker
    ensures EstimateTokens(text) > maxTokens && EstimateTokens(marker) <= maxTokens ==>
      EstimateTokens(result) <= maxTokens
      && forall n: nat :: n <= |text| ==> (Fits(text, n, marker, maxTokens) <==> n <= kept)
    ensures EstimateTokens(text) > maxTokens && EstimateTokens(marker) > maxTokens ==> result == marker
  {
    var whole := EstimateTokensWithCharRates(text, TOKENS_PER_CJK_CHAR, TOKENS_PER_LATIN_CHAR);
    if whole <= maxTokens {
      return text, |text|;
    }
    CostBounds(text, TOKENS_PER_CJK_CHAR, TOKENS_PER_LATIN_CHAR);
    WholeDoesNotFit(text, marker, maxTokens);
    MarkerAlone(text, marker, maxTokens);
    var low, high := 0, |text|;
    while low < high
      invariant 0 <= low <= high <= |text|
      invariant low == 0 || Fits(text, low, marker, maxTokens)
      invariant forall n :: high < n <= |text| ==> !Fits(text, n, marker, maxTokens)
    {
      var mid := (low + high + 1) / 2;
      var candidate := text[..mid] + marker;
      var cost := EstimateTokensWithCharRates(candidate, TOKENS_PER_CJK_CHAR, TOKENS_PER_LATIN_CHAR);
      if cost <= maxTokens {
        low := mid;
      } else {
        forall n | mid <= n <= |text| ensures !Fits(text, n, marker, maxTokens) {
          if Fits(text, n, marker, maxTokens) {
            ShorterFits(text, mid, n, marker, maxTokens);
          }
        }
        high := mid - 1;
      }
    }
    result, kept := text[..low] + marker, low;
    LongestPrefix(text, low, marker, maxTokens);
  }

  lemma MarkerAlone(text: string, marker: string, maxTokens: nat)
    ensures text[..0] + marker == marker
    ensures Fits(text, 0, marker, maxTokens) <==> EstimateTokens(marker) <= maxTokens
  {
    assert text[..0] + marker == marker;
  }

  lemma LongestPrefix(text: string, low: nat, marker: string, maxTokens: nat)
    requires low <= |text| && text != "" && !Fits(text, |text|, marker, maxTokens)
    requires low == 0 || Fits(text, low, marker, maxTokens)
    requires forall n :: low < n <= |text| ==> !Fits(text, n, marker, maxTokens)
    ensures low < |text|
    ensures EstimateTokens(marker) <= maxTokens ==> forall n: nat :: n <= |text| ==> (Fits(text, n, marker, maxTokens) <==> n <= low)
    ensures EstimateTokens(marker) > maxTokens ==> low == 0
  {
    MarkerAlone(text, marker, maxTokens);
    if EstimateTokens(marker) <= maxTokens {
      forall n: nat | n <= low ensures Fits(text, n, marker, maxTokens) {
        ShorterFits(text, n, low, marker, maxTokens);
      }
    } else {
      assert !Fits(text, 0, marker, maxTokens);
      if low > 0 {
        ShorterFits(text, 0, low, marker, maxTokens);
      }
    }
  }
}
