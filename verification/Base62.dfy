/** The fixed-width base-62 codec of agent/shared/src/ids.rs.

    Text is a sequence of characters.  The Rust code walks bytes; a non-ASCII
    character makes every check below fail on either view, so the two agree. */
module Base62 {
  import opened Wrappers
  import opened Order

  const TWO_TO_64: nat := 0x1_0000_0000_0000_0000
  const WIDTH: nat := 11

  /** One base-62 digit of the ordered alphabet `0-9 A-Z a-z`. */
  function Glyph(d: nat): char
    requires d < 62
  {
    if d < 10 then '0' + d as char
    else if d < 36 then 'A' + (d - 10) as char
    else 'a' + (d - 36) as char
  }

  predicate IsDigit(c: char) {
    '0' <= c <= '9' || 'A' <= c <= 'Z' || 'a' <= c <= 'z'
  }

  function DigitOf(c: char): (d: nat)
    requires IsDigit(c)
    ensures d < 62 && Glyph(d) == c
  {
    if c <= '9' then (c - '0') as nat
    else if c <= 'Z' then (c - 'A') as nat + 10
    else (c - 'a') as nat + 36
  }

  lemma GlyphOrdered(d: nat, e: nat)
    requires d < 62 && e < 62
    ensures IsDigit(Glyph(d)) && DigitOf(Glyph(d)) == d
    ensures Glyph(d) < Glyph(e) <==> d < e
  {}

  predicate AllDigits(s: string) {
    forall i :: 0 <= i < |s| ==> IsDigit(s[i])
  }

  // ----- reference semantics -----

  /** The number a digit string denotes, with no width limit. */
  ghost function Value(s: string): nat
    requires AllDigits(s)
  {
    if s == [] then 0 else Value(s[..|s| - 1]) * 62 + DigitOf(s[|s| - 1])
  }

  ghost function Pow62(k: nat): nat {
    if k == 0 then 1 else 62 * Pow62(k - 1)
  }

  /** The low `k` digits of `n`, most significant first. */
  ghost function Digits(n: nat, k: nat): (s: string)
    ensures |s| == k && AllDigits(s)
  {
    if k == 0 then [] else Digits(n / 62, k - 1) + [Glyph(n % 62)]
  }

  ghost function Encoded(n: nat): string {
    Digits(n, WIDTH)
  }

  /** What decoding should give: the value, when the text is one to eleven
      digits and the value is a `u64`. */
  ghost function Decoded(s: string): Option<nat> {
    if 0 < |s| <= WIDTH && AllDigits(s) && Value(s) < TWO_TO_64 then Some(Value(s)) else None
  }

  // ----- the two loops of the source -----

  /** `encode_base62_fixed`: fills eleven slots from the right. */
  method EncodeFixed(value: nat) returns (s: string)
    requires value < TWO_TO_64
    ensures s == Encoded(value)
  {
    var digits := new char[WIDTH](_ => '0');
    var rest := value;
    var slot := WIDTH;
    while slot > 0
      invariant 0 <= slot <= WIDTH && digits.Length == WIDTH
      invariant Encoded(value) == Digits(rest, slot) + digits[slot..]
    {
      slot := slot - 1;
      digits[slot] := Glyph(rest % 62);
      assert digits[slot..] == [Glyph(rest % 62)] + digits[slot + 1..];
      rest := rest / 62;
    }
    s := digits[..];
  }

  /** `decode_base62`: the running result is a `u64` with checked arithmetic,
      so the loop stops at the first bad digit or at the first overflow. */
  method Decode(text: string) returns (r: Option<nat>)
    ensures r == Decoded(text)
  {
    if |text| == 0 || |text| > WIDTH {
      return None;
    }
    var result: nat := 0;
    var i := 0;
    while i < |text|
      invariant 0 <= i <= |text|
      invariant AllDigits(text[..i]) && result == Value(text[..i]) && result < TWO_TO_64
    {
      if !IsDigit(text[i]) {
        assert !AllDigits(text);
        return None;
      }
      var scaled := result * 62;
      if scaled >= TWO_TO_64 || scaled + DigitOf(text[i]) >= TWO_TO_64 {
        if AllDigits(text) {
          assert text[..i + 1][..i] == text[..i];
          assert Value(text[..i + 1]) == scaled + DigitOf(text[i]);
          ValueGrows(text, i + 1);
        }
        return None;
      }
      assert text[..i + 1][..i] == text[..i];
      result := scaled + DigitOf(text[i]);
      i := i + 1;
    }
    assert text[..i] == text;
    r := Some(result);
  }

  lemma {:induction false} ValueGrows(s: string, i: nat)
    requires AllDigits(s) && i <= |s|
    ensures Value(s[..i]) <= Value(s)
  {
    if i == |s| {
      assert s[..i] == s;
    } else {
      ValueGrows(s[..|s| - 1], i);
      assert s[..|s| - 1][..i] == s[..i];
    }
  }

  // ----- bijection -----

  lemma {:induction false} ValueOfDigits(n: nat, k: nat)
    requires n < Pow62(k)
    ensures Value(Digits(n, k)) == n
  {
    if k > 0 {
      ValueOfDigits(n / 62, k - 1);
      GlyphOrdered(n % 62, 0);
      assert Digits(n, k)[..k - 1] == Digits(n / 62, k - 1);
    }
  }

  lemma {:induction false} DigitsOfValue(s: string)
    requires AllDigits(s)
    ensures Digits(Value(s), |s|) == s
    ensures Value(s) < Pow62(|s|)
  {
    if s != [] {
      var front, last := s[..|s| - 1], DigitOf(s[|s| - 1]);
      DigitsOfValue(front);
      assert Value(s) == Value(front) * 62 + last;
      assert Value(s) / 62 == Value(front) && Value(s) % 62 == last;
      assert s == front + [s[|s| - 1]];
    }
  }

  /** Decoding an encoded `u64` gives it back. */
  lemma DecodeEncode(n: nat)
    requires n < TWO_TO_64
    ensures Decoded(Encoded(n)) == Some(n)
  {
    ValueOfDigits(n, WIDTH);
  }

  /** Encoding what an eleven-character string decodes to gives the string back. */
  lemma EncodeDecode(s: string)
    requires |s| == WIDTH && Decoded(s).Some?
    ensures Encoded(Decoded(s).value) == s
  {
    DigitsOfValue(s);
  }

  // ----- order -----

  lemma {:induction false} DigitsOrdered(n: nat, m: nat, k: nat)
    requires n < Pow62(k) && m < Pow62(k)
    ensures Less(Digits(n, k), Digits(m, k)) <==> n < m
    ensures Digits(n, k) == Digits(m, k) <==> n == m
  {
    ValueOfDigits(n, k);
    ValueOfDigits(m, k);
    if k == 0 {
      LessIrreflexive([]);
    } else {
      DigitsOrdered(n / 62, m / 62, k - 1);
      GlyphOrdered(n % 62, m % 62);
      LessSnoc(Digits(n / 62, k - 1), Digits(m / 62, k - 1), Glyph(n % 62), Glyph(m % 62));
    }
  }

  /** String order of the encodings is number order. */
  lemma EncodeOrdered(n: nat, m: nat)
    requires n < TWO_TO_64 && m < TWO_TO_64
    ensures Less(Encoded(n), Encoded(m)) <==> n < m
    ensures Encoded(n) == Encoded(m) <==> n == m
  {
    DigitsOrdered(n, m, WIDTH);
  }
}
