/** Conversions between byte offsets, character positions and display columns, and
    slicing by character, from agent/shared/src/string_idx.rs.  A string is its
    characters; its bytes are their UTF-8 forms (section 3 of RFC 3629).  The
    display width of a character is any function. */
module StringIdx {
  import opened Wrappers

  // ----- UTF-8 -----

  function Utf8(c: char): (bytes: seq<int>)
    ensures 1 <= |bytes| <= 4
    ensures !IsContinuation(bytes[0])
    ensures forall i :: 1 <= i < |bytes| ==> IsContinuation(bytes[i])
  {
    var n := c as int;
    if n < 0x80 then [n]
    else if n < 0x800 then [0xC0 + n / 64, 0x80 + n % 64]
    else if n < 0x1_0000 then [0xE0 + n / 4096, 0x80 + n / 64 % 64, 0x80 + n % 64]
    else [0xF0 + n / 262144, 0x80 + n / 4096 % 64, 0x80 + n / 64 % 64, 0x80 + n % 64]
  }

  predicate IsContinuation(byte: int) { 0x80 <= byte < 0xC0 }

  function Utf8Len(c: char): nat { |Utf8(c)| }

  function Encoded(s: string, form: char -> seq<int>): seq<int> {
    if s == "" then [] else Encoded(s[..|s| - 1], form) + form(s[|s| - 1])
  }

  function Bytes(s: string): seq<int> { Encoded(s, Utf8) }

  lemma {:induction false} EncodedConcat(a: string, b: string, form: char -> seq<int>)
    ensures Encoded(a + b, form) == Encoded(a, form) + Encoded(b, form)
  {
    if b == "" {
      assert a + b == a;
    } else {
      assert (a + b)[..|a + b| - 1] == a + b[..|b| - 1];
      EncodedConcat(a, b[..|b| - 1], form);
    }
  }

  lemma Digits(n: nat)
    ensures n == 64 * (n / 64) + n % 64
    ensures n / 64 / 64 == n / 4096 && n / 4096 / 64 == n / 262144
  {}

  /** What the form of a code point says, by its length. */
  ghost predicate Carries(n: int, b: seq<int>) {
    match |b|
    case 1 => b[0] == n
    case 2 => 0xC2 <= b[0] <= 0xDF && n == 64 * (b[0] - 0xC0) + (b[1] - 0x80)
    case 3 => 0xE0 <= b[0] <= 0xEF && n == 4096 * (b[0] - 0xE0) + 64 * (b[1] - 0x80) + (b[2] - 0x80)
    case 4 => 0xF0 <= b[0] <= 0xF4
              && n == 262144 * (b[0] - 0xF0) + 4096 * (b[1] - 0x80) + 64 * (b[2] - 0x80) + (b[3] - 0x80)
    case _ => false
  }

  /** The forms of RFC 3629: lead and continuation bytes carry the bits of the code point,
      and the lead byte tells the length. */
  lemma Utf8Carries(c: char)
    ensures |Utf8(c)| == (if c as int < 0x80 then 1 else if c as int < 0x800 then 2 else if c as int < 0x1_0000 then 3 else 4)
    ensures Carries(c as int, Utf8(c))
  {
    var n := c as int;
    Digits(n);
    Digits(n / 64);
    Digits(n / 4096);
  }

  lemma SameForm(c: char, d: char)
    ensures Utf8(c) == Utf8(d) ==> c == d
  {
    Utf8Carries(c);
    Utf8Carries(d);
  }

  lemma TailStarts(a: seq<int>, x: seq<int>, b: seq<int>, y: seq<int>)
    requires a + x == b + y
    ensures 0 < |x| < |y| ==> x[0] == y[|y| - |x|]
  {
    if 0 < |x| < |y| {
      assert (a + x)[|a|] == x[0] && (b + y)[|a|] == y[|y| - |x|];
    }
  }

  /** No two strings have the same bytes. */
  lemma {:induction false} BytesDetermine(s: string, t: string)
    ensures Bytes(s) == Bytes(t) ==> s == t
  {
    if Bytes(s) == Bytes(t) && s != "" && t != "" {
      var a, x := Bytes(s[..|s| - 1]), Utf8(s[|s| - 1]);
      var b, y := Bytes(t[..|t| - 1]), Utf8(t[|t| - 1]);
      TailStarts(a, x, b, y);
      TailStarts(b, y, a, x);
      assert (a + x)[..|a|] == a && (a + x)[|a|..] == x && (b + y)[..|b|] == b && (b + y)[|b|..] == y;
      SameForm(s[|s| - 1], t[|t| - 1]);
      BytesDetermine(s[..|s| - 1], t[..|t| - 1]);
    }
  }

  // ----- offsets, in bytes or in columns -----

  /** How far the first `k` characters reach. */
  function Offset(s: string, size: char -> nat, k: nat): nat
    requires k <= |s|
  {
    if k == 0 then 0 else Offset(s, size, k - 1) + size(s[k - 1])
  }

  lemma {:induction false} OffsetGrows(s: string, size: char -> nat, j: nat, k: nat)
    requires j <= k <= |s|
    ensures Offset(s, size, j) <= Offset(s, size, k)
    ensures (forall c :: size(c) > 0) ==> Offset(s, size, j) + (k - j) <= Offset(s, size, k)
    decreases k
  {
    if j < k {
      OffsetGrows(s, size, j, k - 1);
    }
  }

  lemma {:induction false} OffsetOfPrefix(s: string, size: char -> nat, n: nat, k: nat)
    requires k <= n <= |s|
    ensures Offset(s[..n], size, k) == Offset(s, size, k)
  {
    if k > 0 {
      OffsetOfPrefix(s, size, n, k - 1);
    }
  }

  lemma {:induction false} PrefixBytes(s: string, k: nat)
    requires k <= |s|
    ensures |Bytes(s[..k])| == Offset(s, Utf8Len, k)
  {
    if k > 0 {
      assert s[..k][..k - 1] == s[..k - 1];
      PrefixBytes(s, k - 1);
    }
  }

  function Min(a: nat, b: nat): nat { if a < b then a else b }

  // ----- characters and bytes -----

  /** The byte offsets at which the characters start. */
  function CharIndices(s: string): (indices: seq<nat>)
    ensures |indices| == |s| && forall k :: 0 <= k < |s| ==> indices[k] == Offset(s, Utf8Len, k)
  {
    seq(|s|, k requires 0 <= k < |s| => Offset(s, Utf8Len, k))
  }

  function CharToByte(s: string, c: nat): nat {
    if c < |s| then CharIndices(s)[c] else |Bytes(s)|
  }

  /** How many of the leading numbers are below `b`. */
  function CountBelow(indices: seq<nat>, b: nat): (n: nat)
    ensures n <= |indices|
    ensures forall i :: 0 <= i < n ==> indices[i] < b
    ensures n < |indices| ==> indices[n] >= b
  {
    if indices == [] || indices[0] >= b then 0 else 1 + CountBelow(indices[1..], b)
  }

  function ByteToChar(s: string, b: nat): nat {
    if b >= |Bytes(s)| then |s| else CountBelow(CharIndices(s), b)
  }

  lemma CharToByteIsOffset(s: string, k: nat)
    ensures CharToByte(s, k) == Offset(s, Utf8Len, Min(k, |s|))
  {
    PrefixBytes(s, |s|);
    assert s[..|s|] == s;
  }

  /** The two conversions are an adjoint pair. */
  lemma ByteAdjunction(s: string, b: nat, k: nat)
    requires b <= |Bytes(s)|
    ensures ByteToChar(s, b) <= k <==> b <= CharToByte(s, k)
  {
    var n := ByteToChar(s, b);
    CharToByteIsOffset(s, k);
    CharToByteIsOffset(s, |s|);
    if k < n {
      OffsetGrows(s, Utf8Len, k, n - 1);
      if b == |Bytes(s)| {
        OffsetGrows(s, Utf8Len, k, |s|);
      } else {
        assert CharIndices(s)[n - 1] < b;
      }
    } else {
      OffsetGrows(s, Utf8Len, n, |s|);
      if k < |s| {
        OffsetGrows(s, Utf8Len, n, k);
      }
    }
  }

  lemma BytesGrow(s: string, j: nat, k: nat)
    requires j < k <= |s|
    ensures Offset(s, Utf8Len, j) < Offset(s, Utf8Len, k)
  {
    OffsetGrows(s, Utf8Len, j, k);
  }

  /** From a character to its byte and back is where one started, or the end. */
  lemma CharByteChar(s: string, k: nat)
    ensures ByteToChar(s, CharToByte(s, k)) == Min(k, |s|)
  {
    var b, m := CharToByte(s, k), Min(k, |s|);
    var n := ByteToChar(s, b);
    CharToByteIsOffset(s, k);
    CharToByteIsOffset(s, m);
    CharToByteIsOffset(s, n);
    BytesAtMost(s, m);
    ByteAdjunction(s, b, m);
    ByteAdjunction(s, b, n);
    if n < m {
      BytesGrow(s, n, m);
    }
  }

  lemma BytesAtMost(s: string, m: nat)
    requires m <= |s|
    ensures Offset(s, Utf8Len, m) <= |Bytes(s)|
  {
    CharToByteIsOffset(s, |s|);
    OffsetGrows(s, Utf8Len, m, |s|);
  }

  // ----- boundaries -----

  /** The standard library's test: not in the middle of a character. */
  predicate IsCharBoundary(bytes: seq<int>, b: nat) {
    b == |bytes| || (b < |bytes| && !IsContinuation(bytes[b]))
  }

  /** A character starts, or the string ends, at byte `b`. */
  ghost predicate IsOffset(s: string, b: nat) {
    exists k: nat :: k <= |s| && Offset(s, Utf8Len, k) == b
  }

  lemma OffsetBy(s: string, k: nat, b: nat)
    requires k <= |s| && Offset(s, Utf8Len, k) == b
    ensures IsOffset(s, b)
  {}

  lemma OffsetStays(s: string, b: nat)
    requires s != "" && IsOffset(s[..|s| - 1], b)
    ensures IsOffset(s, b)
  {
    var front := s[..|s| - 1];
    var k: nat :| k <= |front| && Offset(front, Utf8Len, k) == b;
    OffsetOfPrefix(s, Utf8Len, |front|, k);
    OffsetBy(s, k, b);
  }

  lemma OffsetIsOldOrLast(s: string, b: nat)
    requires s != "" && IsOffset(s, b)
    ensures IsOffset(s[..|s| - 1], b) || b == Offset(s, Utf8Len, |s|)
  {
    var k: nat :| k <= |s| && Offset(s, Utf8Len, k) == b;
    if k < |s| {
      OffsetOfPrefix(s, Utf8Len, |s| - 1, k);
      OffsetBy(s[..|s| - 1], k, b);
    }
  }

  lemma LastIsOffset(s: string)
    ensures IsOffset(s, Offset(s, Utf8Len, |s|))
  {}

  /** One more character adds one offset. */
  lemma OffsetsSnoc(s: string, b: nat)
    requires s != ""
    ensures IsOffset(s, b) <==> IsOffset(s[..|s| - 1], b) || b == Offset(s, Utf8Len, |s|)
  {
    LastIsOffset(s);
    if IsOffset(s, b) {
      OffsetIsOldOrLast(s, b);
    }
    if IsOffset(s[..|s| - 1], b) {
      OffsetStays(s, b);
    }
  }

  /** The test on bytes finds exactly the starts of the characters, and the end. */
  lemma {:induction false} BoundariesAreOffsets(s: string, b: nat)
    ensures IsCharBoundary(Bytes(s), b) <==> IsOffset(s, b)
  {
    CharToByteIsOffset(s, |s|);
    if s == "" {
      assert Offset(s, Utf8Len, 0) == 0;
    } else {
      var front := s[..|s| - 1];
      BoundariesAreOffsets(front, b);
      OffsetsSnoc(s, b);
      BoundariesSnoc(Bytes(front), Utf8(s[|s| - 1]), b);
    }
  }

  lemma BoundariesSnoc(bytes: seq<int>, more: seq<int>, b: nat)
    requires more != [] && !IsContinuation(more[0]) && forall i :: 1 <= i < |more| ==> IsContinuation(more[i])
    ensures IsCharBoundary(bytes + more, b) <==> IsCharBoundary(bytes, b) || b == |bytes + more|
  {
    if |bytes| <= b < |bytes + more| {
      assert (bytes + more)[b] == more[b - |bytes|];
    }
  }

  /** A byte slice, or nothing where Rust panics. */
  function BSlice(s: string, start: nat, end: nat): Option<seq<int>> {
    var bytes := Bytes(s);
    if start <= end <= |bytes| && IsCharBoundary(bytes, start) && IsCharBoundary(bytes, end)
    then Some(bytes[start..end]) else None
  }

  function CSlice(s: string, start: nat, end: nat): Option<seq<int>> {
    BSlice(s, CharToByte(s, start), CharToByte(s, end))
  }

  lemma Middle(a: seq<int>, b: seq<int>, c: seq<int>)
    ensures (a + b + c)[|a|..|a + b|] == b
  {}

  lemma SliceOfParts(a: string, b: string, c: string)
    ensures |Bytes(a)| <= |Bytes(a + b)| <= |Bytes(a + b + c)|
    ensures Bytes(a + b + c)[|Bytes(a)|..|Bytes(a + b)|] == Bytes(b)
  {
    EncodedConcat(a, b, Utf8);
    EncodedConcat(a + b, c, Utf8);
    Middle(Bytes(a), Bytes(b), Bytes(c));
  }

  lemma StartOffset(s: string, start: string)
    requires start <= s
    ensures |Bytes(start)| == Offset(s, Utf8Len, |start|)
  {
    assert s[..|start|] == start;
    PrefixBytes(s, |start|);
  }

  lemma SliceBytes(s: string, i: nat, j: nat)
    requires i <= j <= |s|
    ensures Offset(s, Utf8Len, i) <= Offset(s, Utf8Len, j) <= |Bytes(s)|
    ensures Bytes(s)[Offset(s, Utf8Len, i)..Offset(s, Utf8Len, j)] == Bytes(s[i..j])
  {
    var a, b, c := s[..i], s[i..j], s[j..];
    assert a + b + c == s;
    SliceOfParts(a, b, c);
    StartOffset(s, a);
    StartOffset(s, a + b);
  }

  /** Slicing by character gives the bytes of the slice of characters, positions
      past the end counting as the end; it never cuts a character, and panics
      exactly when the start lies behind the end. */
  lemma CSliceIsCharacterSlice(s: string, start: nat, end: nat)
    ensures CSlice(s, start, end) ==
      if Min(start, |s|) <= Min(end, |s|) then Some(Bytes(s[Min(start, |s|)..Min(end, |s|)])) else None
  {
    var i, j := Min(start, |s|), Min(end, |s|);
    CharToByteIsOffset(s, start);
    CharToByteIsOffset(s, end);
    if i <= j {
      SliceBytes(s, i, j);
      BoundariesAreOffsets(s, Offset(s, Utf8Len, i));
      BoundariesAreOffsets(s, Offset(s, Utf8Len, j));
    } else {
      OffsetGrows(s, Utf8Len, j, i);
    }
  }

  lemma ByteBackTo(s: string, b: nat)
    requires b <= |Bytes(s)|
    ensures CharToByte(s, ByteToChar(s, b)) >= b
    ensures CharToByte(s, ByteToChar(s, b)) == b <==> IsOffset(s, b)
  {
    var n := ByteToChar(s, b);
    ByteAdjunction(s, b, n);
    CharToByteIsOffset(s, n);
    if IsOffset(s, b) {
      var k: nat :| k <= |s| && Offset(s, Utf8Len, k) == b;
      CharToByteIsOffset(s, k);
      CharByteChar(s, k);
    }
  }

  /** From a byte to its character and back is where one started exactly on a boundary. */
  lemma ByteCharByte(s: string, b: nat)
    requires b <= |Bytes(s)|
    ensures CharToByte(s, ByteToChar(s, b)) >= b
    ensures CharToByte(s, ByteToChar(s, b)) == b <==> IsCharBoundary(Bytes(s), b)
  {
    ByteBackTo(s, b);
    BoundariesAreOffsets(s, b);
  }

  // ----- characters and columns -----

  /** The last character position whose column does not pass `c`. */
  method ColToChar(s: string, width: char -> nat, c: nat) returns (k: nat)
    ensures k == ColumnChar(s, width, c)
  {
    var reach := 0;
    var i := 0;
    while i < |s|
      invariant 0 <= i <= |s|
      invariant reach == Offset(s, width, i) <= c
    {
      var w := width(s[i]);
      if reach + w > c {
        ColumnCharIs(s, width, c, i);
        return i;
      }
      reach := reach + w;
      i := i + 1;
    }
    ColumnCharIs(s, width, c, i);
    k := i;
  }

  method CharToCol(s: string, width: char -> nat, k: nat) returns (col: nat)
    ensures col == CharColumn(s, width, k)
  {
    col := 0;
    var i := 0;
    while i < |s|
      invariant 0 <= i <= |s| && i <= k
      invariant col == Offset(s, width, i)
    {
      if i >= k {
        break;
      }
      col := col + width(s[i]);
      i := i + 1;
    }
  }

  function CharColumn(s: string, width: char -> nat, k: nat): nat { Offset(s, width, Min(k, |s|)) }

  /** How many characters fit into `c` columns. */
  function ColumnChar(s: string, width: char -> nat, c: nat): (k: nat)
    ensures k <= |s| && Offset(s, width, k) <= c
    ensures k < |s| ==> Offset(s, width, k + 1) > c
  {
    LastFitting(s, width, c, |s|)
  }

  function LastFitting(s: string, width: char -> nat, c: nat, k: nat): (n: nat)
    requires k <= |s| && (k < |s| ==> Offset(s, width, k + 1) > c)
    ensures n <= |s| && Offset(s, width, n) <= c
    ensures n < |s| ==> Offset(s, width, n + 1) > c
  {
    if k == 0 || Offset(s, width, k) <= c then k else LastFitting(s, width, c, k - 1)
  }

  lemma ColumnCharIs(s: string, width: char -> nat, c: nat, k: nat)
    requires k <= |s| && Offset(s, width, k) <= c && (k < |s| ==> Offset(s, width, k + 1) > c)
    ensures ColumnChar(s, width, c) == k
  {
    var n := ColumnChar(s, width, c);
    if n < k {
      OffsetGrows(s, width, n + 1, k);
    } else if k < n {
      OffsetGrows(s, width, k + 1, n);
    }
  }

  /** The two conversions are an adjoint pair, even where characters have no width. */
  lemma ColumnAdjunction(s: string, width: char -> nat, k: nat, c: nat)
    requires k <= |s|
    ensures CharColumn(s, width, k) <= c <==> k <= ColumnChar(s, width, c)
  {
    var n := ColumnChar(s, width, c);
    if k <= n {
      OffsetGrows(s, width, k, n);
    } else {
      OffsetGrows(s, width, n + 1, k);
    }
  }

  /** From a character to its column and back skips the characters of no width that
      follow: it is where one started exactly at the end or before one with a width. */
  lemma CharColumnChar(s: string, width: char -> nat, k: nat)
    requires k <= |s|
    ensures ColumnChar(s, width, CharColumn(s, width, k)) >= k
    ensures ColumnChar(s, width, CharColumn(s, width, k)) == k <==> k == |s| || width(s[k]) > 0
  {
    var c := CharColumn(s, width, k);
    ColumnAdjunction(s, width, k, c);
    if k < |s| {
      ColumnAdjunction(s, width, k + 1, c);
    }
  }
}
