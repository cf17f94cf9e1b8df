/** The tokenizer of eval/system-one/harness/lexical_baseline.py.  Lower-casing is any
    function, and which characters are letters or digits is any predicate. */
module Tokenizer {

  predicate IsHan(c: char) {
    var n := c as int;
    || 0x3400 <= n <= 0x4DBF || 0x4E00 <= n <= 0x9FFF
    || 0xF900 <= n <= 0xFAFF || 0x2_0000 <= n <= 0x2_A6DF
    || 0x2_A700 <= n <= 0x2_B73F || 0x2_B740 <= n <= 0x2_B81F
    || 0x2_B820 <= n <= 0x2_CEAF || 0x2_CEB0 <= n <= 0x2_EBEF
    || 0x3_0000 <= n <= 0x3_134F
  }

  datatype Kind = Han | Letter | Separator

  type Kinds = char -> Kind

  /** Han characters first, as the loop tests them first. */
  function KindsBy(alnum: char -> bool): Kinds {
    c => if IsHan(c) then Han else if alnum(c) then Letter else Separator
  }

  /** `str.lower` and `str.isalnum`. */
  datatype Reader = Reader(lower: string -> string, alnum: char -> bool)

  // ----- tokens, run by run -----

  /** The overlapping pairs of a run, a single character standing for itself. */
  function Pairs(run: string): (terms: seq<string>)
    requires run != ""
    ensures |terms| == if |run| == 1 then 1 else |run| - 1
  {
    if |run| == 1 then [run] else seq(|run| - 1, i requires 0 <= i < |run| - 1 => run[i..i + 2])
  }

  /** The terms of one run of Han characters or of letters. */
  function TermsOf(run: string, kind: Kind): seq<string> {
    if run == "" || kind == Separator then [] else if kind == Han then Pairs(run) else [run]
  }

  /** The tokens of the run so far, of the given kind, and of what follows it. */
  function TokensAfter(run: string, kind: Kind, rest: string, kinds: Kinds): seq<string>
    decreases |rest|
  {
    if rest == "" then TermsOf(run, kind)
    else if kinds(rest[0]) == kind then TokensAfter(run + [rest[0]], kind, rest[1..], kinds)
    else TermsOf(run, kind) + TokensAfter([rest[0]], kinds(rest[0]), rest[1..], kinds)
  }

  function Tokens(text: string, kinds: Kinds): seq<string> { TokensAfter("", Separator, text, kinds) }

  /** The tokens of a text as it is read. */
  function Terms(text: string, reader: Reader): seq<string> { Tokens(reader.lower(text), KindsBy(reader.alnum)) }

  ghost predicate AllOf(run: string, kind: Kind, kinds: Kinds) {
    forall i :: 0 <= i < |run| ==> kinds(run[i]) == kind
  }

  ghost predicate Stops(rest: string, kind: Kind, kinds: Kinds) {
    rest == "" || kinds(rest[0]) != kind
  }

  lemma AfterSame(run: string, kind: Kind, c: char, rest: string, kinds: Kinds)
    requires kinds(c) == kind
    ensures TokensAfter(run, kind, [c] + rest, kinds) == TokensAfter(run + [c], kind, rest, kinds)
  {
    assert ([c] + rest)[1..] == rest;
  }

  lemma AfterOther(run: string, kind: Kind, c: char, rest: string, kinds: Kinds)
    requires kinds(c) != kind
    ensures TokensAfter(run, kind, [c] + rest, kinds) == TermsOf(run, kind) + TokensAfter([c], kinds(c), rest, kinds)
  {
    assert ([c] + rest)[1..] == rest;
  }

  /** The separators read so far do not matter. */
  lemma {:induction false} SeparatorsForgotten(run: string, rest: string, kinds: Kinds)
    ensures TokensAfter(run, Separator, rest, kinds) == Tokens(rest, kinds)
    decreases |rest|
  {
    if rest != "" && kinds(rest[0]) == Separator {
      SeparatorsForgotten(run + [rest[0]], rest[1..], kinds);
      SeparatorsForgotten("" + [rest[0]], rest[1..], kinds);
    }
  }

  /** A run goes on while its kind does. */
  lemma {:induction false} RunGoesOn(run: string, kind: Kind, more: string, rest: string, kinds: Kinds)
    requires AllOf(more, kind, kinds)
    ensures TokensAfter(run, kind, more + rest, kinds) == TokensAfter(run + more, kind, rest, kinds)
    decreases |more|
  {
    if more == "" {
      assert more + rest == rest && run + more == run;
    } else {
      var c, tail := more[0], more[1..];
      var left, longer, whole := tail + rest, run + [c], run + more;
      assert more + rest == [c] + left && longer + tail == whole;
      AfterSame(run, kind, c, left, kinds);
      RunGoesOn(longer, kind, tail, rest, kinds);
    }
  }

  /** A run is over where its kind stops, and starts afresh there. */
  lemma RunStops(run: string, kind: Kind, rest: string, kinds: Kinds)
    requires Stops(rest, kind, kinds)
    ensures TokensAfter(run, kind, rest, kinds) == TermsOf(run, kind) + Tokens(rest, kinds)
  {
    if rest != "" {
      var c, tail := rest[0], rest[1..];
      assert rest == [c] + tail;
      AfterOther(run, kind, c, tail, kinds);
      if kinds(c) == Separator {
        AfterSame("", Separator, c, tail, kinds);
        assert "" + [c] == [c];
      } else {
        AfterOther("", Separator, c, tail, kinds);
      }
    }
  }

  /** The tokens of a text are those of its longest runs, one after the other:
      a run that ends where its kind does gives its own terms first. */
  lemma RunsInTurn(run: string, kind: Kind, rest: string, kinds: Kinds)
    requires run != "" && AllOf(run, kind, kinds) && Stops(rest, kind, kinds)
    ensures Tokens(run + rest, kinds) == TermsOf(run, kind) + Tokens(rest, kinds)
  {
    var c, more := run[0], run[1..];
    assert run + rest == [c] + (more + rest) && [c] + more == run && "" + [c] == [c];
    if kind == Separator {
      AfterSame("", Separator, c, more + rest, kinds);
    } else {
      AfterOther("", Separator, c, more + rest, kinds);
    }
    RunGoesOn([c], kind, more, rest, kinds);
    RunStops(run, kind, rest, kinds);
  }

  /** A separator splits the work: the tokens of the whole are those of the parts. */
  lemma SeparatorSplits(a: string, c: char, b: string, kinds: Kinds)
    requires kinds(c) == Separator
    ensures Tokens(a + [c] + b, kinds) == Tokens(a, kinds) + Tokens(b, kinds)
  {
    SplitAfter("", Separator, a, c, b, kinds);
  }

  lemma {:induction false} SplitAfter(run: string, kind: Kind, a: string, c: char, b: string, kinds: Kinds)
    requires kinds(c) == Separator
    ensures TokensAfter(run, kind, a + [c] + b, kinds) == TokensAfter(run, kind, a, kinds) + Tokens(b, kinds)
    decreases |a|
  {
    if a == "" {
      assert a + [c] + b == [c] + b;
      if kind == Separator {
        AfterSame(run, kind, c, b, kinds);
        SeparatorsForgotten(run + [c], b, kinds);
      } else {
        AfterOther(run, kind, c, b, kinds);
        SeparatorsForgotten([c], b, kinds);
      }
    } else {
      var h, tail := a[0], a[1..];
      assert a + [c] + b == [h] + (tail + [c] + b) && a == [h] + tail;
      if kinds(h) == kind {
        AfterSame(run, kind, h, tail + [c] + b, kinds);
        AfterSame(run, kind, h, tail, kinds);
        SplitAfter(run + [h], kind, tail, c, b, kinds);
      } else {
        AfterOther(run, kind, h, tail + [c] + b, kinds);
        AfterOther(run, kind, h, tail, kinds);
        SplitAfter([h], kinds(h), tail, c, b, kinds);
      }
    }
  }

  // ----- the terms of one run -----

  /** A run of letters is one term.  A run of Han characters is its overlapping pairs:
      term `i` is character `i` with the next one; a single character is its own term. */
  lemma RunIs(run: string, kinds: Kinds)
    requires run != ""
    ensures AllOf(run, Letter, kinds) ==> Tokens(run, kinds) == [run]
    ensures AllOf(run, Han, kinds) && |run| == 1 ==> Tokens(run, kinds) == [run]
    ensures AllOf(run, Han, kinds) && |run| > 1 ==>
      && |Tokens(run, kinds)| == |run| - 1
      && forall i :: 0 <= i < |run| - 1 ==> Tokens(run, kinds)[i] == [run[i], run[i + 1]]
    ensures AllOf(run, Separator, kinds) ==> Tokens(run, kinds) == []
  {
    assert run + "" == run && Tokens("", kinds) == [];
    if AllOf(run, Letter, kinds) {
      RunsInTurn(run, Letter, "", kinds);
    } else if AllOf(run, Han, kinds) {
      RunsInTurn(run, Han, "", kinds);
      assert Tokens(run, kinds) == Pairs(run);
    } else if AllOf(run, Separator, kinds) {
      RunsInTurn(run, Separator, "", kinds);
    }
  }

  // ----- what a term is made of -----

  ghost predicate OneKind(term: string, kinds: Kinds) {
    term != "" && (AllOf(term, Han, kinds) || AllOf(term, Letter, kinds))
  }

  lemma TermsOfOneKind(run: string, kind: Kind, kinds: Kinds)
    requires AllOf(run, kind, kinds)
    ensures forall term :: term in TermsOf(run, kind) ==> OneKind(term, kinds)
  {
    forall term | term in TermsOf(run, kind) ensures OneKind(term, kinds) {
      if kind == Han && |run| > 1 {
        var i :| 0 <= i < |run| - 1 && term == run[i..i + 2];
        assert term == [run[i], run[i + 1]];
      }
    }
  }

  lemma {:induction false} TokensOfOneKind(run: string, kind: Kind, rest: string, kinds: Kinds)
    requires AllOf(run, kind, kinds)
    ensures forall term :: term in TokensAfter(run, kind, rest, kinds) ==> OneKind(term, kinds)
    decreases |rest|
  {
    TermsOfOneKind(run, kind, kinds);
    if rest != "" {
      if kinds(rest[0]) == kind {
        TokensOfOneKind(run + [rest[0]], kind, rest[1..], kinds);
      } else {
        TokensOfOneKind([rest[0]], kinds(rest[0]), rest[1..], kinds);
      }
    }
  }

  /** Since Han characters are tested first, no term mixes them with letters or
      digits, though `isalnum` holds of both. */
  lemma NoTermMixes(text: string, reader: Reader)
    ensures forall term :: term in Terms(text, reader) ==>
      && term != ""
      && ((forall c :: c in term ==> IsHan(c)) || (forall c :: c in term ==> !IsHan(c) && reader.alnum(c)))
  {
    var kinds := KindsBy(reader.alnum);
    TokensOfOneKind("", Separator, reader.lower(text), kinds);
    forall term | term in Terms(text, reader)
      ensures (forall c :: c in term ==> IsHan(c)) || (forall c :: c in term ==> !IsHan(c) && reader.alnum(c))
    {
      assert OneKind(term, kinds);
    }
  }

  ghost predicate Holds(terms: seq<string>, c: char) { exists term :: term in terms && c in term }

  lemma HoldsConcat(a: seq<string>, b: seq<string>, c: char)
    ensures Holds(a + b, c) <==> Holds(a, c) || Holds(b, c)
  {}

  lemma RunHolds(run: string, kind: Kind, c: char)
    requires kind != Separator
    ensures Holds(TermsOf(run, kind), c) <==> c in run
  {
    var terms := TermsOf(run, kind);
    if c in run {
      var i :| 0 <= i < |run| && run[i] == c;
      var j := if kind == Letter || |run| == 1 then 0 else if i < |run| - 1 then i else i - 1;
      assert c in terms[j];
    }
  }

  lemma {:induction false} TokensHold(run: string, kind: Kind, rest: string, kinds: Kinds, c: char)
    requires AllOf(run, kind, kinds)
    ensures Holds(TokensAfter(run, kind, rest, kinds), c) <==> c in run + rest && kinds(c) != Separator
    decreases |rest|
  {
    if kind != Separator {
      RunHolds(run, kind, c);
    }
    if rest == "" {
      assert run + rest == run;
    } else {
      var h, tail := rest[0], rest[1..];
      assert rest == [h] + tail;
      if kinds(h) == kind {
        TokensHold(run + [h], kind, tail, kinds, c);
        assert run + [h] + tail == run + rest;
      } else {
        TokensHold([h], kinds(h), tail, kinds, c);
        HoldsConcat(TermsOf(run, kind), TokensAfter([h], kinds(h), tail, kinds), c);
      }
    }
  }

  /** The terms keep every Han character and every letter or digit of the text in lower
      case, and hold no other character. */
  lemma NothingIsLost(text: string, reader: Reader, c: char)
    ensures (exists term :: term in Terms(text, reader) && c in term)
       <==> c in reader.lower(text) && (IsHan(c) || reader.alnum(c))
  {
    TokensHold("", Separator, reader.lower(text), KindsBy(reader.alnum), c);
    assert "" + reader.lower(text) == reader.lower(text);
    assert Holds(Terms(text, reader), c) <==> exists term :: term in Terms(text, reader) && c in term;
  }

  /** Where there are no Han characters. */
  lemma HanGaps(c: char)
    ensures !IsHan(c) <==>
      var n := c as int;
      || n < 0x3400 || 0x4DBF < n < 0x4E00 || 0x9FFF < n < 0xF900 || 0xFAFF < n < 0x2_0000
      || 0x2_A6DF < n < 0x2_A700 || 0x2_EBEF < n < 0x3_0000 || 0x3_134F < n
  {}

  // ----- the loop -----

  method FlushHan(terms: seq<string>, hanRun: string) returns (more: seq<string>)
    ensures more == terms + TermsOf(hanRun, Han)
  {
    if |hanRun| == 1 {
      more := terms + [hanRun];
    } else if |hanRun| > 1 {
      more := terms + Pairs(hanRun);
    } else {
      more := terms;
    }
  }

  method FlushWord(terms: seq<string>, word: string) returns (more: seq<string>)
    ensures more == terms + TermsOf(word, Letter)
  {
    more := if word != "" then terms + [word] else terms;
  }

  /** What is held back is one run, and the tokens still to come start with it. */
  ghost predicate Held(whole: seq<string>, rest: string, terms: seq<string>, word: string, hanRun: string, kinds: Kinds) {
    && (word == "" || hanRun == "")
    && whole == terms + if word != "" then TokensAfter(word, Letter, rest, kinds)
                        else if hanRun != "" then TokensAfter(hanRun, Han, rest, kinds)
                        else Tokens(rest, kinds)
  }

  /** eval/system-one/harness/lexical_baseline.py:42-71. */
  method Tokenize(text: string, reader: Reader) returns (terms: seq<string>)
    ensures terms == Terms(text, reader)
  {
    terms := [];
    var word, hanRun := "", "";
    var lowered, kinds := reader.lower(text), KindsBy(reader.alnum);
    var i := 0;
    ghost var whole := Tokens(lowered, kinds);
    while i < |lowered|
      invariant 0 <= i <= |lowered|
      invariant Held(whole, lowered[i..], terms, word, hanRun, kinds)
    {
      assert lowered[i..] == [lowered[i]] + lowered[i + 1..];
      terms, word, hanRun := Take(whole, lowered[i], lowered[i + 1..], terms, word, hanRun, kinds);
      i := i + 1;
    }
    terms := FlushWord(terms, word);
    terms := FlushHan(terms, hanRun);
  }

  method Take(ghost whole: seq<string>, ch: char, ghost rest: string, terms0: seq<string>, word0: string,
              hanRun0: string, kinds: Kinds)
    returns (terms: seq<string>, word: string, hanRun: string)
    requires Held(whole, [ch] + rest, terms0, word0, hanRun0, kinds)
    ensures Held(whole, rest, terms, word, hanRun, kinds)
  {
    terms, word, hanRun := terms0, word0, hanRun0;
    HeldMoves(whole, ch, rest, terms, word, hanRun, kinds);
    if kinds(ch) == Han {
      terms := FlushWord(terms, word);
      word := "";
      hanRun := hanRun + [ch];
    } else {
      terms := FlushHan(terms, hanRun);
      hanRun := "";
      if kinds(ch) == Letter {
        word := word + [ch];
      } else {
        terms := FlushWord(terms, word);
        word := "";
      }
    }
  }

  lemma HeldMoves(whole: seq<string>, c: char, rest: string, terms: seq<string>, word: string, hanRun: string, kinds: Kinds)
    requires Held(whole, [c] + rest, terms, word, hanRun, kinds)
    ensures kinds(c) == Han ==> Held(whole, rest, terms + TermsOf(word, Letter), "", hanRun + [c], kinds)
    ensures kinds(c) == Letter ==> Held(whole, rest, terms + TermsOf(hanRun, Han), word + [c], "", kinds)
    ensures kinds(c) == Separator ==> Held(whole, rest, terms + TermsOf(hanRun, Han) + TermsOf(word, Letter), "", "", kinds)
  {
    var start := if kinds(c) == Separator then Tokens(rest, kinds) else TokensAfter([c], kinds(c), rest, kinds);
    assert "" + [c] == [c] && terms + [] == terms;
    if kinds(c) == Separator {
      SeparatorsForgotten([c], rest, kinds);
    }
    if word != "" {
      RunMoves(word, Letter, c, rest, kinds, start, terms);
    } else if hanRun != "" {
      RunMoves(hanRun, Han, c, rest, kinds, start, terms);
    } else if kinds(c) == Separator {
      AfterSame("", Separator, c, rest, kinds);
    } else {
      AfterOther("", Separator, c, rest, kinds);
    }
  }

  lemma RunMoves(run: string, kind: Kind, c: char, rest: string, kinds: Kinds, start: seq<string>, terms: seq<string>)
    requires kinds(c) != kind ==> start == TokensAfter([c], kinds(c), rest, kinds)
    ensures kinds(c) == kind ==> TokensAfter(run, kind, [c] + rest, kinds) == TokensAfter(run + [c], kind, rest, kinds)
    ensures kinds(c) != kind ==> terms + TokensAfter(run, kind, [c] + rest, kinds) == terms + TermsOf(run, kind) + start
  {
    if kinds(c) == kind {
      AfterSame(run, kind, c, rest, kinds);
    } else {
      AfterOther(run, kind, c, rest, kinds);
      assert terms + (TermsOf(run, kind) + start) == terms + TermsOf(run, kind) + start;
    }
  }
}
