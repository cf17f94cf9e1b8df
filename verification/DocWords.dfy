/** What the description of a field keeps of its doc comment: the words of all its
    lines, in order (agent/features/tools/build.rs:119-141). */
module DocWords {
  import opened Wrappers
  import opened Tokenizer
  import opened SchemaGen

  function SpaceOrNot(): Kinds { c => if IsSpace(c) then Separator else Letter }

  /** The words of a text, divided by white space. */
  function Words(text: string): seq<string> { Tokens(text, SpaceOrNot()) }

  lemma SpaceSplits(a: string, c: char, b: string)
    requires IsSpace(c)
    ensures Words(a + [c] + b) == Words(a) + Words(b)
    ensures Words("") == []
  {
    SeparatorSplits(a, c, b, SpaceOrNot());
  }

  lemma {:induction false} TrimKeepsWords(s: string)
    ensures Words(Trim(s)) == Words(s)
    ensures Trim(s) != "" ==> !IsSpace(Trim(s)[0]) && !IsSpace(Trim(s)[|Trim(s)| - 1])
    decreases |s|
  {
    if s != "" {
      var n := |s| - 1;
      if IsSpace(s[0]) {
        TrimKeepsWords(s[1..]);
        SpaceSplits("", s[0], s[1..]);
        assert "" + [s[0]] + s[1..] == s;
      } else if IsSpace(s[n]) {
        TrimKeepsWords(s[..n]);
        SpaceSplits(s[..n], s[n], "");
        assert s[..n] + [s[n]] + "" == s;
      }
    }
  }

  function WordsOf(lines: seq<string>): seq<string> {
    if lines == [] then [] else Words(lines[0]) + WordsOf(lines[1..])
  }

  lemma {:induction false} JoinKeepsWords(lines: seq<string>)
    ensures Words(JoinText(lines, " ")) == WordsOf(lines)
  {
    SpaceSplits("", ' ', "");
    if |lines| == 1 {
      assert lines[1..] == [];
    } else if lines != [] {
      JoinKeepsWords(lines[1..]);
      SpaceSplits(lines[0], ' ', JoinText(lines[1..], " "));
    }
  }

  lemma {:induction false} TrimAllKeepsWords(lines: seq<string>)
    ensures WordsOf(TrimAll(lines)) == WordsOf(lines)
  {
    if lines != [] {
      TrimKeepsWords(lines[0]);
      TrimAllKeepsWords(lines[1..]);
    }
  }

  lemma {:induction false} WordGoesOn(run: string, rest: string)
    requires run != ""
    ensures TokensAfter(run, Letter, rest, SpaceOrNot()) != []
    decreases |rest|
  {
    if rest != "" && !IsSpace(rest[0]) {
      WordGoesOn(run + [rest[0]], rest[1..]);
    }
  }

  lemma FirstWord(text: string)
    requires text != "" && !IsSpace(text[0])
    ensures Words(text) != []
  {
    assert "" + [text[0]] == [text[0]];
    WordGoesOn([text[0]], text[1..]);
  }

  /** There is a description exactly if the doc comment has a word; its words are those
      of all lines in order, and it has no space at either end. */
  lemma DescriptionKeepsWords(docs: seq<string>)
    ensures ExtractDoc(docs) == None <==> WordsOf(docs) == []
    ensures ExtractDoc(docs).Some? ==>
      var text := ExtractDoc(docs).value;
      text != "" && Words(text) == WordsOf(docs) && !IsSpace(text[0]) && !IsSpace(text[|text| - 1])
  {
    var joined := JoinText(TrimAll(docs), " ");
    JoinKeepsWords(TrimAll(docs));
    TrimAllKeepsWords(docs);
    TrimKeepsWords(joined);
    SpaceSplits("", ' ', "");
    if Trim(joined) != "" {
      FirstWord(Trim(joined));
    }
  }
}
