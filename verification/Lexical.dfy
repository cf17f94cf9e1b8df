/** The BM25 baseline of eval/system-one/harness/lexical_baseline.py, over exact
    reals.  The logarithm is any function that is positive above one. */
module Lexical {
  import opened Order
  import opened Tokenizer

  const BM25_K1 := 1.2
  const BM25_B := 0.75
  const CONTENT_WEIGHT := 3.0
  const TAG_WEIGHT := 2.0
  const FACET_WEIGHT := 1.0
  const EXACT_MATCH_BOOST := 100.0

  datatype Entry = Entry(content: string, tags: seq<string>, facet: string, pinned: bool,
                         confirmations: int, lastConfirmedAt: int, id: string)

  // ----- term weights -----

  datatype Doc = Doc(weighted: map<string, real>, length: nat)

  function Get(m: map<string, real>, term: string): real { if term in m then m[term] else 0.0 }

  function AddAll(m: map<string, real>, terms: seq<string>, weight: real): map<string, real> {
    if terms == [] then m
    else
      var front, term := AddAll(m, terms[..|terms| - 1], weight), terms[|terms| - 1];
      front[term := Get(front, term) + weight]
  }

  method AddTerms(m: map<string, real>, terms: seq<string>, weight: real) returns (weighted: map<string, real>)
    ensures weighted == AddAll(m, terms, weight)
  {
    weighted := m;
    var i := 0;
    while i < |terms|
      invariant 0 <= i <= |terms|
      invariant weighted == AddAll(m, terms[..i], weight)
    {
      assert terms[..i + 1][..i] == terms[..i];
      weighted := weighted[terms[i] := Get(weighted, terms[i]) + weight];
      i := i + 1;
    }
    assert terms[..i] == terms;
  }

  function AddTags(m: map<string, real>, tags: seq<string>, reader: Reader): map<string, real> {
    if tags == [] then m
    else AddAll(AddTags(m, tags[..|tags| - 1], reader), Terms(tags[|tags| - 1], reader), TAG_WEIGHT)
  }

  function TagLength(tags: seq<string>, reader: Reader): nat {
    if tags == [] then 0 else TagLength(tags[..|tags| - 1], reader) + |Terms(tags[|tags| - 1], reader)|
  }

  function DocOf(e: Entry, reader: Reader): Doc {
    var weighted := AddTags(AddAll(map[], Terms(e.content, reader), CONTENT_WEIGHT), e.tags, reader);
    Doc(AddAll(weighted, Terms(e.facet, reader), FACET_WEIGHT),
        |Terms(e.content, reader)| + |Terms(e.facet, reader)| + TagLength(e.tags, reader))
  }

  method BuildDoc(e: Entry, reader: Reader) returns (doc: Doc)
    ensures doc == DocOf(e, reader)
  {
    var content := Tokenize(e.content, reader);
    var facet := Tokenize(e.facet, reader);
    var weighted := AddTerms(map[], content, CONTENT_WEIGHT);
    ghost var start := weighted;
    var length := 0;
    var i := 0;
    while i < |e.tags|
      invariant 0 <= i <= |e.tags|
      invariant weighted == AddTags(start, e.tags[..i], reader)
      invariant length == TagLength(e.tags[..i], reader)
    {
      assert e.tags[..i + 1][..i] == e.tags[..i];
      var terms := Tokenize(e.tags[i], reader);
      weighted := AddTerms(weighted, terms, TAG_WEIGHT);
      length := length + |terms|;
      i := i + 1;
    }
    assert e.tags[..i] == e.tags;
    weighted := AddTerms(weighted, facet, FACET_WEIGHT);
    doc := Doc(weighted, |content| + |facet| + length);
  }

  /** How often a term occurs, as a weight. */
  function Occurrences(terms: seq<string>, term: string, weight: real): real {
    if terms == [] then 0.0
    else Occurrences(terms[..|terms| - 1], term, weight) + if terms[|terms| - 1] == term then weight else 0.0
  }

  lemma {:induction false} AddAllGet(m: map<string, real>, terms: seq<string>, weight: real, term: string)
    ensures Get(AddAll(m, terms, weight), term) == Get(m, term) + Occurrences(terms, term, weight)
    ensures term in AddAll(m, terms, weight) <==> term in m || term in terms
  {
    if terms != [] {
      var front := terms[..|terms| - 1];
      AddAllGet(m, front, weight, term);
      assert terms == front + [terms[|terms| - 1]];
    }
  }

  ghost predicate InTags(tags: seq<string>, term: string, reader: Reader) {
    exists i :: 0 <= i < |tags| && term in Terms(tags[i], reader)
  }

  lemma InTagsSnoc(tags: seq<string>, term: string, reader: Reader)
    requires tags != []
    ensures InTags(tags, term, reader) <==>
      InTags(tags[..|tags| - 1], term, reader) || term in Terms(tags[|tags| - 1], reader)
  {
    var front := tags[..|tags| - 1];
    if InTags(front, term, reader) {
      var i :| 0 <= i < |front| && term in Terms(front[i], reader);
      assert front[i] == tags[i];
    }
    if InTags(tags, term, reader) {
      var i :| 0 <= i < |tags| && term in Terms(tags[i], reader);
      assert i < |front| ==> front[i] == tags[i];
    }
  }

  lemma {:induction false} AddTagsGet(m: map<string, real>, tags: seq<string>, reader: Reader, term: string)
    ensures term in AddTags(m, tags, reader) <==> term in m || InTags(tags, term, reader)
  {
    if tags != [] {
      var front := tags[..|tags| - 1];
      AddTagsGet(m, front, reader, term);
      AddAllGet(AddTags(m, front, reader), Terms(tags[|tags| - 1], reader), TAG_WEIGHT, term);
      InTagsSnoc(tags, term, reader);
    }
  }

  /** The entry has the term somewhere. */
  ghost predicate Mentions(e: Entry, term: string, reader: Reader) {
    term in Terms(e.content, reader) || InTags(e.tags, term, reader) || term in Terms(e.facet, reader)
  }

  function TagOccurrences(tags: seq<string>, reader: Reader, term: string): real {
    if tags == [] then 0.0
    else TagOccurrences(tags[..|tags| - 1], reader, term) + Occurrences(Terms(tags[|tags| - 1], reader), term, TAG_WEIGHT)
  }

  lemma {:induction false} AddTagsWeight(m: map<string, real>, tags: seq<string>, reader: Reader, term: string)
    ensures Get(AddTags(m, tags, reader), term) == Get(m, term) + TagOccurrences(tags, reader, term)
  {
    if tags != [] {
      var front := tags[..|tags| - 1];
      AddTagsWeight(m, front, reader, term);
      AddAllGet(AddTags(m, front, reader), Terms(tags[|tags| - 1], reader), TAG_WEIGHT, term);
    }
  }

  /** A term weighs three for each time it occurs in the content, two for each
      time in a tag and one for each time in the facet. */
  lemma DocWeight(e: Entry, reader: Reader, term: string)
    ensures Get(DocOf(e, reader).weighted, term)
         == Occurrences(Terms(e.content, reader), term, 3.0) + TagOccurrences(e.tags, reader, term)
            + Occurrences(Terms(e.facet, reader), term, 1.0)
  {
    var content, facet := Terms(e.content, reader), Terms(e.facet, reader);
    var first := AddAll(map[], content, CONTENT_WEIGHT);
    AddAllGet(map[], content, CONTENT_WEIGHT, term);
    AddTagsWeight(first, e.tags, reader, term);
    AddAllGet(AddTags(first, e.tags, reader), facet, FACET_WEIGHT, term);
  }

  ghost predicate AllPositive(m: map<string, real>) { forall term :: term in m ==> m[term] > 0.0 }

  lemma {:induction false} AddAllPositive(m: map<string, real>, terms: seq<string>, weight: real)
    requires AllPositive(m) && weight > 0.0
    ensures AllPositive(AddAll(m, terms, weight))
  {
    if terms != [] {
      AddAllPositive(m, terms[..|terms| - 1], weight);
    }
  }

  lemma {:induction false} AddTagsPositive(m: map<string, real>, tags: seq<string>, reader: Reader)
    requires AllPositive(m)
    ensures AllPositive(AddTags(m, tags, reader))
  {
    if tags != [] {
      AddTagsPositive(m, tags[..|tags| - 1], reader);
      AddAllPositive(AddTags(m, tags[..|tags| - 1], reader), Terms(tags[|tags| - 1], reader), TAG_WEIGHT);
    }
  }

  lemma {:induction false} InTagsCounted(tags: seq<string>, reader: Reader, term: string)
    ensures InTags(tags, term, reader) ==> TagLength(tags, reader) > 0
  {
    if tags != [] {
      InTagsCounted(tags[..|tags| - 1], reader, term);
      InTagsSnoc(tags, term, reader);
    }
  }

  /** The weights of a document are those of exactly its terms, and positive. */
  lemma DocHas(e: Entry, reader: Reader, term: string)
    ensures term in DocOf(e, reader).weighted <==> Mentions(e, term, reader)
    ensures AllPositive(DocOf(e, reader).weighted)
    ensures Mentions(e, term, reader) ==> DocOf(e, reader).length > 0
  {
    var content, facet := Terms(e.content, reader), Terms(e.facet, reader);
    var first := AddAll(map[], content, CONTENT_WEIGHT);
    var second := AddTags(first, e.tags, reader);
    AddAllGet(map[], content, CONTENT_WEIGHT, term);
    AddTagsGet(first, e.tags, reader, term);
    AddAllGet(second, facet, FACET_WEIGHT, term);
    AddAllPositive(map[], content, CONTENT_WEIGHT);
    AddTagsPositive(first, e.tags, reader);
    AddAllPositive(second, facet, FACET_WEIGHT);
    InTagsCounted(e.tags, reader, term);
  }

  // ----- scores -----

  type Log = real -> real

  ghost predicate PositiveAboveOne(ln: Log) { forall x: real :: x > 1.0 ==> ln(x) > 0.0 }

  function DocumentFrequency(docs: seq<Doc>, term: string): (df: nat)
    ensures df <= |docs|
  {
    if docs == [] then 0
    else DocumentFrequency(docs[..|docs| - 1], term) + if term in docs[|docs| - 1].weighted then 1 else 0
  }

  function TotalLength(docs: seq<Doc>): nat {
    if docs == [] then 0 else TotalLength(docs[..|docs| - 1]) + docs[|docs| - 1].length
  }

  function Idf(total: nat, df: nat, ln: Log): real
    requires df <= total
  {
    ln(((total - df) as real + 0.5) / (df as real + 0.5) + 1.0)
  }

  lemma Quotient(x: real, y: real)
    requires x >= 0.0 && y > 0.0
    ensures x / y >= 0.0 && (x > 0.0 ==> x / y > 0.0)
  {}

  lemma Product(x: real, y: real)
    requires x > 0.0 && y > 0.0
    ensures x * y > 0.0
  {}

  lemma IdfPositive(total: nat, df: nat, ln: Log)
    requires df <= total && PositiveAboveOne(ln)
    ensures Idf(total, df, ln) > 0.0
  {
    Quotient((total - df) as real + 0.5, df as real + 0.5);
  }

  function LengthNorm(length: nat, average: real): (norm: real)
    requires average > 0.0
    ensures norm > 0.0
  {
    Quotient(length as real, average);
    1.0 - BM25_B + BM25_B * (length as real / average)
  }

  function TermScore(idf: real, tf: real, norm: real): (score: real)
    requires tf > 0.0 && norm > 0.0
    ensures idf > 0.0 ==> score > 0.0
  {
    var top, bottom := idf * tf * (BM25_K1 + 1.0), tf + BM25_K1 * norm;
    TermPositive(idf, tf, top, bottom);
    top / bottom
  }

  lemma TermPositive(idf: real, tf: real, top: real, bottom: real)
    requires tf > 0.0 && bottom > 0.0 && top == idf * tf * (BM25_K1 + 1.0)
    ensures idf > 0.0 ==> top / bottom > 0.0
  {
    if idf > 0.0 {
      Product(idf, tf);
      Quotient(top, bottom);
    }
  }

  /** What `sum(length) / total` needs so that no score divides by zero. */
  ghost predicate Sound(docs: seq<Doc>, average: real) {
    forall i :: 0 <= i < |docs| ==>
      AllPositive(docs[i].weighted) && (docs[i].weighted != map[] ==> average > 0.0)
  }

  function Contribution(docs: seq<Doc>, doc: Doc, average: real, term: string, ln: Log): real
    requires AllPositive(doc.weighted) && (doc.weighted != map[] ==> average > 0.0)
  {
    if term !in doc.weighted then 0.0
    else TermScore(Idf(|docs|, DocumentFrequency(docs, term), ln), doc.weighted[term], LengthNorm(doc.length, average))
  }

  function Score(docs: seq<Doc>, doc: Doc, average: real, queryTerms: seq<string>, ln: Log): real
    requires AllPositive(doc.weighted) && (doc.weighted != map[] ==> average > 0.0)
  {
    if queryTerms == [] then 0.0
    else
      Score(docs, doc, average, queryTerms[..|queryTerms| - 1], ln)
      + Contribution(docs, doc, average, queryTerms[|queryTerms| - 1], ln)
  }

  ghost predicate SharesTerm(doc: Doc, queryTerms: seq<string>) {
    exists term :: term in queryTerms && term in doc.weighted
  }

  /** The score is positive for a document that shares a term with the query and zero for any other. */
  lemma {:induction false} ScorePositive(docs: seq<Doc>, doc: Doc, average: real, queryTerms: seq<string>, ln: Log)
    requires AllPositive(doc.weighted) && (doc.weighted != map[] ==> average > 0.0) && PositiveAboveOne(ln)
    ensures Score(docs, doc, average, queryTerms, ln) >= 0.0
    ensures Score(docs, doc, average, queryTerms, ln) > 0.0 <==> SharesTerm(doc, queryTerms)
  {
    if queryTerms != [] {
      var front, last := queryTerms[..|queryTerms| - 1], queryTerms[|queryTerms| - 1];
      ScorePositive(docs, doc, average, front, ln);
      IdfPositive(|docs|, DocumentFrequency(docs, last), ln);
      assert queryTerms == front + [last];
      assert SharesTerm(doc, queryTerms) <==> SharesTerm(doc, front) || last in doc.weighted;
    }
  }

  method ScoreOf(docs: seq<Doc>, doc: Doc, average: real, queryTerms: seq<string>, ln: Log) returns (score: real)
    requires AllPositive(doc.weighted) && (doc.weighted != map[] ==> average > 0.0)
    ensures score == Score(docs, doc, average, queryTerms, ln)
  {
    score := 0.0;
    var i := 0;
    while i < |queryTerms|
      invariant 0 <= i <= |queryTerms|
      invariant score == Score(docs, doc, average, queryTerms[..i], ln)
    {
      assert queryTerms[..i + 1][..i] == queryTerms[..i];
      var term := queryTerms[i];
      if term in doc.weighted {
        var idf := Idf(|docs|, DocumentFrequency(docs, term), ln);
        score := score + TermScore(idf, doc.weighted[term], LengthNorm(doc.length, average));
      }
      i := i + 1;
    }
    assert queryTerms[..i] == queryTerms;
  }

  // ----- the documents and their mean length -----

  function DocsOf(entries: seq<Entry>, reader: Reader): (docs: seq<Doc>)
    ensures |docs| == |entries| && forall i :: 0 <= i < |docs| ==> docs[i] == DocOf(entries[i], reader)
  {
    seq(|entries|, i requires 0 <= i < |entries| => DocOf(entries[i], reader))
  }

  method BuildDocs(entries: seq<Entry>, reader: Reader) returns (docs: seq<Doc>)
    ensures docs == DocsOf(entries, reader)
  {
    docs := [];
    var i := 0;
    while i < |entries|
      invariant 0 <= i <= |entries| == |DocsOf(entries, reader)|
      invariant docs == DocsOf(entries, reader)[..i]
    {
      var doc := BuildDoc(entries[i], reader);
      docs := docs + [doc];
      i := i + 1;
    }
  }

  function Average(docs: seq<Doc>): real
    requires docs != []
  {
    TotalLength(docs) as real / |docs| as real
  }

  lemma {:induction false} LengthCounts(docs: seq<Doc>, i: nat)
    requires i < |docs|
    ensures docs[i].length <= TotalLength(docs)
  {
    if i < |docs| - 1 {
      LengthCounts(docs[..|docs| - 1], i);
    }
  }

  /** The mean length is positive as soon as any document has a term. */
  lemma DocsAreSound(entries: seq<Entry>, reader: Reader)
    requires entries != []
    ensures Sound(DocsOf(entries, reader), Average(DocsOf(entries, reader)))
  {
    var docs := DocsOf(entries, reader);
    forall i | 0 <= i < |docs|
      ensures AllPositive(docs[i].weighted) && (docs[i].weighted != map[] ==> Average(docs) > 0.0)
    {
      DocHas(entries[i], reader, "");
      if docs[i].weighted != map[] {
        var term :| term in docs[i].weighted;
        DocHas(entries[i], reader, term);
        LengthCounts(docs, i);
        Quotient(TotalLength(docs) as real, |docs| as real);
      }
    }
  }

  // ----- exact matches -----

  function Strip(text: string, blank: char -> bool): string {
    if text == "" then text
    else if blank(text[0]) then Strip(text[1..], blank)
    else if blank(text[|text| - 1]) then Strip(text[..|text| - 1], blank)
    else text
  }

  /** White space is neither Han nor a letter nor a digit, and lower-casing leaves it
      where it is. */
  ghost predicate BlanksSeparate(blank: char -> bool, reader: Reader) {
    && (forall c: char :: blank(c) ==> KindsBy(reader.alnum)(c) == Separator)
    && reader.lower("") == ""
    && (forall a, c, b :: blank(c) ==> reader.lower(a + [c] + b) == reader.lower(a) + [c] + reader.lower(b))
  }

  lemma BlankSplits(a: string, c: char, b: string, blank: char -> bool, reader: Reader)
    requires BlanksSeparate(blank, reader) && blank(c)
    ensures Terms(a + [c] + b, reader) == Terms(a, reader) + Terms(b, reader)
    ensures Terms("", reader) == []
  {
    SeparatorSplits(reader.lower(a), c, reader.lower(b), KindsBy(reader.alnum));
  }

  lemma {:induction false} StripKeepsTerms(text: string, blank: char -> bool, reader: Reader)
    requires BlanksSeparate(blank, reader)
    ensures Terms(Strip(text, blank), reader) == Terms(text, reader)
    decreases |text|
  {
    if text != "" {
      var n := |text| - 1;
      if blank(text[0]) {
        StripKeepsTerms(text[1..], blank, reader);
        BlankSplits("", text[0], text[1..], blank, reader);
        assert "" + [text[0]] + text[1..] == text;
      } else if blank(text[n]) {
        StripKeepsTerms(text[..n], blank, reader);
        BlankSplits(text[..n], text[n], "", blank, reader);
        assert text[..n] + [text[n]] + "" == text;
      }
    }
  }

  /** `strip().lower()`. */
  function Normalized(text: string, blank: char -> bool, reader: Reader): string { reader.lower(Strip(text, blank)) }

  ghost predicate Shares(e: Entry, query: string, reader: Reader) {
    exists term :: term in Terms(query, reader) && Mentions(e, term, reader)
  }

  lemma SharesIsSharesTerm(e: Entry, query: string, reader: Reader)
    ensures Shares(e, query, reader) <==> SharesTerm(DocOf(e, reader), Terms(query, reader))
  {
    forall term ensures term in DocOf(e, reader).weighted <==> Mentions(e, term, reader) {
      DocHas(e, reader, term);
    }
  }

  /** An exact match always shares a term with the query. */
  lemma ExactMatchShares(e: Entry, query: string, blank: char -> bool, reader: Reader)
    requires BlanksSeparate(blank, reader) && Normalized(e.content, blank, reader) == Normalized(query, blank, reader)
    requires Terms(query, reader) != []
    ensures Shares(e, query, reader)
  {
    StripKeepsTerms(e.content, blank, reader);
    StripKeepsTerms(query, blank, reader);
    assert Mentions(e, Terms(query, reader)[0], reader);
  }

  // ----- ranking -----

  function Max(a: int, b: int): int { if a < b then b else a }

  function Min(a: int, b: int): int { if a < b then a else b }

  function RecencyScore(lastConfirmedAt: int, now: int): int {
    var days := Max(0, now - lastConfirmedAt) / 86400;
    if days == 0 then 1000 else if days <= 7 then 800 else if days <= 30 then 500 else if days <= 90 then 200 else 50
  }

  function TieBreakScore(e: Entry, now: int): int {
    (if e.pinned then 10000 else 0) + Min(e.confirmations, 20) * 100 + RecencyScore(e.lastConfirmedAt, now)
  }

  datatype Key = Key(score: real, tie: int, id: string, index: nat)

  /** Higher scores first, then higher tie-break scores, then smaller ids; the
      sort is stable, so equal keys stay in the order of their indices. */
  ghost predicate Before(a: Key, b: Key) {
    || a.score > b.score
    || (a.score == b.score && a.tie > b.tie)
    || (a.score == b.score && a.tie == b.tie && Less(a.id, b.id))
    || (a.score == b.score && a.tie == b.tie && a.id == b.id && a.index < b.index)
  }

  predicate ComesBefore(a: Key, b: Key) {
    if a.score != b.score then a.score > b.score
    else if a.tie != b.tie then a.tie > b.tie
    else if a.id != b.id then Precedes(a.id, b.id)
    else a.index < b.index
  }

  lemma ComesBeforeIsBefore(a: Key, b: Key)
    ensures ComesBefore(a, b) <==> Before(a, b)
    ensures a.index != b.index ==> Before(a, b) || Before(b, a)
  {
    PrecedesIsLess(a.id, b.id);
    LessIrreflexive(a.id);
    if a.id != b.id {
      LessTotal(a.id, b.id);
    }
  }

  lemma BeforeTransitive(a: Key, b: Key, c: Key)
    requires Before(a, b) && Before(b, c)
    ensures Before(a, c)
  {
    if Less(a.id, b.id) && Less(b.id, c.id) {
      LessTransitive(a.id, b.id, c.id);
    }
  }

  ghost predicate Ascending(keys: seq<Key>) {
    forall i, j :: 0 <= i < j < |keys| ==> Before(keys[i], keys[j])
  }

  ghost predicate FreshIndex(keys: seq<Key>, key: Key) {
    forall i :: 0 <= i < |keys| ==> keys[i].index != key.index
  }

  lemma AroundInserted(keys: seq<Key>, key: Key, p: nat)
    requires Ascending(keys) && p <= |keys|
    requires p > 0 ==> Before(keys[p - 1], key)
    requires p < |keys| ==> Before(key, keys[p])
    ensures forall i :: 0 <= i < p ==> Before(keys[i], key)
    ensures forall i :: p <= i < |keys| ==> Before(key, keys[i])
  {
    forall i | 0 <= i < p ensures Before(keys[i], key) {
      if i < p - 1 {
        BeforeTransitive(keys[i], keys[p - 1], key);
      }
    }
    forall i | p <= i < |keys| ensures Before(key, keys[i]) {
      if i > p {
        BeforeTransitive(key, keys[p], keys[i]);
      }
    }
  }

  lemma Inserted(keys: seq<Key>, key: Key, p: nat, more: seq<Key>)
    requires p <= |keys| && more == keys[..p] + [key] + keys[p..]
    ensures |more| == |keys| + 1 && more[p] == key
    ensures forall i :: 0 <= i < p ==> more[i] == keys[i]
    ensures forall i :: p < i < |more| ==> more[i] == keys[i - 1]
    ensures forall k :: k in more <==> k in keys || k == key
  {
    assert keys == keys[..p] + keys[p..];
  }

  lemma InsertKeepsOrder(keys: seq<Key>, key: Key, p: nat, more: seq<Key>)
    requires Ascending(keys) && p <= |keys| && more == keys[..p] + [key] + keys[p..]
    requires p > 0 ==> Before(keys[p - 1], key)
    requires p < |keys| ==> Before(key, keys[p])
    ensures Ascending(more)
  {
    AroundInserted(keys, key, p);
    Inserted(keys, key, p, more);
    forall i, j | 0 <= i < j < |more| ensures Before(more[i], more[j]) {
      if j < p {
        assert Before(keys[i], keys[j]);
      } else if j > p && i < p {
        assert Before(keys[i], keys[j - 1]);
      } else if i > p {
        assert Before(keys[i - 1], keys[j - 1]);
      }
    }
  }

  method Insert(keys: seq<Key>, key: Key) returns (more: seq<Key>)
    requires Ascending(keys) && FreshIndex(keys, key)
    ensures Ascending(more) && |more| == |keys| + 1
    ensures forall k :: k in more <==> k in keys || k == key
  {
    var p := |keys|;
    while p > 0 && ComesBefore(key, keys[p - 1])
      invariant 0 <= p <= |keys|
      invariant p < |keys| ==> Before(key, keys[p])
    {
      ComesBeforeIsBefore(key, keys[p - 1]);
      p := p - 1;
    }
    if p > 0 {
      ComesBeforeIsBefore(key, keys[p - 1]);
    }
    more := keys[..p] + [key] + keys[p..];
    InsertKeepsOrder(keys, key, p, more);
    Inserted(keys, key, p, more);
  }

  /** What the built-in stable sort gives. */
  method Sort(scored: seq<Key>) returns (sorted: seq<Key>)
    requires forall i, j :: 0 <= i < j < |scored| ==> scored[i].index < scored[j].index
    ensures Ascending(sorted) && |sorted| == |scored|
    ensures forall k :: k in sorted <==> k in scored
  {
    sorted := [];
    var i := 0;
    while i < |scored|
      invariant 0 <= i <= |scored| && |sorted| == i
      invariant Ascending(sorted)
      invariant forall k :: k in sorted <==> k in scored[..i]
    {
      forall j | 0 <= j < |sorted| ensures sorted[j].index != scored[i].index {
        assert sorted[j] in scored[..i];
      }
      sorted := Insert(sorted, scored[i]);
      assert scored[..i + 1] == scored[..i] + [scored[i]];
      i := i + 1;
    }
    assert scored[..i] == scored;
  }

  /** A Python slice from the start: a negative limit leaves that many off the end. */
  function Sliced(order: seq<nat>, limit: int): seq<nat> {
    if limit >= 0 then order[..Min(limit, |order|)] else order[..Max(0, |order| + limit)]
  }

  /** The score of one entry, the boost for an exact match included. */
  function EntryScore(entries: seq<Entry>, i: nat, query: string, blank: char -> bool, reader: Reader, ln: Log): real
    requires i < |entries| && Sound(DocsOf(entries, reader), Average(DocsOf(entries, reader)))
  {
    var docs := DocsOf(entries, reader);
    Score(docs, docs[i], Average(docs), Terms(query, reader), ln)
    + if Normalized(entries[i].content, blank, reader) == Normalized(query, blank, reader) then EXACT_MATCH_BOOST else 0.0
  }

  function KeyOf(entries: seq<Entry>, i: nat, query: string, now: int, blank: char -> bool, reader: Reader, ln: Log): Key
    requires i < |entries| && Sound(DocsOf(entries, reader), Average(DocsOf(entries, reader)))
  {
    Key(EntryScore(entries, i, query, blank, reader, ln), TieBreakScore(entries[i], now), entries[i].id, i)
  }

  /** The boost never makes a candidate: exactly the entries that share a term with
      the query score above zero. */
  lemma CandidatesShare(entries: seq<Entry>, i: nat, query: string, blank: char -> bool, reader: Reader, ln: Log)
    requires i < |entries| && Sound(DocsOf(entries, reader), Average(DocsOf(entries, reader)))
    requires PositiveAboveOne(ln) && BlanksSeparate(blank, reader) && Terms(query, reader) != []
    ensures EntryScore(entries, i, query, blank, reader, ln) > 0.0 <==> Shares(entries[i], query, reader)
    ensures EntryScore(entries, i, query, blank, reader, ln) >= 0.0
  {
    var docs := DocsOf(entries, reader);
    ScorePositive(docs, docs[i], Average(docs), Terms(query, reader), ln);
    SharesIsSharesTerm(entries[i], query, reader);
    if Normalized(entries[i].content, blank, reader) == Normalized(query, blank, reader) {
      ExactMatchShares(entries[i], query, blank, reader);
    }
  }

  /** The list holds the keys of those of the first `n` that are wanted, by index. */
  ghost predicate Listed(keys: seq<Key>, wanted: seq<bool>, n: nat, listed: seq<Key>)
    requires n <= |keys| == |wanted|
  {
    && (forall k :: k in listed ==> k.index < n && k == keys[k.index])
    && (forall i :: 0 <= i < n ==> (keys[i] in listed <==> wanted[i]))
    && (forall a, b :: 0 <= a < b < |listed| ==> listed[a].index < listed[b].index)
  }

  lemma ListedNext(keys: seq<Key>, wanted: seq<bool>, n: nat, listed: seq<Key>)
    requires n < |keys| == |wanted| && Listed(keys, wanted, n, listed)
    requires forall i :: 0 <= i < |keys| ==> keys[i].index == i
    ensures Listed(keys, wanted, n + 1, if wanted[n] then listed + [keys[n]] else listed)
  {
    var key := keys[n];
    assert key !in listed;
    assert forall k :: k in listed + [key] <==> k in listed || k == key;
    forall a | 0 <= a < |listed| ensures listed[a].index < n {
      assert listed[a] in listed;
    }
  }

  ghost function KeysOf(entries: seq<Entry>, query: string, now: int, blank: char -> bool, reader: Reader, ln: Log):
    (keys: seq<Key>)
    requires entries != [] && Sound(DocsOf(entries, reader), Average(DocsOf(entries, reader)))
    ensures |keys| == |entries|
    ensures forall i :: 0 <= i < |keys| ==> keys[i] == KeyOf(entries, i, query, now, blank, reader, ln)
  {
    seq(|entries|, i requires 0 <= i < |entries| => KeyOf(entries, i, query, now, blank, reader, ln))
  }

  lemma KeysNumbered(entries: seq<Entry>, query: string, now: int, blank: char -> bool, reader: Reader, ln: Log)
    requires entries != [] && Sound(DocsOf(entries, reader), Average(DocsOf(entries, reader)))
    ensures var keys := KeysOf(entries, query, now, blank, reader, ln);
            forall i :: 0 <= i < |keys| ==> keys[i].index == i
  {}

  ghost function SharesOf(entries: seq<Entry>, query: string, reader: Reader): (wanted: seq<bool>)
    ensures |wanted| == |entries|
    ensures forall i :: 0 <= i < |wanted| ==> wanted[i] == Shares(entries[i], query, reader)
  {
    seq(|entries|, i requires 0 <= i < |entries| => Shares(entries[i], query, reader))
  }

  /** The scored list: the keys of the candidates among the first `n`, by index. */
  ghost predicate Scored(entries: seq<Entry>, n: nat, query: string, now: int, blank: char -> bool, reader: Reader, ln: Log,
                         scored: seq<Key>)
    requires entries != [] && n <= |entries| && Sound(DocsOf(entries, reader), Average(DocsOf(entries, reader)))
  {
    Listed(KeysOf(entries, query, now, blank, reader, ln), SharesOf(entries, query, reader), n, scored)
  }

  method ScoreAll(entries: seq<Entry>, docs: seq<Doc>, queryTerms: seq<string>, query: string, now: int,
                  blank: char -> bool, reader: Reader, ln: Log)
    returns (scored: seq<Key>)
    requires entries != [] && docs == DocsOf(entries, reader) && Sound(docs, Average(docs))
    requires queryTerms == Terms(query, reader) && queryTerms != []
    requires PositiveAboveOne(ln) && BlanksSeparate(blank, reader)
    ensures Scored(entries, |entries|, query, now, blank, reader, ln, scored)
  {
    var average := Average(docs);
    var normalizedQuery := Normalized(query, blank, reader);
    scored := [];
    var i := 0;
    while i < |entries|
      invariant 0 <= i <= |entries|
      invariant Scored(entries, i, query, now, blank, reader, ln, scored)
    {
      var score := ScoreOf(docs, docs[i], average, queryTerms, ln);
      if Normalized(entries[i].content, blank, reader) == normalizedQuery {
        score := score + EXACT_MATCH_BOOST;
      }
      CandidatesShare(entries, i, query, blank, reader, ln);
      KeysNumbered(entries, query, now, blank, reader, ln);
      ListedNext(KeysOf(entries, query, now, blank, reader, ln), SharesOf(entries, query, reader), i, scored);
      if score > 0.0 {
        scored := scored + [Key(score, TieBreakScore(entries[i], now), entries[i].id, i)];
      }
      i := i + 1;
    }
  }

  ghost predicate NoRepeats(s: seq<nat>) { forall a, b :: 0 <= a < b < |s| ==> s[a] != s[b] }

  /** The ranking of all candidates: each once, in the order of their keys. */
  ghost predicate Ranking(entries: seq<Entry>, query: string, now: int, blank: char -> bool, reader: Reader, ln: Log, order: seq<nat>) {
    && NoRepeats(order)
    && (forall i :: i in order <==> 0 <= i < |entries| && Shares(entries[i], query, reader))
    && (entries != [] ==> InKeyOrder(entries, query, now, blank, reader, ln, order))
  }

  ghost predicate InKeyOrder(entries: seq<Entry>, query: string, now: int, blank: char -> bool, reader: Reader, ln: Log, order: seq<nat>)
    requires entries != []
  {
    && Sound(DocsOf(entries, reader), Average(DocsOf(entries, reader)))
    && forall a, b :: 0 <= a < b < |order| && order[a] < |entries| && order[b] < |entries| ==>
      Before(KeyOf(entries, order[a], query, now, blank, reader, ln), KeyOf(entries, order[b], query, now, blank, reader, ln))
  }

  function Indices(keys: seq<Key>): (indices: seq<nat>)
    ensures |indices| == |keys| && forall i :: 0 <= i < |keys| ==> indices[i] == keys[i].index
  {
    seq(|keys|, i requires 0 <= i < |keys| => keys[i].index)
  }

  lemma SortedIsRanking(entries: seq<Entry>, query: string, now: int, blank: char -> bool, reader: Reader, ln: Log,
                        scored: seq<Key>, sorted: seq<Key>)
    requires entries != [] && Sound(DocsOf(entries, reader), Average(DocsOf(entries, reader)))
    requires Scored(entries, |entries|, query, now, blank, reader, ln, scored)
    requires Ascending(sorted) && forall k :: k in sorted <==> k in scored
    ensures Ranking(entries, query, now, blank, reader, ln, Indices(sorted))
  {
    var order := Indices(sorted);
    forall a | 0 <= a < |sorted|
      ensures order[a] < |entries| && sorted[a] == KeyOf(entries, order[a], query, now, blank, reader, ln)
    {
      assert sorted[a] in scored;
    }
    forall a, b | 0 <= a < b < |sorted| ensures order[a] != order[b] {
      assert Before(sorted[a], sorted[b]);
      LessIrreflexive(sorted[a].id);
    }
    forall i | 0 <= i < |entries| && Shares(entries[i], query, reader) ensures i in order {
      var key := KeyOf(entries, i, query, now, blank, reader, ln);
      assert key in sorted;
      var a :| 0 <= a < |sorted| && sorted[a] == key;
      assert order[a] == i;
    }
    forall i | i in order ensures 0 <= i < |entries| && Shares(entries[i], query, reader) {
      var a :| 0 <= a < |order| && order[a] == i;
      assert sorted[a] in scored;
    }
  }

  /** eval/system-one/harness/lexical_baseline.py:93-141. */
  method Rank(entries: seq<Entry>, query: string, now: int, limit: int, blank: char -> bool, reader: Reader, ln: Log)
    returns (result: seq<nat>, ghost order: seq<nat>)
    requires PositiveAboveOne(ln) && BlanksSeparate(blank, reader)
    ensures limit == 0 ==> result == []
    ensures limit != 0 ==> Ranking(entries, query, now, blank, reader, ln, order) && result == Sliced(order, limit)
  {
    var queryTerms := Tokenize(query, reader);
    if entries == [] || queryTerms == [] || limit == 0 {
      if entries != [] {
        DocsAreSound(entries, reader);
      }
      return [], [];
    }
    var docs := BuildDocs(entries, reader);
    DocsAreSound(entries, reader);
    var scored := ScoreAll(entries, docs, queryTerms, query, now, blank, reader, ln);
    var sorted := Sort(scored);
    SortedIsRanking(entries, query, now, blank, reader, ln, scored, sorted);
    order := Indices(sorted);
    result := Sliced(Indices(sorted), limit);
  }
}
