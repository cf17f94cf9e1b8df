/** What the BM25 score of eval/system-one/harness/lexical_baseline.py rewards, and what
    that does to the ranking. */
module LexicalLaws {
  import opened Order
  import opened Tokenizer
  import opened Lexical

  // ----- quotients of reals -----

  lemma CrossLess(a: real, c: real, b: real, d: real)
    requires c > 0.0 && d > 0.0 && a * d < b * c
    ensures a / c < b / d
  {
    var x, y := a / c, b / d;
    assert x * c == a && y * d == b;
    assert x * (c * d) < y * (c * d) by {
      assert x * (c * d) == a * d && y * (c * d) == b * c;
    }
    if x >= y {
      Grows(y, x, c * d);
    }
  }

  lemma Grows(x: real, y: real, z: real)
    requires x <= y && z >= 0.0
    ensures x * z <= y * z
  {}

  lemma GrowsStrictly(x: real, y: real, z: real)
    requires x < y && z > 0.0
    ensures z * x < z * y
  {}

  lemma MulDiv(x: real, y: real, z: real)
    requires z != 0.0
    ensures x * y / z == x * (y / z)
  {}

  // ----- one term -----

  /** The share of the highest possible score that is reached. */
  function Saturation(tf: real, norm: real): (s: real)
    requires tf > 0.0 && norm > 0.0
  {
    tf / (tf + 1.2 * norm)
  }

  lemma TermScoreIs(idf: real, tf: real, norm: real)
    requires tf > 0.0 && norm > 0.0
    ensures TermScore(idf, tf, norm) == idf * 2.2 * Saturation(tf, norm)
  {
    var top, bottom := idf * tf * (BM25_K1 + 1.0), tf + BM25_K1 * norm;
    assert top == idf * 2.2 * tf;
    MulDiv(idf * 2.2, tf, bottom);
  }

  lemma SaturationGrows(a: real, b: real, norm: real)
    requires 0.0 < a < b && norm > 0.0
    ensures Saturation(a, norm) < Saturation(b, norm)
  {
    var n := 1.2 * norm;
    GrowsStrictly(a, b, n);
    CrossLess(a, a + n, b, b + n);
  }

  lemma SaturationFalls(tf: real, m: real, n: real)
    requires tf > 0.0 && 0.0 < m < n
    ensures Saturation(tf, m) > Saturation(tf, n)
  {
    GrowsStrictly(tf + 1.2 * m, tf + 1.2 * n, tf);
    CrossLess(tf, tf + 1.2 * n, tf, tf + 1.2 * m);
  }

  lemma SaturationBelowOne(tf: real, norm: real)
    requires tf > 0.0 && norm > 0.0
    ensures 0.0 < Saturation(tf, norm) < 1.0
  {
    Quotient(tf, tf + 1.2 * norm);
    CrossLess(tf, tf + 1.2 * norm, 1.0, 1.0);
  }

  /** More of the term counts more, in a longer document it counts less, and never as
      much as `idf * (k1 + 1)`. */
  lemma TermScoreOrder(idf: real, tf: real, norm: real, more: real, longer: real)
    requires idf > 0.0 && 0.0 < tf < more && 0.0 < norm < longer
    ensures TermScore(idf, tf, norm) < TermScore(idf, more, norm)
    ensures TermScore(idf, tf, norm) > TermScore(idf, tf, longer)
    ensures TermScore(idf, tf, norm) < idf * 2.2
  {
    var s := idf * 2.2;
    TermScoreIs(idf, tf, norm);
    TermScoreIs(idf, more, norm);
    TermScoreIs(idf, tf, longer);
    SaturationGrows(tf, more, norm);
    SaturationFalls(tf, norm, longer);
    SaturationBelowOne(tf, norm);
    GrowsStrictly(Saturation(tf, norm), Saturation(more, norm), s);
    GrowsStrictly(Saturation(tf, longer), Saturation(tf, norm), s);
    GrowsStrictly(Saturation(tf, norm), 1.0, s);
  }

  /** A rarer term counts more; and a term as frequent as the length norm counts its idf. */
  lemma TermScoreOfIdf(idf: real, rarer: real, tf: real, norm: real)
    requires idf < rarer && tf > 0.0 && norm > 0.0
    ensures TermScore(idf, tf, norm) < TermScore(rarer, tf, norm)
    ensures TermScore(idf, norm, norm) == idf
  {
    TermScoreIs(idf, tf, norm);
    TermScoreIs(rarer, tf, norm);
    SaturationBelowOne(tf, norm);
    var s := Saturation(tf, norm);
    GrowsStrictly(idf * 2.2, rarer * 2.2, s);
    TermScoreIs(idf, norm, norm);
    EqualParts(norm);
  }

  lemma EqualParts(norm: real)
    requires norm > 0.0
    ensures 2.2 * Saturation(norm, norm) == 1.0
  {
    assert norm + 1.2 * norm == 2.2 * norm;
    assert norm / (2.2 * norm) * (2.2 * norm) == norm;
    Cancelled(norm / (2.2 * norm), norm);
  }

  lemma Cancelled(x: real, norm: real)
    requires norm > 0.0 && x * (2.2 * norm) == norm
    ensures 2.2 * x == 1.0
  {
    assert (2.2 * x) * norm == 1.0 * norm;
  }

  // ----- lengths and frequencies -----

  /** The length norm is one quarter for nothing, one for the mean length, and grows
      evenly with the length. */
  lemma LengthNormIs(length: nat, longer: nat, average: real)
    requires average > 0.0 && length < longer
    ensures LengthNorm(0, average) == 0.25
    ensures length as real == average ==> LengthNorm(length, average) == 1.0
    ensures LengthNorm(length, average) < LengthNorm(longer, average)
  {
    Shorter(length as real, longer as real, average);
  }

  lemma Shorter(x: real, y: real, average: real)
    requires average > 0.0 && x < y
    ensures x / average < y / average && (x == average ==> x / average == 1.0)
  {
    GrowsStrictly(x, y, average);
    CrossLess(x, average, y, average);
  }

  ghost predicate Increasing(ln: Log) { forall x: real, y: real :: 0.0 < x < y ==> ln(x) < ln(y) }

  /** The idf is the logarithm of (N + 1) / (df + 0.5), so it falls as more documents
      hold the term. */
  lemma IdfIs(total: nat, df: nat, ln: Log)
    requires df <= total
    ensures Idf(total, df, ln) == ln((total as real + 1.0) / (df as real + 0.5))
  {
    OneMore(total as real, df as real);
  }

  lemma OneMore(n: real, d: real)
    requires d >= 0.0
    ensures (n - d + 0.5) / (d + 0.5) + 1.0 == (n + 1.0) / (d + 0.5)
  {
    var y := d + 0.5;
    assert (n - d + 0.5) / y * y == n - d + 0.5 && (n + 1.0) / y * y == n + 1.0;
    SameTimes((n - d + 0.5) / y + 1.0, (n + 1.0) / y, y);
  }

  lemma SameTimes(a: real, b: real, y: real)
    requires y > 0.0 && a * y == b * y
    ensures a == b
  {}

  lemma IdfFalls(total: nat, df: nat, more: nat, ln: Log)
    requires df < more <= total && Increasing(ln)
    ensures Idf(total, df, ln) > Idf(total, more, ln)
  {
    IdfIs(total, df, ln);
    IdfIs(total, more, ln);
    var n, x, y := total as real + 1.0, df as real + 0.5, more as real + 0.5;
    GrowsStrictly(x, y, n);
    CrossLess(n, y, n, x);
    Quotient(n, y);
  }

  /** How many documents hold the term. */
  lemma {:induction false} FrequencyCounts(docs: seq<Doc>, term: string)
    ensures DocumentFrequency(docs, term) == |set i | 0 <= i < |docs| && term in docs[i].weighted|
  {
    var all := set i | 0 <= i < |docs| && term in docs[i].weighted;
    if docs == [] {
      assert all == {};
    } else {
      var n := |docs| - 1;
      var front := docs[..n];
      FrequencyCounts(front, term);
      var before := set i | 0 <= i < |front| && term in front[i].weighted;
      assert all == before + if term in docs[n].weighted then {n} else {};
    }
  }

  /** The mean length times the number of documents is what the lengths add up to. */
  lemma {:induction false} LengthsAddUp(docs: seq<Doc>, more: seq<Doc>)
    ensures TotalLength(docs + more) == TotalLength(docs) + TotalLength(more)
    ensures |docs| == 1 ==> TotalLength(docs) == docs[0].length
    ensures docs != [] ==> Average(docs) * |docs| as real == TotalLength(docs) as real
  {
    if more == [] {
      assert docs + more == docs;
    } else {
      assert (docs + more)[..|docs + more| - 1] == docs + more[..|more| - 1];
      LengthsAddUp(docs, more[..|more| - 1]);
    }
  }

  // ----- the ranking -----

  /** Higher scores stand first; of equal ones higher tie-break scores, then smaller
      ids, then earlier entries. */
  lemma StandsBefore(entries: seq<Entry>, query: string, now: int, blank: char -> bool, reader: Reader, ln: Log,
                     order: seq<nat>, a: nat, b: nat)
    requires Ranking(entries, query, now, blank, reader, ln, order) && a < b < |order|
    ensures order[a] < |entries| && order[b] < |entries| && Sound(DocsOf(entries, reader), Average(DocsOf(entries, reader)))
    ensures var (i, j) := (order[a], order[b]);
            var (x, y) := (EntryScore(entries, i, query, blank, reader, ln), EntryScore(entries, j, query, blank, reader, ln));
            var (s, t) := (TieBreakScore(entries[i], now), TieBreakScore(entries[j], now));
            && x >= y
            && (x == y ==> s >= t)
            && (x == y && s == t ==> entries[i].id == entries[j].id || Less(entries[i].id, entries[j].id))
            && (x == y && s == t && entries[i].id == entries[j].id ==> i < j)
  {
    assert order[a] in order && order[b] in order;
    assert Before(KeyOf(entries, order[a], query, now, blank, reader, ln), KeyOf(entries, order[b], query, now, blank, reader, ln));
  }

  lemma OneTermScore(docs: seq<Doc>, doc: Doc, average: real, term: string, ln: Log)
    requires AllPositive(doc.weighted) && (doc.weighted != map[] ==> average > 0.0)
    ensures Score(docs, doc, average, [term], ln) == Contribution(docs, doc, average, term, ln)
  {
    assert [term][..0] == [];
  }

  /** Of two documents of one length, the one with more weight on the term scores more. */
  lemma MoreWeightScoresMore(docs: seq<Doc>, x: Doc, y: Doc, average: real, term: string, ln: Log)
    requires average > 0.0 && PositiveAboveOne(ln) && AllPositive(x.weighted) && AllPositive(y.weighted)
    requires x.length == y.length && term in y.weighted && Get(x.weighted, term) > Get(y.weighted, term)
    ensures Score(docs, x, average, [term], ln) > Score(docs, y, average, [term], ln)
  {
    OneTermScore(docs, x, average, term, ln);
    OneTermScore(docs, y, average, term, ln);
    IdfPositive(|docs|, DocumentFrequency(docs, term), ln);
    var norm := LengthNorm(x.length, average);
    assert AllPositive(y.weighted) && y.weighted[term] > 0.0;
    assert term in x.weighted;
    TermScoreOrder(Idf(|docs|, DocumentFrequency(docs, term), ln), y.weighted[term], norm, x.weighted[term], norm + 1.0);
  }

  /** So for a query of one term: of two candidates of one length that are both an exact
      match or both none, the one with more weight on the term stands first. */
  lemma MoreStandsFirst(entries: seq<Entry>, query: string, now: int, blank: char -> bool, reader: Reader, ln: Log,
                        order: seq<nat>, term: string, a: nat, b: nat)
    requires Ranking(entries, query, now, blank, reader, ln, order) && a < |order| && b < |order|
    requires PositiveAboveOne(ln) && Terms(query, reader) == [term]
    requires order[a] < |entries| && order[b] < |entries|
    requires var (i, j) := (order[a], order[b]);
             var (x, y) := (DocOf(entries[i], reader), DocOf(entries[j], reader));
             && x.length == y.length && Get(x.weighted, term) > Get(y.weighted, term)
             && (Normalized(entries[i].content, blank, reader) == Normalized(query, blank, reader)
                 <==> Normalized(entries[j].content, blank, reader) == Normalized(query, blank, reader))
    ensures a < b
  {
    DocsAreSound(entries, reader);
    var docs := DocsOf(entries, reader);
    var i, j := order[a], order[b];
    assert i in order && j in order;
    SharesIsSharesTerm(entries[j], query, reader);
    assert term in docs[j].weighted;
    MoreWeightScoresMore(docs, docs[i], docs[j], Average(docs), term, ln);
    if b < a {
      StandsBefore(entries, query, now, blank, reader, ln, order, b, a);
    }
  }

  /** In particular with the same tags and facet, equally many terms, and more of them
      the query's. */
  lemma MoreOccurrencesStandFirst(entries: seq<Entry>, query: string, now: int, blank: char -> bool, reader: Reader,
                                  ln: Log, order: seq<nat>, term: string, a: nat, b: nat)
    requires Ranking(entries, query, now, blank, reader, ln, order) && a < |order| && b < |order|
    requires PositiveAboveOne(ln) && Terms(query, reader) == [term]
    requires order[a] < |entries| && order[b] < |entries|
    requires var (e, f) := (entries[order[a]], entries[order[b]]);
             && e.tags == f.tags && e.facet == f.facet
             && |Terms(e.content, reader)| == |Terms(f.content, reader)|
             && multiset(Terms(e.content, reader))[term] > multiset(Terms(f.content, reader))[term]
             && (Normalized(e.content, blank, reader) == Normalized(query, blank, reader)
                 <==> Normalized(f.content, blank, reader) == Normalized(query, blank, reader))
    ensures a < b
  {
    var e, f := entries[order[a]], entries[order[b]];
    DocWeight(e, reader, term);
    DocWeight(f, reader, term);
    OccurrencesCount(Terms(e.content, reader), term, CONTENT_WEIGHT);
    OccurrencesCount(Terms(f.content, reader), term, CONTENT_WEIGHT);
    MoreStandsFirst(entries, query, now, blank, reader, ln, order, term, a, b);
  }

  lemma {:induction false} OccurrencesCount(terms: seq<string>, term: string, weight: real)
    ensures Occurrences(terms, term, weight) == Times(multiset(terms)[term], weight)
  {
    if terms != [] {
      var front, last := terms[..|terms| - 1], terms[|terms| - 1];
      OccurrencesCount(front, term, weight);
      CountSnoc(front, last, term);
      assert terms == front + [last];
      OnceMore(multiset(front)[term], weight);
    }
  }

  function Times(n: nat, weight: real): real { n as real * weight }

  lemma CountSnoc(front: seq<string>, last: string, term: string)
    ensures multiset(front + [last])[term] == multiset(front)[term] + if last == term then 1 else 0
  {}

  lemma OnceMore(n: nat, weight: real)
    ensures Times(n + 1, weight) == Times(n, weight) + weight
  {}

  // ----- exact matches -----

  /** A score adds up over the terms of the query, each as often as the query says it. */
  lemma {:induction false} ScoreAddsUp(docs: seq<Doc>, doc: Doc, average: real, some: seq<string>, more: seq<string>, ln: Log)
    requires AllPositive(doc.weighted) && (doc.weighted != map[] ==> average > 0.0)
    ensures Score(docs, doc, average, some + more, ln)
         == Score(docs, doc, average, some, ln) + Score(docs, doc, average, more, ln)
  {
    if more == [] {
      assert some + more == some;
    } else {
      var front := more[..|more| - 1];
      assert (some + more)[..|some + more| - 1] == some + front;
      ScoreAddsUp(docs, doc, average, some, front, ln);
    }
  }

  /** An exact match stands before every other candidate whose terms score at most a hundred. */
  lemma ExactMatchStandsFirst(entries: seq<Entry>, query: string, now: int, blank: char -> bool, reader: Reader, ln: Log,
                              order: seq<nat>, a: nat, b: nat)
    requires Ranking(entries, query, now, blank, reader, ln, order) && a < |order| && b < |order|
    requires PositiveAboveOne(ln) && order[a] < |entries| && order[b] < |entries|
    requires Sound(DocsOf(entries, reader), Average(DocsOf(entries, reader)))
    requires var (e, f, docs) := (entries[order[a]], entries[order[b]], DocsOf(entries, reader));
             && Normalized(e.content, blank, reader) == Normalized(query, blank, reader)
             && Normalized(f.content, blank, reader) != Normalized(query, blank, reader)
             && Score(docs, docs[order[b]], Average(docs), Terms(query, reader), ln) <= 100.0
    ensures a < b
  {
    var docs := DocsOf(entries, reader);
    var i := order[a];
    assert i in order;
    SharesIsSharesTerm(entries[i], query, reader);
    ScorePositive(docs, docs[i], Average(docs), Terms(query, reader), ln);
    if b < a {
      StandsBefore(entries, query, now, blank, reader, ln, order, b, a);
    }
  }

  ghost predicate AllBlank(text: string, blank: char -> bool) { forall i :: 0 <= i < |text| ==> blank(text[i]) }

  /** Stripping takes blanks off both ends, until the first and the last character are none. */
  lemma {:induction false} StripIs(text: string, blank: char -> bool) returns (left: string, right: string)
    ensures text == left + Strip(text, blank) + right && AllBlank(left, blank) && AllBlank(right, blank)
    ensures var s := Strip(text, blank); s != "" ==> !blank(s[0]) && !blank(s[|s| - 1])
    decreases |text|
  {
    if text != "" && blank(text[0]) {
      left, right := StripIs(text[1..], blank);
      OffTheFront(text, left, Strip(text[1..], blank), right, blank);
      left := [text[0]] + left;
    } else if text != "" && blank(text[|text| - 1]) {
      left, right := StripIs(text[..|text| - 1], blank);
      OffTheEnd(text, left, Strip(text[..|text| - 1], blank), right, blank);
      right := right + [text[|text| - 1]];
    } else {
      left, right := "", "";
    }
  }

  lemma OffTheFront(text: string, left: string, s: string, right: string, blank: char -> bool)
    requires text != "" && text[1..] == left + s + right && blank(text[0]) && AllBlank(left, blank)
    ensures text == ([text[0]] + left) + s + right && AllBlank([text[0]] + left, blank)
  {
    assert text == [text[0]] + text[1..];
  }

  lemma OffTheEnd(text: string, left: string, s: string, right: string, blank: char -> bool)
    requires text != "" && text[..|text| - 1] == left + s + right && blank(text[|text| - 1]) && AllBlank(right, blank)
    ensures text == left + s + (right + [text[|text| - 1]]) && AllBlank(right + [text[|text| - 1]], blank)
  {
    assert text == text[..|text| - 1] + [text[|text| - 1]];
  }

  /** A limit takes that many from the front, a negative one leaves that many off the end. */
  lemma SlicedIs(order: seq<nat>, rest: seq<nat>, more: nat)
    ensures Sliced(order + rest, |order|) == order && Sliced(order, |order| + more) == order
    ensures rest != [] ==> Sliced(order + rest, -|rest|) == order
    ensures order != [] ==> Sliced(order, -|order| - more) == []
  {
    assert (order + rest)[..|order|] == order;
  }

  // ----- tie-breaks -----

  /** A pinned entry wins over any that is not, and up to twenty confirmations count. */
  lemma TieBreakOrder(e: Entry, f: Entry, now: int)
    requires e.confirmations >= 0
    ensures e.pinned && !f.pinned ==> TieBreakScore(e, now) > TieBreakScore(f, now)
    ensures e.pinned == f.pinned && e.lastConfirmedAt == f.lastConfirmedAt ==>
      (TieBreakScore(e, now) > TieBreakScore(f, now) <==> e.confirmations > f.confirmations && f.confirmations < 20)
  {}

  /** What a pin, one more confirmation and a later one add to the tie-break score, which is
      a thousand for an entry just confirmed that has neither. */
  lemma TieBreakSteps(e: Entry, later: int, now: int)
    ensures !e.pinned ==> TieBreakScore(e.(pinned := true), now) == TieBreakScore(e, now) + 10000
    ensures TieBreakScore(e.(confirmations := e.confirmations + 1), now)
         == TieBreakScore(e, now) + if e.confirmations < 20 then 100 else 0
    ensures TieBreakScore(e.(lastConfirmedAt := later), now) - TieBreakScore(e, now)
         == RecencyScore(later, now) - RecencyScore(e.lastConfirmedAt, now)
    ensures TieBreakScore(e.(pinned := false, confirmations := 0, lastConfirmedAt := now), now) == 1000
  {}

  /** A later confirmation never counts less; the steps are after 1, 8, 31 and 91 days. */
  lemma RecencySteps(last: int, later: int, now: int)
    requires last <= later
    ensures RecencyScore(last, now) <= RecencyScore(later, now)
    ensures RecencyScore(now + 1, now) == 1000 && RecencyScore(now - 86399, now) == 1000
    ensures RecencyScore(now - 86400, now) == 800 && RecencyScore(now - 8 * 86400 + 1, now) == 800
    ensures RecencyScore(now - 8 * 86400, now) == 500 && RecencyScore(now - 31 * 86400 + 1, now) == 500
    ensures RecencyScore(now - 31 * 86400, now) == 200 && RecencyScore(now - 91 * 86400 + 1, now) == 200
    ensures RecencyScore(now - 91 * 86400, now) == 50 && RecencyScore(last, now) >= 50
  {
    assert Max(0, now - later) <= Max(0, now - last);
  }
}
