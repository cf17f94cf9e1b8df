/** A reader for the JSON dialect of the `json!` macro, as far as the schema
    generator of agent/features/tools/build.rs uses it: objects (a trailing comma
    is allowed, a leading one is not, a later key wins), arrays, strings, `true`. */
module Json {
  import opened Wrappers

  datatype Json = Str(text: string) | True | Arr(items: seq<Json>) | Obj(members: map<string, Json>)

  datatype Token = LBrace | RBrace | LBracket | RBracket | Colon | Comma | Word(text: string) | TrueWord

  // ----- from characters to tokens -----

  datatype Scanned = Scanned(text: string, rest: string)

  /** The rest of a string literal, its opening quote already read. */
  function Literal(s: string): (r: Option<Scanned>)
    ensures r.Some? ==> |r.value.rest| < |s|
  {
    if s == "" then None
    else if s[0] == '"' then Some(Scanned("", s[1..]))
    else if s[0] == '\\' then
      if |s| < 2 || (s[1] != '\\' && s[1] != '"') then None
      else Prepend(s[1], Literal(s[2..]))
    else Prepend(s[0], Literal(s[1..]))
  }

  function Prepend(c: char, r: Option<Scanned>): Option<Scanned> {
    if r.None? then None else Some(Scanned([c] + r.value.text, r.value.rest))
  }

  function Punctuation(c: char): Option<Token> {
    match c
    case '{' => Some(LBrace)
    case '}' => Some(RBrace)
    case '[' => Some(LBracket)
    case ']' => Some(RBracket)
    case ':' => Some(Colon)
    case ',' => Some(Comma)
    case _ => None
  }

  predicate IsBlank(c: char) { c == ' ' || c == '\n' }

  datatype Headed = Headed(tokens: seq<Token>, rest: string)

  /** A blank, which gives no token, or the first token. */
  function Head(s: string): (h: Option<Headed>)
    requires s != ""
    ensures h.Some? ==> |h.value.rest| < |s|
  {
    if IsBlank(s[0]) then Some(Headed([], s[1..]))
    else if Punctuation(s[0]).Some? then Some(Headed([Punctuation(s[0]).value], s[1..]))
    else if s[0] == '"' then
      var scanned := Literal(s[1..]);
      if scanned.None? then None else Some(Headed([Word(scanned.value.text)], scanned.value.rest))
    else if |s| >= 4 && s[..4] == "true" then Some(Headed([TrueWord], s[4..]))
    else None
  }

  function Lex(s: string): Option<seq<Token>>
    decreases |s|
  {
    if s == "" then Some([])
    else
      var head := Head(s);
      if head.None? then None
      else
        var rest := Lex(head.value.rest);
        if rest.None? then None else Some(head.value.tokens + rest.value)
  }

  lemma {:induction false} LiteralConcat(a: string, b: string)
    requires Literal(a).Some?
    ensures Literal(a + b) == Some(Scanned(Literal(a).value.text, Literal(a).value.rest + b))
  {
    if a[0] == '"' {
      assert (a + b)[1..] == a[1..] + b;
    } else if a[0] == '\\' {
      assert (a + b)[2..] == a[2..] + b;
      LiteralConcat(a[2..], b);
    } else {
      assert (a + b)[1..] == a[1..] + b;
      LiteralConcat(a[1..], b);
    }
  }

  lemma HeadConcat(a: string, b: string)
    requires a != "" && Head(a).Some?
    ensures Head(a + b) == Some(Headed(Head(a).value.tokens, Head(a).value.rest + b))
  {
    assert (a + b)[0] == a[0] && (a + b)[1..] == a[1..] + b;
    if a[0] == '"' {
      LiteralConcat(a[1..], b);
    } else if |a| >= 4 {
      assert (a + b)[..4] == a[..4] && (a + b)[4..] == a[4..] + b;
    }
  }

  lemma LexStep(s: string, h: Headed, tokens: seq<Token>)
    requires s != "" && Head(s) == Some(h) && Lex(h.rest) == Some(tokens)
    ensures Lex(s) == Some(h.tokens + tokens)
  {}

  lemma LexHasHead(s: string) returns (h: Headed, tokens: seq<Token>)
    requires s != "" && Lex(s).Some?
    ensures Head(s) == Some(h) && Lex(h.rest) == Some(tokens) && Lex(s) == Some(h.tokens + tokens)
    ensures |h.rest| < |s|
  {
    h, tokens := Head(s).value, Lex(Head(s).value.rest).value;
  }

  ghost predicate Lexes(s: string, tokens: seq<Token>) { Lex(s) == Some(tokens) }

  /** Texts that lex on their own may be put side by side. */
  lemma {:induction false} LexConcat(a: string, ta: seq<Token>, b: string, tb: seq<Token>)
    requires Lexes(a, ta) && Lexes(b, tb)
    ensures Lexes(a + b, ta + tb)
    decreases |a|
  {
    if a == "" {
      assert a + b == b && ta + tb == tb;
    } else {
      var h, tokens := LexHasHead(a);
      LexConcat(h.rest, tokens, b, tb);
      LexConcatStep(a, h, tokens, b, tb);
    }
  }

  lemma LexConcatStep(a: string, h: Headed, tokens: seq<Token>, b: string, tb: seq<Token>)
    requires a != "" && Head(a) == Some(h) && Lexes(h.rest + b, tokens + tb)
    ensures Lexes(a + b, h.tokens + tokens + tb)
  {
    HeadConcat(a, b);
    LexStep(a + b, Headed(h.tokens, h.rest + b), tokens + tb);
    assert h.tokens + (tokens + tb) == h.tokens + tokens + tb;
  }

  // ----- from tokens to values -----

  datatype Parsed = Parsed(value: Json, rest: seq<Token>)

  function ParseValue(ts: seq<Token>): (r: Option<Parsed>)
    ensures r.Some? ==> |r.value.rest| < |ts|
    decreases |ts|, 0
  {
    if ts == [] then None
    else match ts[0]
      case LBrace => ParseMembers(ts[1..], map[])
      case LBracket => ParseItems(ts[1..], [])
      case Word(text) => Some(Parsed(Str(text), ts[1..]))
      case TrueWord => Some(Parsed(True, ts[1..]))
      case _ => None
  }

  function ParseMembers(ts: seq<Token>, sofar: map<string, Json>): (r: Option<Parsed>)
    ensures r.Some? ==> |r.value.rest| < |ts|
    decreases |ts|, 1
  {
    if ts == [] then None
    else if ts[0] == RBrace then Some(Parsed(Obj(sofar), ts[1..]))
    else if |ts| < 2 || !ts[0].Word? || ts[1] != Colon then None
    else
      var value := ParseValue(ts[2..]);
      if value.None? || value.value.rest == [] then None
      else AfterMember(value.value.rest, sofar[ts[0].text := value.value.value])
  }

  function AfterMember(ts: seq<Token>, sofar: map<string, Json>): (r: Option<Parsed>)
    requires ts != []
    ensures r.Some? ==> |r.value.rest| < |ts|
    decreases |ts|, 0
  {
    if ts[0] == Comma then ParseMembers(ts[1..], sofar)
    else if ts[0] == RBrace then Some(Parsed(Obj(sofar), ts[1..]))
    else None
  }

  function ParseItems(ts: seq<Token>, sofar: seq<Json>): (r: Option<Parsed>)
    ensures r.Some? ==> |r.value.rest| < |ts|
    decreases |ts|, 1
  {
    if ts == [] then None
    else if ts[0] == RBracket then Some(Parsed(Arr(sofar), ts[1..]))
    else
      var value := ParseValue(ts);
      if value.None? || value.value.rest == [] then None
      else AfterItem(value.value.rest, sofar + [value.value.value])
  }

  function AfterItem(ts: seq<Token>, sofar: seq<Json>): (r: Option<Parsed>)
    requires ts != []
    ensures r.Some? ==> |r.value.rest| < |ts|
    decreases |ts|, 0
  {
    if ts[0] == Comma then ParseItems(ts[1..], sofar)
    else if ts[0] == RBracket then Some(Parsed(Arr(sofar), ts[1..]))
    else None
  }

  /** The value a text stands for. */
  function Read(text: string): Option<Json> {
    var tokens := Lex(text);
    if tokens.None? then None
    else
      var parsed := ParseValue(tokens.value);
      if parsed.Some? && parsed.value.rest == [] then Some(parsed.value.value) else None
  }

  // ----- members and items, put together -----

  ghost predicate Reads(value: seq<Token>, json: Json) {
    forall rest: seq<Token> :: ParseValue(value + rest) == Some(Parsed(json, rest))
  }

  /** The parts with a comma between any two. */
  ghost function Joined(parts: seq<seq<Token>>): seq<Token> {
    if parts == [] then []
    else if |parts| == 1 then parts[0]
    else parts[0] + [Comma] + Joined(parts[1..])
  }

  lemma {:induction false} JoinedSnoc(parts: seq<seq<Token>>, part: seq<Token>)
    requires parts != []
    ensures Joined(parts + [part]) == Joined(parts) + [Comma] + part
  {
    assert (parts + [part])[1..] == parts[1..] + [part];
    if |parts| > 1 {
      JoinedSnoc(parts[1..], part);
    } else {
      assert parts[1..] + [part] == [part];
    }
  }

  datatype Member = Member(key: string, value: seq<Token>, json: Json)

  ghost function Part(m: Member): seq<Token> { [Word(m.key), Colon] + m.value }

  ghost function Parts(ms: seq<Member>): (parts: seq<seq<Token>>)
    ensures |parts| == |ms| && forall i :: 0 <= i < |ms| ==> parts[i] == Part(ms[i])
  {
    seq(|ms|, i requires 0 <= i < |ms| => Part(ms[i]))
  }

  ghost predicate AllRead(ms: seq<Member>) {
    forall i :: 0 <= i < |ms| ==> Reads(ms[i].value, ms[i].json)
  }

  /** The object that the members make: a later key wins. */
  ghost function MapOf(ms: seq<Member>): map<string, Json> {
    if ms == [] then map[] else map[ms[0].key := ms[0].json] + MapOf(ms[1..])
  }

  lemma {:induction false} MapOfSnoc(ms: seq<Member>, m: Member)
    ensures MapOf(ms + [m]) == MapOf(ms)[m.key := m.json]
  {
    if ms == [] {
      assert (ms + [m])[1..] == [];
      assert MapOf([]) == map[];
    } else {
      assert (ms + [m])[1..] == ms[1..] + [m];
      MapOfSnoc(ms[1..], m);
    }
  }

  ghost function Tail(trailing: bool): seq<Token> { if trailing then [Comma, RBrace] else [RBrace] }

  lemma ReadMember(m: Member, after: seq<Token>, sofar: map<string, Json>)
    requires Reads(m.value, m.json) && after != []
    ensures ParseMembers(Part(m) + after, sofar) == AfterMember(after, sofar[m.key := m.json])
  {
    var ts := Part(m) + after;
    assert ts[2..] == m.value + after;
  }

  lemma LastMember(m: Member, trailing: bool, rest: seq<Token>, sofar: map<string, Json>)
    requires Reads(m.value, m.json)
    ensures ParseMembers(Part(m) + (Tail(trailing) + rest), sofar) == Some(Parsed(Obj(sofar[m.key := m.json]), rest))
  {
    var end := Tail(trailing) + rest;
    ReadMember(m, end, sofar);
    if trailing {
      assert end[1..] == [RBrace] + rest;
      assert end[1..][1..] == rest;
    } else {
      assert end[1..] == rest;
    }
  }

  lemma FirstMember(ms: seq<Member>, end: seq<Token>)
    requires |ms| > 1
    ensures Joined(Parts(ms)) + end == Part(ms[0]) + ([Comma] + (Joined(Parts(ms[1..])) + end))
  {
    assert Parts(ms)[1..] == Parts(ms[1..]);
  }

  lemma {:induction false} ReadMembers(ms: seq<Member>, trailing: bool, rest: seq<Token>, sofar: map<string, Json>)
    requires AllRead(ms) && ms != []
    ensures ParseMembers(Joined(Parts(ms)) + (Tail(trailing) + rest), sofar) == Some(Parsed(Obj(sofar + MapOf(ms)), rest))
    decreases |ms|
  {
    var next := sofar[ms[0].key := ms[0].json];
    assert sofar + MapOf(ms) == next + MapOf(ms[1..]);
    if |ms| == 1 {
      LastMember(ms[0], trailing, rest, sofar);
      assert ms[1..] == [];
      assert next + MapOf(ms[1..]) == next;
    } else {
      var end := Tail(trailing) + rest;
      var more := Joined(Parts(ms[1..])) + end;
      FirstMember(ms, end);
      ReadMember(ms[0], [Comma] + more, sofar);
      AfterComma(more, next);
      ReadMembers(ms[1..], trailing, rest, next);
    }
  }

  lemma AfterComma(more: seq<Token>, sofar: map<string, Json>)
    ensures AfterMember([Comma] + more, sofar) == ParseMembers(more, sofar)
  {
    assert ([Comma] + more)[1..] == more;
  }

  ghost function Braced(ms: seq<Member>, trailing: bool): seq<Token> {
    [LBrace] + Joined(Parts(ms)) + Tail(trailing)
  }

  lemma ObjectReads(ms: seq<Member>, trailing: bool)
    requires AllRead(ms) && (trailing ==> ms != [])
    ensures Reads(Braced(ms, trailing), Obj(MapOf(ms)))
  {
    forall rest: seq<Token> ensures ParseValue(Braced(ms, trailing) + rest) == Some(Parsed(Obj(MapOf(ms)), rest)) {
      ObjectParses(ms, trailing, rest);
    }
  }

  lemma ObjectParses(ms: seq<Member>, trailing: bool, rest: seq<Token>)
    requires AllRead(ms) && (trailing ==> ms != [])
    ensures ParseValue(Braced(ms, trailing) + rest) == Some(Parsed(Obj(MapOf(ms)), rest))
  {
    var ts := Braced(ms, trailing) + rest;
    assert ts[1..] == Joined(Parts(ms)) + (Tail(trailing) + rest);
    if ms == [] {
      assert ts[1..] == [RBrace] + rest && ts[1..][1..] == rest;
    } else {
      ReadMembers(ms, trailing, rest, map[]);
      assert map[] + MapOf(ms) == MapOf(ms);
    }
  }

  // ----- arrays of strings -----

  ghost function Words(names: seq<string>): (parts: seq<seq<Token>>)
    ensures |parts| == |names| && forall i :: 0 <= i < |names| ==> parts[i] == [Word(names[i])]
  {
    seq(|names|, i requires 0 <= i < |names| => [Word(names[i])])
  }

  function Strs(names: seq<string>): (items: seq<Json>)
    ensures |items| == |names| && forall i :: 0 <= i < |names| ==> items[i] == Str(names[i])
  {
    seq(|names|, i requires 0 <= i < |names| => Str(names[i]))
  }

  lemma ReadItem(name: string, after: seq<Token>, sofar: seq<Json>)
    requires after != []
    ensures ParseItems([Word(name)] + after, sofar) == AfterItem(after, sofar + [Str(name)])
  {
    assert ([Word(name)] + after)[1..] == after;
  }

  lemma EndOfItems(more: seq<Token>, sofar: seq<Json>)
    ensures AfterItem([Comma] + more, sofar) == ParseItems(more, sofar)
    ensures AfterItem([RBracket] + more, sofar) == Some(Parsed(Arr(sofar), more))
    ensures ParseItems([RBracket] + more, sofar) == Some(Parsed(Arr(sofar), more))
  {
    assert ([Comma] + more)[1..] == more && ([RBracket] + more)[1..] == more;
  }

  lemma LastItem(name: string, rest: seq<Token>, sofar: seq<Json>)
    ensures ParseItems([Word(name)] + ([RBracket] + rest), sofar) == Some(Parsed(Arr(sofar + [Str(name)]), rest))
  {
    ReadItem(name, [RBracket] + rest, sofar);
    EndOfItems(rest, sofar + [Str(name)]);
  }

  lemma FirstStr(names: seq<string>, sofar: seq<Json>)
    requires names != []
    ensures sofar + [Str(names[0])] + Strs(names[1..]) == sofar + Strs(names)
  {}

  lemma FirstItem(names: seq<string>, end: seq<Token>)
    requires |names| > 1
    ensures Joined(Words(names)) + end == [Word(names[0])] + ([Comma] + (Joined(Words(names[1..])) + end))
  {
    assert Words(names)[1..] == Words(names[1..]);
  }

  lemma {:induction false} ReadItems(names: seq<string>, rest: seq<Token>, sofar: seq<Json>)
    ensures ParseItems(Joined(Words(names)) + ([RBracket] + rest), sofar) == Some(Parsed(Arr(sofar + Strs(names)), rest))
    decreases |names|
  {
    var end := [RBracket] + rest;
    if names == [] {
      EndOfItems(rest, sofar);
      assert Joined(Words(names)) + end == end;
      assert sofar + Strs(names) == sofar;
    } else if |names| == 1 {
      LastItem(names[0], rest, sofar);
      assert Strs(names) == [Str(names[0])];
    } else {
      var more := Joined(Words(names[1..])) + end;
      FirstItem(names, end);
      ReadItem(names[0], [Comma] + more, sofar);
      EndOfItems(more, sofar + [Str(names[0])]);
      ReadItems(names[1..], rest, sofar + [Str(names[0])]);
      FirstStr(names, sofar);
    }
  }

  ghost function Bracketed(names: seq<string>): seq<Token> { [LBracket] + Joined(Words(names)) + [RBracket] }

  lemma ArrayReads(names: seq<string>)
    ensures Reads(Bracketed(names), Arr(Strs(names)))
  {
    forall rest: seq<Token> ensures ParseValue(Bracketed(names) + rest) == Some(Parsed(Arr(Strs(names)), rest)) {
      var ts := Bracketed(names) + rest;
      assert ts[1..] == Joined(Words(names)) + ([RBracket] + rest);
      ReadItems(names, rest, []);
      assert [] + Strs(names) == Strs(names);
    }
  }

  lemma WordReads(text: string)
    ensures Reads([Word(text)], Str(text)) && Reads([TrueWord], True)
  {
    forall rest: seq<Token>
      ensures ParseValue([Word(text)] + rest) == Some(Parsed(Str(text), rest))
      ensures ParseValue([TrueWord] + rest) == Some(Parsed(True, rest))
    {
      assert ([Word(text)] + rest)[1..] == rest;
      assert ([TrueWord] + rest)[1..] == rest;
    }
  }
}
