/** Text splicing equals structural editing: what agent/features/tools/build.rs
    writes reads back as the schema that is built here directly as a tree. */
module SchemaTree {
  import opened Wrappers
  import opened Json
  import opened SchemaGen

  // ----- the schema as a tree -----

  /** The JSON type of a type that is described by its name alone. */
  function PlainName(arm: Arm): string {
    match arm
    case StringArm => "string"
    case IntegerArm => "integer"
    case NumberArm => "number"
    case BoolArm => "boolean"
    case VecArm => "array"
    case _ => "object"
  }

  function Typed(name: string): map<string, Json> { map["type" := Str(name)] }

  /** The members of the schema object of a type. */
  function TypeTree(ty: Ty, t: Tables, ghost rank: string -> nat, ghost k: nat): Option<map<string, Json>>
    requires Acyclic(t, rank) && Uses(ty, t, rank, k)
    decreases k, 0, ty
  {
    match ty
    case Named(arm, arg) =>
      if IsWrapper(arm) && arg.Some? then
        var inner := TypeTree(arg.value, t, rank, k);
        if inner.None? then None
        else Some(match arm
                  case OptionArm => inner.value["nullable" := True]
                  case VecArm => Typed("array")["items" := Obj(inner.value)]
                  case _ => inner.value)
      else if IsStruct(arm, t) then StructTree(t.structs[arm.name], t, rank, rank(arm.name))
      else if arm.Other? && arm.name in t.enums then Some(Typed("string")["enum" := Arr(Strs(t.enums[arm.name]))])
      else if arm.ValueArm? then Some(map[])
      else Some(Typed(PlainName(arm)))
    case Reference(elem) => TypeTree(elem, t, rank, k)
    case Unsupported => None
  }

  /** Line breaks in a description become spaces; nothing else is lost. */
  function OneLine(doc: string): string { ReplaceAll(doc, {'\n', '\r'}, " ") }

  function FieldTree(f: Field, t: Tables, ghost rank: string -> nat, ghost k: nat): Option<map<string, Json>>
    requires Acyclic(t, rank) && Uses(f.ty, t, rank, k)
    decreases k, 1
  {
    var members := TypeTree(f.ty, t, rank, k);
    var doc := ExtractDoc(f.docs);
    if members.None? || doc.None? then members
    else Some(members.value["description" := Str(OneLine(doc.value))])
  }

  function PropertiesTree(fields: seq<Field>, t: Tables, ghost rank: string -> nat, ghost k: nat): Option<map<string, Json>>
    requires Acyclic(t, rank) && AllUse(fields, t, rank, k)
    decreases k, 2, |fields|
  {
    if fields == [] then Some(map[])
    else
      var f := fields[|fields| - 1];
      var front := PropertiesTree(fields[..|fields| - 1], t, rank, k);
      if front.None? || f.ident.None? then front
      else
        var members := FieldTree(f, t, rank, k);
        if members.None? then None else Some(front.value[f.ident.value := Obj(members.value)])
  }

  function StructTree(fields: seq<Field>, t: Tables, ghost rank: string -> nat, ghost k: nat): Option<map<string, Json>>
    requires Acyclic(t, rank) && AllUse(fields, t, rank, k)
    decreases k, 3
  {
    var properties := PropertiesTree(fields, t, rank, k);
    if properties.None? then None
    else
      var members := Typed("object")["properties" := Obj(properties.value)];
      Some(if Required(fields) == [] then members else members["required" := Arr(Strs(Required(fields)))])
  }

  // ----- names, blanks and descriptions as tokens -----

  /** An identifier holds neither a quote nor a backslash. */
  ghost predicate Clean(name: string) { '"' !in name && '\\' !in name }

  ghost predicate CleanFields(fields: seq<Field>) {
    forall i :: 0 <= i < |fields| && fields[i].ident.Some? ==> Clean(fields[i].ident.value)
  }

  ghost predicate AllClean(names: seq<string>) { forall i :: 0 <= i < |names| ==> Clean(names[i]) }

  ghost predicate CleanTables(t: Tables) {
    && (forall name :: name in t.structs ==> CleanFields(t.structs[name]))
    && (forall name :: name in t.enums ==> AllClean(t.enums[name]))
  }

  lemma {:induction false} LiteralOfClean(name: string, rest: string)
    requires Clean(name)
    ensures Literal(name + "\"" + rest) == Some(Scanned(name, rest))
  {
    var s := name + "\"" + rest;
    if name == "" {
      assert s[1..] == rest;
    } else {
      assert s[1..] == name[1..] + "\"" + rest;
      LiteralOfClean(name[1..], rest);
      assert [name[0]] + name[1..] == name;
    }
  }

  function Escape1(c: char): string {
    if c == '\\' then "\\\\" else if c == '"' then "\\\"" else if c == '\n' || c == '\r' then " " else [c]
  }

  lemma {:induction false} ReplaceAllConcat(a: string, b: string, cs: set<char>, with: string)
    ensures ReplaceAll(a + b, cs, with) == ReplaceAll(a, cs, with) + ReplaceAll(b, cs, with)
  {
    if a == "" {
      assert a + b == b;
    } else {
      assert (a + b)[1..] == a[1..] + b;
      ReplaceAllConcat(a[1..], b, cs, with);
    }
  }

  lemma ReplaceAllOne(c: char, cs: set<char>, with: string)
    ensures ReplaceAll([c], cs, with) == if c in cs then with else [c]
  {
    assert [c][1..] == "";
    assert ReplaceAll("", cs, with) == "";
  }

  lemma ReplaceAllTwo(c: char, d: char, cs: set<char>, with: string)
    ensures ReplaceAll([c, d], cs, with) == (if c in cs then with else [c]) + (if d in cs then with else [d])
  {
    assert [c, d][1..] == [d];
    ReplaceAllOne(d, cs, with);
  }

  lemma EscapeConcat(a: string, b: string)
    ensures JsonEscape(a + b) == JsonEscape(a) + JsonEscape(b)
  {
    var a1, b1 := ReplaceAll(a, {'\\'}, "\\\\"), ReplaceAll(b, {'\\'}, "\\\\");
    var a2, b2 := ReplaceAll(a1, {'"'}, "\\\""), ReplaceAll(b1, {'"'}, "\\\"");
    ReplaceAllConcat(a, b, {'\\'}, "\\\\");
    ReplaceAllConcat(a1, b1, {'"'}, "\\\"");
    ReplaceAllConcat(a2, b2, {'\n', '\r'}, " ");
  }

  lemma EscapeOne(c: char)
    ensures JsonEscape([c]) == Escape1(c)
  {
    ReplaceAllOne(c, {'\\'}, "\\\\");
    ReplaceAllOne(c, {'"'}, "\\\"");
    ReplaceAllOne(c, {'\n', '\r'}, " ");
    if c == '\\' {
      ReplaceAllTwo('\\', '\\', {'"'}, "\\\"");
      ReplaceAllTwo('\\', '\\', {'\n', '\r'}, " ");
    } else if c == '"' {
      ReplaceAllTwo('\\', '"', {'\n', '\r'}, " ");
    }
  }

  /** The three replacements, seen from one character at a time. */
  lemma EscapeByCharacter(s: string)
    requires s != ""
    ensures JsonEscape(s) == Escape1(s[0]) + JsonEscape(s[1..])
  {
    EscapeConcat([s[0]], s[1..]);
    EscapeOne(s[0]);
    assert [s[0]] + s[1..] == s;
  }

  /** Escaping is undone by reading, but for line breaks. */
  lemma {:induction false} LiteralOfEscaped(doc: string, rest: string)
    ensures Literal(JsonEscape(doc) + "\"" + rest) == Some(Scanned(OneLine(doc), rest))
  {
    var s := JsonEscape(doc) + "\"" + rest;
    if doc == "" {
      assert JsonEscape(doc) == "";
      assert s[1..] == rest;
    } else {
      var more := JsonEscape(doc[1..]) + "\"" + rest;
      EscapeByCharacter(doc);
      LiteralOfEscaped(doc[1..], rest);
      assert s == Escape1(doc[0]) + more;
      EscapedFirst(doc[0], more);
      assert OneLine(doc) == (if doc[0] == '\n' || doc[0] == '\r' then " " else [doc[0]]) + OneLine(doc[1..]);
    }
  }

  lemma EscapedFirst(c: char, more: string)
    ensures Literal(Escape1(c) + more) == Prepend(if c == '\n' || c == '\r' then ' ' else c, Literal(more))
  {
    var s := Escape1(c) + more;
    if c == '\\' || c == '"' {
      assert s[2..] == more;
    } else {
      assert s[1..] == more;
    }
  }

  lemma LexOnly(s: string, token: Token)
    requires s != "" && Head(s) == Some(Headed([token], ""))
    ensures Lexes(s, [token])
  {
    LexStep(s, Headed([token], ""), []);
    assert [token] + [] == [token];
  }

  lemma LexQuotedText(encoded: string, text: string)
    requires Literal(encoded + "\"" + "") == Some(Scanned(text, ""))
    ensures Lexes(Quoted(encoded), [Word(text)])
  {
    var s, left := Quoted(encoded), encoded + "\"" + "";
    assert s == "\"" + left && s[1..] == left;
    LexOnly(s, Word(text));
  }

  lemma LexName(name: string)
    requires Clean(name)
    ensures Lexes(Quoted(name), [Word(name)])
  {
    LiteralOfClean(name, "");
    LexQuotedText(name, name);
  }

  lemma LexDescription(doc: string)
    ensures Lexes(Quoted(JsonEscape(doc)), [Word(OneLine(doc))])
  {
    LiteralOfEscaped(doc, "");
    LexQuotedText(JsonEscape(doc), OneLine(doc));
  }

  lemma LexMark(c: char, token: Token)
    requires !IsBlank(c) && Punctuation(c) == Some(token)
    ensures Lexes([c], [token])
  {
    assert [c][1..] == "";
    LexOnly([c], token);
  }

  lemma {:induction false} LexBlanks(s: string)
    requires forall i :: 0 <= i < |s| ==> IsBlank(s[i])
    ensures Lexes(s, [])
  {
    if s != "" {
      LexBlanks(s[1..]);
      var none: seq<Token> := [];
      LexStep(s, Headed(none, s[1..]), none);
      assert none + none == none;
    }
  }

  /** Blanks around a text change nothing. */
  lemma LexPadded(before: string, s: string, after: string, tokens: seq<Token>)
    requires forall i :: 0 <= i < |before| ==> IsBlank(before[i])
    requires forall i :: 0 <= i < |after| ==> IsBlank(after[i])
    requires Lexes(s, tokens)
    ensures Lexes(before + s + after, tokens)
  {
    LexBlanks(before);
    LexBlanks(after);
    LexConcat(before, [], s, tokens);
    LexConcat(before + s, [] + tokens, after, []);
    assert [] + tokens + [] == tokens;
  }

  lemma LexTrue()
    ensures Lexes("true", [TrueWord])
  {
    assert "true"[..4] == "true" && "true"[4..] == "";
    LexOnly("true", TrueWord);
  }

  // ----- members as tokens -----

  function MemberText(key: string, value: string): string { Quoted(key) + ": " + value }

  lemma LexMember(m: Member, value: string)
    requires Clean(m.key) && Lexes(value, m.value)
    ensures Lexes(MemberText(m.key, value), Part(m))
  {
    LexName(m.key);
    LexMark(':', Colon);
    LexPadded("", ":", " ", [Colon]);
    assert "" + ":" + " " == ": ";
    LexConcat(Quoted(m.key), [Word(m.key)], ": ", [Colon]);
    LexConcat(Quoted(m.key) + ": ", [Word(m.key)] + [Colon], value, m.value);
    assert [Word(m.key)] + [Colon] + m.value == Part(m);
  }

  lemma LexComma(blanks: string)
    requires forall i :: 0 <= i < |blanks| ==> IsBlank(blanks[i])
    ensures Lexes("," + blanks, [Comma])
  {
    LexMark(',', Comma);
    LexPadded("", ",", blanks, [Comma]);
    assert "" + "," + blanks == "," + blanks;
  }

  lemma LexThree(a: string, ta: seq<Token>, b: string, tb: seq<Token>, c: string, tc: seq<Token>)
    requires Lexes(a, ta) && Lexes(b, tb) && Lexes(c, tc)
    ensures Lexes(a + b + c, ta + tb + tc)
  {
    LexConcat(a, ta, b, tb);
    LexConcat(a + b, ta + tb, c, tc);
  }

  lemma {:induction false} LexJoin(texts: seq<string>, parts: seq<seq<Token>>, separator: string)
    requires |texts| == |parts| && Lexes(separator, [Comma])
    requires forall i :: 0 <= i < |texts| ==> Lexes(texts[i], parts[i])
    ensures Lexes(JoinText(texts, separator), Joined(parts))
  {
    if |texts| > 1 {
      LexJoin(texts[1..], parts[1..], separator);
      LexThree(texts[0], parts[0], separator, [Comma], JoinText(texts[1..], separator), Joined(parts[1..]));
    }
  }

  // ----- objects as texts -----

  /** The text is an object whose members are `ms`; only the bare braces are empty. */
  ghost predicate Forms(text: string, ms: seq<Member>) {
    && |text| >= 2
    && text == "{" + text[1..|text| - 1] + "}"
    && Lexes(text[1..|text| - 1], Joined(Parts(ms)))
    && AllRead(ms)
    && (ms == [] ==> text == "{}")
  }

  lemma FormsBy(text: string, body: string, ms: seq<Member>)
    requires text == "{" + body + "}" && Lexes(body, Joined(Parts(ms))) && AllRead(ms) && (ms == [] ==> body == "")
    ensures Forms(text, ms)
  {
    assert text[1..|text| - 1] == body;
  }

  lemma FormReads(text: string, ms: seq<Member>)
    requires Forms(text, ms)
    ensures Lexes(text, Braced(ms, false)) && Reads(Braced(ms, false), Obj(MapOf(ms)))
  {
    LexMark('{', LBrace);
    LexMark('}', RBrace);
    LexThree("{", [LBrace], text[1..|text| - 1], Joined(Parts(ms)), "}", [RBrace]);
    ObjectReads(ms, false);
  }

  ghost function TypeMember(name: string): Member { Member("type", [Word(name)], Str(name)) }

  lemma LexTypeIs(name: string)
    requires Clean(name)
    ensures Lexes(TypeIs(name), Part(TypeMember(name))) && Reads([Word(name)], Str(name))
  {
    LexName(name);
    LexMember(TypeMember(name), Quoted(name));
    WordReads(name);
  }

  lemma MapOfOne(m: Member)
    ensures MapOf([m]) == map[m.key := m.json]
    ensures Joined(Parts([m])) == Part(m)
  {
    assert [m][1..] == [];
    assert MapOf([]) == map[];
  }

  lemma MapOfTwo(m: Member, n: Member)
    ensures MapOf([m, n]) == map[m.key := m.json][n.key := n.json]
    ensures Joined(Parts([m, n])) == Part(m) + [Comma] + Part(n)
  {
    assert [m, n] == [m] + [n];
    MapOfOne(m);
    MapOfSnoc([m], n);
    assert Parts([m, n]) == [Part(m)] + [Part(n)];
    JoinedSnoc([Part(m)], Part(n));
  }

  lemma PlainForms(name: string) returns (ms: seq<Member>)
    requires Clean(name)
    ensures Forms(Plain(name), ms) && MapOf(ms) == Typed(name)
  {
    ms := [TypeMember(name)];
    LexTypeIs(name);
    MapOfOne(TypeMember(name));
    FormsBy(Plain(name), TypeIs(name), ms);
  }

  /** The type and one more member, on one line. */
  lemma PairForms(text: string, name: string, m: Member, value: string) returns (ms: seq<Member>)
    requires Clean(name) && Clean(m.key) && Lexes(value, m.value) && Reads(m.value, m.json)
    requires text == "{" + (TypeIs(name) + ", " + MemberText(m.key, value)) + "}"
    ensures Forms(text, ms) && MapOf(ms) == Typed(name)[m.key := m.json]
  {
    ms := [TypeMember(name), m];
    LexTypeIs(name);
    LexMember(m, value);
    LexComma(" ");
    LexThree(TypeIs(name), Part(TypeMember(name)), ", ", [Comma], MemberText(m.key, value), Part(m));
    MapOfTwo(TypeMember(name), m);
    FormsBy(text, TypeIs(name) + ", " + MemberText(m.key, value), ms);
  }

  lemma LexNames(names: seq<string>, indent: string, separator: string)
    requires AllClean(names) && Lexes(separator, [Comma])
    requires forall i :: 0 <= i < |indent| ==> IsBlank(indent[i])
    ensures Lexes(JoinText(QuotedAll(indent, names), separator), Joined(Words(names)))
  {
    forall i | 0 <= i < |names| ensures Lexes(QuotedAll(indent, names)[i], Words(names)[i]) {
      LexName(names[i]);
      LexPadded(indent, Quoted(names[i]), "", [Word(names[i])]);
      assert indent + Quoted(names[i]) + "" == indent + Quoted(names[i]);
    }
    LexJoin(QuotedAll(indent, names), Words(names), separator);
  }

  lemma LexBracketed(before: string, body: string, after: string, names: seq<string>)
    requires Lexes(body, Joined(Words(names)))
    requires forall i :: 0 <= i < |before| ==> IsBlank(before[i])
    requires forall i :: 0 <= i < |after| ==> IsBlank(after[i])
    ensures Lexes("[" + (before + body + after) + "]", Bracketed(names))
  {
    LexMark('[', LBracket);
    LexMark(']', RBracket);
    LexPadded(before, body, after, Joined(Words(names)));
    LexThree("[", [LBracket], before + body + after, Joined(Words(names)), "]", [RBracket]);
  }

  lemma EnumText(typed: string, key: string, names: string)
    ensures "{" + typed + ", " + key + ": [" + names + "]}"
         == "{" + (typed + ", " + (key + ": " + ("[" + ("" + names + "") + "]"))) + "}"
  {}

  lemma LexVariants(variants: seq<string>, names: string)
    requires AllClean(variants) && names == JoinText(QuotedAll("", variants), ", ")
    ensures Lexes("[" + ("" + names + "") + "]", Bracketed(variants))
    ensures Reads(Bracketed(variants), Arr(Strs(variants)))
  {
    LexComma(" ");
    LexNames(variants, "", ", ");
    LexBracketed("", names, "", variants);
    ArrayReads(variants);
  }

  lemma EnumForms(variants: seq<string>, names: string, text: string) returns (ms: seq<Member>)
    requires AllClean(variants) && names == JoinText(QuotedAll("", variants), ", ")
    requires text == "{" + TypeIs("string") + ", " + Quoted("enum") + ": [" + names + "]}"
    ensures Forms(text, ms) && MapOf(ms) == Typed("string")["enum" := Arr(Strs(variants))]
  {
    LexVariants(variants, names);
    EnumText(TypeIs("string"), Quoted("enum"), names);
    ms := PairForms(text, "string", Member("enum", Bracketed(variants), Arr(Strs(variants))), "[" + ("" + names + "") + "]");
  }

  lemma ArrayForms(items: string, inner: seq<Member>, text: string) returns (ms: seq<Member>)
    requires Forms(items, inner)
    requires text == "{" + TypeIs("array") + ", " + Quoted("items") + ": " + items + "}"
    ensures Forms(text, ms) && MapOf(ms) == Typed("array")["items" := Obj(MapOf(inner))]
  {
    FormReads(items, inner);
    assert text == "{" + (TypeIs("array") + ", " + MemberText("items", items)) + "}";
    ms := PairForms(text, "array", Member("items", Braced(inner, false), Obj(MapOf(inner))), items);
  }

  // ----- the two splices -----

  ghost function Nullable(): Member { Member("nullable", [TrueWord], True) }

  lemma LexNullable()
    ensures Lexes(Quoted("nullable") + ": true", Part(Nullable())) && Reads([TrueWord], True)
    ensures Lexes(NULLABLE, [Comma] + Part(Nullable()))
  {
    LexTrue();
    LexMember(Nullable(), "true");
    assert MemberText("nullable", "true") == Quoted("nullable") + ": true";
    LexComma("");
    assert "," + "" == ",";
    LexConcat(",", [Comma], Quoted("nullable") + ": true", Part(Nullable()));
    assert NULLABLE == "," + (Quoted("nullable") + ": true");
    WordReads("");
  }

  lemma LastBrace(inner: string, body: string)
    requires inner == "{" + body + "}"
    ensures MadeNullable(inner) ==
      if inner == "{}" then "{" + (" " + (Quoted("nullable") + ": true") + " ") + "}" else "{" + (body + NULLABLE) + "}"
  {
    assert inner[0] == '{' && inner[|inner| - 1] == '}';
    assert Trim(inner) == inner;
  }

  lemma BareNullableForms(inner: string)
    requires Forms(inner, [])
    ensures Forms(MadeNullable(inner), [Nullable()])
  {
    var body := Quoted("nullable") + ": true";
    LexNullable();
    LexPadded(" ", body, " ", Part(Nullable()));
    MapOfOne(Nullable());
    LastBrace(inner, inner[1..|inner| - 1]);
    FormsBy(MadeNullable(inner), " " + body + " ", [Nullable()]);
  }

  lemma LongerNullableForms(inner: string, ms: seq<Member>)
    requires Forms(inner, ms) && ms != []
    ensures Forms(MadeNullable(inner), ms + [Nullable()])
  {
    var body := inner[1..|inner| - 1];
    LexNullable();
    NotBare(inner, ms);
    LastBrace(inner, body);
    OneMoreForms(body, ms, NULLABLE, Nullable(), MadeNullable(inner));
  }

  /** One more member before the closing brace. */
  lemma OneMoreForms(body: string, ms: seq<Member>, addition: string, m: Member, text: string)
    requires Lexes(body, Joined(Parts(ms))) && AllRead(ms) && ms != []
    requires Lexes(addition, [Comma] + Part(m)) && Reads(m.value, m.json)
    requires text == "{" + (body + addition) + "}"
    ensures Forms(text, ms + [m])
  {
    LexConcat(body, Joined(Parts(ms)), addition, [Comma] + Part(m));
    PartsSnoc(ms, m);
    assert Joined(Parts(ms)) + ([Comma] + Part(m)) == Joined(Parts(ms + [m]));
    FormsBy(text, body + addition, ms + [m]);
  }

  /** The last brace is that of the outermost object, so the splice adds a member to it;
      the bare braces, where it would leave a leading comma, are taken apart. */
  lemma NullableForms(inner: string, ms: seq<Member>) returns (more: seq<Member>)
    requires Forms(inner, ms)
    ensures Forms(MadeNullable(inner), more) && MapOf(more) == MapOf(ms)["nullable" := True]
  {
    more := ms + [Nullable()];
    MapOfSnoc(ms, Nullable());
    if ms == [] {
      BareNullableForms(inner);
      assert more == [Nullable()];
    } else {
      LongerNullableForms(inner, ms);
    }
  }

  lemma NotBare(inner: string, ms: seq<Member>)
    requires Forms(inner, ms) && ms != []
    ensures inner != "{}"
  {
    assert |Joined(Parts(ms))| > 0 && Lex("") == Some([]);
    assert inner[1..|inner| - 1] != "";
  }

  lemma DescribedTokens(m: Member, ms: seq<Member>) returns (tokens: seq<Token>)
    requires AllRead(ms) && Reads(m.value, m.json) && m.key !in MapOf(ms)
    ensures tokens == [LBrace] + Part(m) + [Comma] + Joined(Parts(ms)) + [RBrace]
    ensures Reads(tokens, Obj(MapOf(ms)[m.key := m.json]))
  {
    var more := [m] + ms;
    assert more[1..] == ms && Parts(more)[1..] == Parts(ms);
    tokens := Braced(more, ms == []);
    if ms == [] {
      assert Joined(Parts(more)) == Part(m);
    } else {
      assert Joined(Parts(more)) == Part(m) + [Comma] + Joined(Parts(ms));
    }
    ObjectReads(more, ms == []);
    assert MapOf(more) == MapOf(ms)[m.key := m.json];
  }

  /** The first brace is that of the outermost object, so the splice adds a first
      member; in the bare braces it leaves a trailing comma. */
  lemma DescribedReads(schema: string, ms: seq<Member>, doc: string) returns (tokens: seq<Token>)
    requires Forms(schema, ms) && "description" !in MapOf(ms)
    ensures Lexes(ReplaceFirst(schema, '{', Description(doc)), tokens)
    ensures Reads(tokens, Obj(MapOf(ms)["description" := Str(OneLine(doc))]))
  {
    var m := Member("description", [Word(OneLine(doc))], Str(OneLine(doc)));
    var body := schema[1..|schema| - 1];
    LexDescription(doc);
    WordReads(OneLine(doc));
    LexMember(m, Quoted(JsonEscape(doc)));
    LexOpening(doc, m);
    LexMark('}', RBrace);
    LexThree(Description(doc), [LBrace] + Part(m) + [Comma], body, Joined(Parts(ms)), "}", [RBrace]);
    FirstBrace(schema, body, Description(doc));
    tokens := DescribedTokens(m, ms);
  }

  lemma FirstBrace(schema: string, body: string, with: string)
    requires schema == "{" + body + "}"
    ensures ReplaceFirst(schema, '{', with) == with + body + "}"
  {
    assert schema[1..] == body + "}";
  }

  lemma OpeningText(key: string, value: string)
    ensures "{ " + key + ": " + value + "," == "{ " + (key + ": " + value) + ","
  {}

  lemma LexOpening(doc: string, m: Member)
    requires m.key == "description" && Lexes(MemberText("description", Quoted(JsonEscape(doc))), Part(m))
    ensures Lexes(Description(doc), [LBrace] + Part(m) + [Comma])
  {
    var member := MemberText("description", Quoted(JsonEscape(doc)));
    LexMark('{', LBrace);
    LexPadded("", "{", " ", [LBrace]);
    assert "" + "{" + " " == "{ ";
    LexComma("");
    assert "," + "" == ",";
    LexThree("{ ", [LBrace], member, Part(m), ",", [Comma]);
    OpeningText(Quoted("description"), Quoted(JsonEscape(doc)));
  }

  // ----- the whole schema -----

  lemma StartText(typed: string, key: string, body: string)
    ensures "{\n    " + typed + ",\n    " + key + ": {\n" + body + "\n    }"
         == "{" + ("\n    " + (typed + ",\n    " + (key + ": " + ("{" + ("\n" + body + "\n    ") + "}"))))
  {}

  lemma ShortText(start: string, two: string)
    requires start == "{" + ("\n    " + two)
    ensures start + "\n}" == "{" + ("\n    " + two + "\n") + "}"
  {}

  lemma LongText(start: string, two: string, key: string, names: string)
    requires start == "{" + ("\n    " + two)
    ensures start + ",\n    " + key + ": [\n" + names + "\n    ]\n}"
         == "{" + ("\n    " + (two + ",\n    " + (key + ": " + ("[" + ("\n" + names + "\n    ") + "]"))) + "\n") + "}"
  {}

  /** The texts are those of the members. */
  ghost predicate Spell(texts: seq<string>, ms: seq<Member>) {
    |texts| == |ms| && AllRead(ms) && forall i :: 0 <= i < |texts| ==> Lexes(texts[i], Part(ms[i]))
  }

  function BracedText(body: string): string { "{" + ("\n" + body + "\n    ") + "}" }

  function BracketedText(body: string): string { "[" + ("\n" + body + "\n    ") + "]" }

  lemma PropertiesRead(texts: seq<string>, ms: seq<Member>)
    requires Spell(texts, ms)
    ensures Lexes(BracedText(JoinText(texts, ",\n")), Braced(ms, false)) && Reads(Braced(ms, false), Obj(MapOf(ms)))
  {
    var body := JoinText(texts, ",\n");
    LexComma("\n");
    assert "," + "\n" == ",\n";
    LexJoin(texts, Parts(ms), ",\n");
    LexMark('{', LBrace);
    LexMark('}', RBrace);
    LexPadded("\n", body, "\n    ", Joined(Parts(ms)));
    LexThree("{", [LBrace], "\n" + body + "\n    ", Joined(Parts(ms)), "}", [RBrace]);
    ObjectReads(ms, false);
  }

  lemma RequiredRead(required: seq<string>)
    requires AllClean(required)
    ensures Lexes(BracketedText(JoinText(QuotedAll(INDENT, required), ",\n")), Bracketed(required))
    ensures Reads(Bracketed(required), Arr(Strs(required)))
  {
    LexComma("\n");
    assert "," + "\n" == ",\n";
    LexNames(required, INDENT, ",\n");
    LexBracketed("\n", JoinText(QuotedAll(INDENT, required), ",\n"), "\n    ", required);
    ArrayReads(required);
  }

  lemma LexLineComma()
    ensures Lexes(",\n    ", [Comma])
  {
    LexComma("\n    ");
    assert "," + "\n    " == ",\n    ";
  }

  ghost function StructMembers(ms: seq<Member>): seq<Member> {
    [TypeMember("object"), Member("properties", Braced(ms, false), Obj(MapOf(ms)))]
  }

  function TwoText(texts: seq<string>): string {
    TypeIs("object") + ",\n    " + MemberText("properties", BracedText(JoinText(texts, ",\n")))
  }

  /** The two members that every struct schema has. */
  lemma TwoMembers(texts: seq<string>, ms: seq<Member>)
    requires Spell(texts, ms)
    ensures Lexes(TwoText(texts), Joined(Parts(StructMembers(ms)))) && AllRead(StructMembers(ms))
    ensures MapOf(StructMembers(ms)) == Typed("object")["properties" := Obj(MapOf(ms))]
  {
    var m := StructMembers(ms)[1];
    var value := BracedText(JoinText(texts, ",\n"));
    LexTypeIs("object");
    PropertiesRead(texts, ms);
    LexMember(m, value);
    LexLineComma();
    LexThree(TypeIs("object"), Part(TypeMember("object")), ",\n    ", [Comma], MemberText("properties", value), Part(m));
    MapOfTwo(TypeMember("object"), m);
  }

  function Start(texts: seq<string>): string {
    "{\n    " + TypeIs("object") + ",\n    " + Quoted("properties") + ": {\n" + JoinText(texts, ",\n") + "\n    }"
  }

  lemma ShortForms(texts: seq<string>, ms: seq<Member>)
    requires Spell(texts, ms)
    ensures Forms(Start(texts) + "\n}", StructMembers(ms))
  {
    TwoMembers(texts, ms);
    StartText(TypeIs("object"), Quoted("properties"), JoinText(texts, ",\n"));
    ShortText(Start(texts), TwoText(texts));
    LexPadded("\n    ", TwoText(texts), "\n", Joined(Parts(StructMembers(ms))));
    FormsBy(Start(texts) + "\n}", "\n    " + TwoText(texts) + "\n", StructMembers(ms));
  }

  lemma PartsSnoc(ms: seq<Member>, m: Member)
    requires ms != []
    ensures Joined(Parts(ms + [m])) == Joined(Parts(ms)) + [Comma] + Part(m)
  {
    assert Parts(ms + [m]) == Parts(ms) + [Part(m)];
    JoinedSnoc(Parts(ms), Part(m));
  }

  function ThreeText(texts: seq<string>, required: seq<string>): string {
    TwoText(texts) + ",\n    " + MemberText("required", BracketedText(JoinText(QuotedAll(INDENT, required), ",\n")))
  }

  ghost function RequiredMember(required: seq<string>): Member {
    Member("required", Bracketed(required), Arr(Strs(required)))
  }

  lemma ThreeMembers(texts: seq<string>, ms: seq<Member>, required: seq<string>)
    requires Spell(texts, ms) && AllClean(required)
    ensures Lexes(ThreeText(texts, required), Joined(Parts(StructMembers(ms) + [RequiredMember(required)])))
    ensures AllRead(StructMembers(ms) + [RequiredMember(required)])
  {
    var m := RequiredMember(required);
    var value := BracketedText(JoinText(QuotedAll(INDENT, required), ",\n"));
    TwoMembers(texts, ms);
    RequiredRead(required);
    LexMember(m, value);
    LexLineComma();
    LexThree(TwoText(texts), Joined(Parts(StructMembers(ms))), ",\n    ", [Comma], MemberText("required", value), Part(m));
    PartsSnoc(StructMembers(ms), m);
  }

  lemma LongForms(texts: seq<string>, ms: seq<Member>, required: seq<string>, text: string)
    requires Spell(texts, ms) && AllClean(required)
    requires text == Start(texts) + ",\n    " + Quoted("required") + ": [\n"
                     + JoinText(QuotedAll(INDENT, required), ",\n") + "\n    ]\n}"
    ensures Forms(text, StructMembers(ms) + [RequiredMember(required)])
  {
    var more := StructMembers(ms) + [RequiredMember(required)];
    ThreeMembers(texts, ms, required);
    LexPadded("\n    ", ThreeText(texts, required), "\n", Joined(Parts(more)));
    StartText(TypeIs("object"), Quoted("properties"), JoinText(texts, ",\n"));
    LongText(Start(texts), TwoText(texts), Quoted("required"), JoinText(QuotedAll(INDENT, required), ",\n"));
    FormsBy(text, "\n    " + ThreeText(texts, required) + "\n", more);
  }

  lemma AssembledForms(texts: seq<string>, ms: seq<Member>, required: seq<string>) returns (more: seq<Member>)
    requires Spell(texts, ms) && AllClean(required)
    ensures Forms(Assembled(texts, required), more)
    ensures var members := Typed("object")["properties" := Obj(MapOf(ms))];
            MapOf(more) == if required == [] then members else members["required" := Arr(Strs(required))]
  {
    TwoMembers(texts, ms);
    if required == [] {
      more := StructMembers(ms);
      ShortForms(texts, ms);
    } else {
      more := StructMembers(ms) + [RequiredMember(required)];
      LongForms(texts, ms, required, Assembled(texts, required));
      MapOfSnoc(StructMembers(ms), RequiredMember(required));
    }
  }

  // ----- the theorem -----

  lemma {:induction false} RequiredAreClean(fields: seq<Field>)
    requires CleanFields(fields)
    ensures AllClean(Required(fields))
  {
    if fields != [] {
      RequiredAreClean(fields[..|fields| - 1]);
    }
  }

  /** The text of a type has the members of its tree, and is missing exactly when the tree is. */
  ghost predicate Faithful(text: Option<string>, tree: Option<map<string, Json>>, ms: seq<Member>) {
    && text.Some? == tree.Some?
    && (text.Some? ==> Forms(text.value, ms) && MapOf(ms) == tree.value)
  }

  lemma {:induction false} TypeIsFaithful(ty: Ty, t: Tables, rank: string -> nat, k: nat) returns (ms: seq<Member>)
    requires Acyclic(t, rank) && Uses(ty, t, rank, k) && CleanTables(t)
    ensures Faithful(TypeText(ty, t, rank, k), TypeTree(ty, t, rank, k), ms)
    decreases k, 0, ty
  {
    ms := [];
    match ty
    case Unsupported =>
    case Reference(elem) => ms := TypeIsFaithful(elem, t, rank, k);
    case Named(arm, arg) =>
      if IsWrapper(arm) && arg.Some? {
        var inner := TypeIsFaithful(arg.value, t, rank, k);
        ms := WrapperIsFaithful(arm, arg.value, inner, t, rank, k);
      } else if IsStruct(arm, t) {
        ms := StructIsFaithful(t.structs[arm.name], t, rank, rank(arm.name));
      } else {
        ms := LeafIsFaithful(arm, arg, t, rank, k);
      }
  }

  lemma WrapperIsFaithful(arm: Arm, elem: Ty, inner: seq<Member>, t: Tables, rank: string -> nat, k: nat)
    returns (ms: seq<Member>)
    requires Acyclic(t, rank) && Uses(Named(arm, Some(elem)), t, rank, k) && IsWrapper(arm)
    requires Faithful(TypeText(elem, t, rank, k), TypeTree(elem, t, rank, k), inner)
    ensures Faithful(TypeText(Named(arm, Some(elem)), t, rank, k), TypeTree(Named(arm, Some(elem)), t, rank, k), ms)
  {
    ms := inner;
    var text := TypeText(elem, t, rank, k);
    if text.Some? {
      if arm.OptionArm? {
        ms := NullableForms(text.value, inner);
      } else if arm.VecArm? {
        ms := ArrayForms(text.value, inner, "{" + TypeIs("array") + ", " + Quoted("items") + ": " + text.value + "}");
      }
    }
  }

  lemma LeafIsFaithful(arm: Arm, arg: Option<Ty>, t: Tables, rank: string -> nat, k: nat) returns (ms: seq<Member>)
    requires Acyclic(t, rank) && Uses(Named(arm, arg), t, rank, k) && CleanTables(t)
    requires !(IsWrapper(arm) && arg.Some?) && !IsStruct(arm, t)
    ensures Faithful(TypeText(Named(arm, arg), t, rank, k), TypeTree(Named(arm, arg), t, rank, k), ms)
  {
    if arm.ValueArm? {
      ms := [];
      FormsBy("{}", "", ms);
    } else if arm.Other? && arm.name in t.enums {
      ms := EnumForms(t.enums[arm.name], JoinText(QuotedAll("", t.enums[arm.name]), ", "),
                      TypeText(Named(arm, arg), t, rank, k).value);
    } else {
      PlainIsClean(arm);
      ms := PlainForms(PlainName(arm));
    }
  }

  lemma PlainIsClean(arm: Arm)
    ensures Clean(PlainName(arm))
  {}

  lemma StructHasNoDescription(fields: seq<Field>, t: Tables, rank: string -> nat, k: nat)
    requires Acyclic(t, rank) && AllUse(fields, t, rank, k)
    ensures StructTree(fields, t, rank, k).Some? ==> "description" !in StructTree(fields, t, rank, k).value
  {}

  lemma {:induction false} NoDescription(ty: Ty, t: Tables, rank: string -> nat, k: nat)
    requires Acyclic(t, rank) && Uses(ty, t, rank, k)
    ensures TypeTree(ty, t, rank, k).Some? ==> "description" !in TypeTree(ty, t, rank, k).value
    decreases k, ty
  {
    match ty
    case Named(arm, arg) =>
      if IsWrapper(arm) && arg.Some? {
        NoDescription(arg.value, t, rank, k);
      } else if IsStruct(arm, t) {
        StructHasNoDescription(t.structs[arm.name], t, rank, rank(arm.name));
      }
    case Reference(elem) => NoDescription(elem, t, rank, k);
    case Unsupported =>
  }

  /** What a property holds: the schema of its type, described. */
  lemma {:induction false} FieldIsFaithful(f: Field, t: Tables, rank: string -> nat, k: nat) returns (tokens: seq<Token>)
    requires Acyclic(t, rank) && Uses(f.ty, t, rank, k) && CleanTables(t)
    ensures FieldText(f, t, rank, k).Some? == FieldTree(f, t, rank, k).Some?
    ensures FieldText(f, t, rank, k).Some? ==>
      Lexes(FieldText(f, t, rank, k).value, tokens) && Reads(tokens, Obj(FieldTree(f, t, rank, k).value))
    decreases k, 1
  {
    var ms := TypeIsFaithful(f.ty, t, rank, k);
    var text := TypeText(f.ty, t, rank, k);
    var doc := ExtractDoc(f.docs);
    tokens := [];
    if text.Some? {
      if doc.None? {
        FormReads(text.value, ms);
        tokens := Braced(ms, false);
      } else {
        NoDescription(f.ty, t, rank, k);
        tokens := DescribedReads(text.value, ms, doc.value);
      }
    }
  }

  lemma {:induction false} PropertiesAreFaithful(fields: seq<Field>, t: Tables, rank: string -> nat, k: nat)
    returns (ms: seq<Member>)
    requires Acyclic(t, rank) && AllUse(fields, t, rank, k) && CleanTables(t) && CleanFields(fields)
    ensures Properties(fields, t, rank, k).Some? == PropertiesTree(fields, t, rank, k).Some?
    ensures Properties(fields, t, rank, k).Some? ==>
      Spell(Properties(fields, t, rank, k).value, ms) && MapOf(ms) == PropertiesTree(fields, t, rank, k).value
    decreases k, 2, |fields|
  {
    ms := [];
    if fields != [] {
      var f := fields[|fields| - 1];
      ms := PropertiesAreFaithful(fields[..|fields| - 1], t, rank, k);
      if f.ident.Some? {
        var tokens := FieldIsFaithful(f, t, rank, k);
        if FieldText(f, t, rank, k).Some? {
          var m := Member(f.ident.value, tokens, Obj(FieldTree(f, t, rank, k).value));
          PropertySpells(m, FieldText(f, t, rank, k).value);
          MapOfSnoc(ms, m);
          ms := ms + [m];
        }
      }
    }
  }

  lemma PropertySpells(m: Member, schema: string)
    requires Clean(m.key) && Lexes(schema, m.value)
    ensures Lexes(INDENT + Quoted(m.key) + ": " + schema, Part(m))
  {
    LexMember(m, schema);
    LexPadded(INDENT, MemberText(m.key, schema), "", Part(m));
    assert INDENT + MemberText(m.key, schema) + "" == INDENT + Quoted(m.key) + ": " + schema;
  }

  lemma {:induction false} StructIsFaithful(fields: seq<Field>, t: Tables, rank: string -> nat,
                                            k: nat) returns (ms: seq<Member>)
    requires Acyclic(t, rank) && AllUse(fields, t, rank, k) && CleanTables(t) && CleanFields(fields)
    ensures Faithful(StructText(fields, t, rank, k), StructTree(fields, t, rank, k), ms)
    decreases k, 3
  {
    var members := PropertiesAreFaithful(fields, t, rank, k);
    ms := [];
    RequiredAreClean(fields);
    if Properties(fields, t, rank, k).Some? {
      ms := AssembledForms(Properties(fields, t, rank, k).value, members, Required(fields));
    }
  }

  lemma FormIsRead(text: string, ms: seq<Member>)
    requires Forms(text, ms)
    ensures Read(text) == Some(Obj(MapOf(ms)))
  {
    FormReads(text, ms);
    assert Braced(ms, false) + [] == Braced(ms, false);
  }

  /** Text splicing equals structural editing: the text written for a type reads
      back as the schema tree of the type; it is missing exactly when the type
      holds something that is neither a path nor a reference. */
  lemma SplicingIsStructural(ty: Ty, t: Tables, rank: string -> nat, k: nat)
    requires Acyclic(t, rank) && Uses(ty, t, rank, k) && CleanTables(t)
    ensures TypeText(ty, t, rank, k).Some? <==> TypeTree(ty, t, rank, k).Some?
    ensures TypeText(ty, t, rank, k).Some? ==>
      Read(TypeText(ty, t, rank, k).value) == Some(Obj(TypeTree(ty, t, rank, k).value))
  {
    var ms := TypeIsFaithful(ty, t, rank, k);
    if TypeText(ty, t, rank, k).Some? {
      FormIsRead(TypeText(ty, t, rank, k).value, ms);
    }
  }

  /** The same for a struct with its doc comments, its properties and its required list. */
  lemma StructSchemaReadsBack(fields: seq<Field>, t: Tables, rank: string -> nat, k: nat)
    requires Acyclic(t, rank) && AllUse(fields, t, rank, k) && CleanTables(t) && CleanFields(fields)
    ensures StructText(fields, t, rank, k).Some? <==> StructTree(fields, t, rank, k).Some?
    ensures StructText(fields, t, rank, k).Some? ==>
      Read(StructText(fields, t, rank, k).value) == Some(Obj(StructTree(fields, t, rank, k).value))
  {
    var ms := StructIsFaithful(fields, t, rank, k);
    if StructText(fields, t, rank, k).Some? {
      FormIsRead(StructText(fields, t, rank, k).value, ms);
    }
  }

  /** A field is required exactly if it has a name, its type is not outermost an
      `Option` and serde has no default for it. */
  lemma {:induction false} RequiredExactly(fields: seq<Field>, name: string)
    ensures name in Required(fields) <==>
      exists i :: 0 <= i < |fields| && fields[i].ident == Some(name) && !IsOption(fields[i].ty) && !fields[i].serdeDefault
  {
    if fields != [] {
      var n := |fields| - 1;
      RequiredExactly(fields[..n], name);
      assert forall i :: 0 <= i < n ==> fields[..n][i] == fields[i];
    }
  }

  /** By the name of its type: a field of a path type is left out of the required
      ones for that exactly if the last segment is `Option`. */
  lemma RequiredByName(fields: seq<Field>, i: nat, name: string, ident: string, arg: Option<Ty>)
    requires i < |fields| && fields[i].ident == Some(name) && fields[i].ty == PathTy(ident, arg)
    requires forall j :: 0 <= j < |fields| && j != i ==> fields[j].ident != Some(name)
    ensures name in Required(fields) <==> ident != "Option" && !fields[i].serdeDefault
  {
    RequiredExactly(fields, name);
  }

  /** Reading undoes the escaping of a description on one line. */
  lemma {:induction false} OneLineKeeps(doc: string)
    requires '\n' !in doc && '\r' !in doc
    ensures OneLine(doc) == doc
  {
    if doc != "" {
      OneLineKeeps(doc[1..]);
    }
  }

  /** What the text for a `Vec`, an `Option`, a `Box` or a reference reads as, in terms of
      what the text for the type inside reads as. */
  lemma ReadsInside(inner: Ty, t: Tables, rank: string -> nat, k: nat)
    requires Acyclic(t, rank) && Uses(inner, t, rank, k) && CleanTables(t) && TypeText(inner, t, rank, k).Some?
    ensures var held := Read(TypeText(inner, t, rank, k).value);
            held.Some? && held.value.Obj?
            && ReadsAs(Named(VecArm, Some(inner)), t, rank, k, map["type" := Str("array"), "items" := held.value])
            && ReadsAs(Named(OptionArm, Some(inner)), t, rank, k, held.value.members["nullable" := True])
            && ReadsAs(Named(BoxArm, Some(inner)), t, rank, k, held.value.members)
            && ReadsAs(Reference(inner), t, rank, k, held.value.members)
  {
    SplicingIsStructural(inner, t, rank, k);
    var members := TypeTree(inner, t, rank, k).value;
    VecReads(inner, t, rank, k, members);
    OptionReads(inner, t, rank, k, members);
    SameReads(inner, t, rank, k, members);
  }

  lemma VecReads(inner: Ty, t: Tables, rank: string -> nat, k: nat, members: map<string, Json>)
    requires Acyclic(t, rank) && Uses(inner, t, rank, k) && CleanTables(t)
    requires TypeTree(inner, t, rank, k) == Some(members)
    ensures ReadsAs(Named(VecArm, Some(inner)), t, rank, k, map["type" := Str("array"), "items" := Obj(members)])
  {
    ReadsTree(Named(VecArm, Some(inner)), t, rank, k, Typed("array")["items" := Obj(members)]);
  }

  lemma OptionReads(inner: Ty, t: Tables, rank: string -> nat, k: nat, members: map<string, Json>)
    requires Acyclic(t, rank) && Uses(inner, t, rank, k) && CleanTables(t)
    requires TypeTree(inner, t, rank, k) == Some(members)
    ensures ReadsAs(Named(OptionArm, Some(inner)), t, rank, k, members["nullable" := True])
  {
    ReadsTree(Named(OptionArm, Some(inner)), t, rank, k, members["nullable" := True]);
  }

  lemma SameReads(inner: Ty, t: Tables, rank: string -> nat, k: nat, members: map<string, Json>)
    requires Acyclic(t, rank) && Uses(inner, t, rank, k) && CleanTables(t)
    requires TypeTree(inner, t, rank, k) == Some(members)
    ensures ReadsAs(Named(BoxArm, Some(inner)), t, rank, k, members)
    ensures ReadsAs(Reference(inner), t, rank, k, members)
  {
    ReadsTree(Named(BoxArm, Some(inner)), t, rank, k, members);
    ReadsTree(Reference(inner), t, rank, k, members);
  }

  lemma ReadsTree(ty: Ty, t: Tables, rank: string -> nat, k: nat, members: map<string, Json>)
    requires Acyclic(t, rank) && Uses(ty, t, rank, k) && CleanTables(t)
    requires TypeTree(ty, t, rank, k) == Some(members)
    ensures ReadsAs(ty, t, rank, k, members)
  {
    SplicingIsStructural(ty, t, rank, k);
  }

  ghost predicate ReadsAs(ty: Ty, t: Tables, rank: string -> nat, k: nat, members: map<string, Json>)
    requires Acyclic(t, rank)
  {
    Uses(ty, t, rank, k) && TypeText(ty, t, rank, k).Some? && Read(TypeText(ty, t, rank, k).value) == Some(Obj(members))
  }

  /** An enum reads as the list of its variants, and a name that is in no table as an object. */
  lemma NamesRead(name: string, t: Tables, rank: string -> nat, k: nat)
    requires Acyclic(t, rank) && CleanTables(t) && ArmOf(name) == Other(name)
    ensures name in t.enums ==>
      ReadsAs(PathTy(name, None), t, rank, k, map["type" := Str("string"), "enum" := Arr(Strs(t.enums[name]))])
    ensures name !in t.enums && name !in t.structs ==>
      ReadsAs(PathTy(name, None), t, rank, k, map["type" := Str("object")])
  {
    if name in t.enums || name !in t.structs {
      SplicingIsStructural(PathTy(name, None), t, rank, k);
    }
  }
}
