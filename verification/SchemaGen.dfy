/** The schema generator of agent/features/tools/build.rs: JSON text is written for
    a Rust type and then edited by splicing into the string.  The text is shown to
    read back as the schema built directly as a tree. */
module SchemaGen {
  import opened Wrappers

  // ----- the types -----

  /** The arms of the match on the last segment of a path. */
  datatype Arm =
    | StringArm | IntegerArm | NumberArm | BoolArm | ValueArm | OptionArm | VecArm | MapArm | BoxArm
    | Other(name: string)

  const INTEGERS: set<string> :=
    {"u8", "u16", "u32", "u64", "u128", "usize", "i8", "i16", "i32", "i64", "i128", "isize"}

  function ArmOf(ident: string): (arm: Arm)
    ensures arm.StringArm? <==> ident == "String" || ident == "PathBuf" || ident == "OsString" || ident == "TaskIdData"
    ensures arm.IntegerArm? <==> ident == "BatchIdData" || (exists n :: n in INTEGERS && ident == n)
    ensures arm.ValueArm? <==> ident == "Value"
    ensures arm.OptionArm? <==> ident == "Option"
    ensures arm.VecArm? <==> ident == "Vec"
    ensures arm.BoxArm? <==> ident == "Box"
    ensures arm.MapArm? <==> ident == "HashMap" || ident == "BTreeMap"
    ensures arm.BoolArm? <==> ident == "bool"
    ensures arm.NumberArm? <==> ident == "f32" || ident == "f64"
    ensures arm.Other? ==> arm.name == ident
  {
    if ident in {"String", "PathBuf", "OsString", "TaskIdData"} then StringArm
    else if ident == "BatchIdData" then IntegerArm
    else if ident in INTEGERS then IntegerArm
    else if ident in {"f32", "f64"} then NumberArm
    else if ident == "bool" then BoolArm
    else if ident == "Value" then ValueArm
    else if ident == "Option" then OptionArm
    else if ident == "Vec" then VecArm
    else if ident in {"HashMap", "BTreeMap"} then MapArm
    else if ident == "Box" then BoxArm
    else Other(ident)
  }

  /** A path type is the arm of its last segment and its first type argument, if
      any.  Any other type than a path or a reference makes the generator panic. */
  datatype Ty = Named(arm: Arm, arg: Option<Ty>) | Reference(elem: Ty) | Unsupported

  function PathTy(ident: string, arg: Option<Ty>): Ty { Named(ArmOf(ident), arg) }

  /** A field of a tuple struct has no name.  `docs` are its doc comment lines. */
  datatype Field = Field(ident: Option<string>, ty: Ty, docs: seq<string>, serdeDefault: bool)

  datatype Tables = Tables(structs: map<string, seq<Field>>, enums: map<string, seq<string>>)

  predicate IsWrapper(arm: Arm) { arm.OptionArm? || arm.VecArm? || arm.BoxArm? }

  predicate IsStruct(arm: Arm, t: Tables) {
    arm.Other? && arm.name !in t.enums && arm.name in t.structs
  }

  /** Every struct met on the way through `ty` has a rank below `k`. */
  ghost predicate Uses(ty: Ty, t: Tables, rank: string -> nat, k: nat) {
    match ty
    case Named(arm, arg) =>
      && (IsWrapper(arm) && arg.Some? ==> Uses(arg.value, t, rank, k))
      && (IsStruct(arm, t) ==> rank(arm.name) < k)
    case Reference(elem) => Uses(elem, t, rank, k)
    case Unsupported => true
  }

  ghost predicate AllUse(fields: seq<Field>, t: Tables, rank: string -> nat, k: nat) {
    forall i :: 0 <= i < |fields| ==> Uses(fields[i].ty, t, rank, k)
  }

  /** No struct holds itself, by way of whatever others. */
  ghost predicate Acyclic(t: Tables, rank: string -> nat) {
    forall name :: name in t.structs ==> AllUse(t.structs[name], t, rank, rank(name))
  }

  // ----- pieces of text -----

  function Quoted(text: string): string { "\"" + text + "\"" }

  function TypeIs(name: string): string { Quoted("type") + ": " + Quoted(name) }

  function JoinText(texts: seq<string>, separator: string): string {
    if texts == [] then ""
    else if |texts| == 1 then texts[0]
    else texts[0] + separator + JoinText(texts[1..], separator)
  }

  function QuotedAll(indent: string, names: seq<string>): (texts: seq<string>)
    ensures |texts| == |names| && forall i :: 0 <= i < |names| ==> texts[i] == indent + Quoted(names[i])
  {
    seq(|names|, i requires 0 <= i < |names| => indent + Quoted(names[i]))
  }

  predicate IsSpace(c: char) { c == ' ' || c == '\n' || c == '\t' || c == '\r' }

  function Trim(s: string): string {
    if s == "" then s
    else if IsSpace(s[0]) then Trim(s[1..])
    else if IsSpace(s[|s| - 1]) then Trim(s[..|s| - 1])
    else s
  }

  /** Where the last `c` stands, if anywhere. */
  function LastIndex(s: string, c: char): (i: Option<nat>)
    ensures i.Some? ==> i.value < |s| && s[i.value] == c
  {
    if s == "" then None
    else if s[|s| - 1] == c then Some(|s| - 1)
    else LastIndex(s[..|s| - 1], c)
  }

  function ReplaceFirst(s: string, c: char, with: string): string {
    if s == "" then s
    else if s[0] == c then with + s[1..]
    else [s[0]] + ReplaceFirst(s[1..], c, with)
  }

  /** Replaces every character of `cs`. */
  function ReplaceAll(s: string, cs: set<char>, with: string): string {
    if s == "" then s
    else (if s[0] in cs then with else [s[0]]) + ReplaceAll(s[1..], cs, with)
  }

  function JsonEscape(s: string): string {
    ReplaceAll(ReplaceAll(ReplaceAll(s, {'\\'}, "\\\\"), {'"'}, "\\\""), {'\n', '\r'}, " ")
  }

  function TrimAll(lines: seq<string>): seq<string> {
    if lines == [] then [] else [Trim(lines[0])] + TrimAll(lines[1..])
  }

  function ExtractDoc(docs: seq<string>): Option<string> {
    var joined := Trim(JoinText(TrimAll(docs), " "));
    if joined == "" then None else Some(joined)
  }

  // ----- the generator -----

  const NULLABLE := "," + Quoted("nullable") + ": true"

  /** Splices `nullable` in before the last brace. */
  function MadeNullable(inner: string): string {
    if Trim(inner) == "{}" then "{ " + Quoted("nullable") + ": true" + " }"
    else
      var brace := LastIndex(inner, '}');
      if brace.None? then inner
      else inner[..brace.value] + NULLABLE + inner[brace.value..]
  }

  function Description(doc: string): string {
    "{ " + Quoted("description") + ": " + Quoted(JsonEscape(doc)) + ","
  }

  function Plain(name: string): string { "{" + TypeIs(name) + "}" }

  function TypeText(ty: Ty, t: Tables, ghost rank: string -> nat, ghost k: nat): Option<string>
    requires Acyclic(t, rank) && Uses(ty, t, rank, k)
    decreases k, 0, ty
  {
    match ty
    case Named(StringArm, _) => Some(Plain("string"))
    case Named(IntegerArm, _) => Some(Plain("integer"))
    case Named(NumberArm, _) => Some(Plain("number"))
    case Named(BoolArm, _) => Some(Plain("boolean"))
    case Named(ValueArm, _) => Some("{}")
    case Named(OptionArm, arg) =>
      if arg.None? then Some(Plain("object"))
      else
        var inner := TypeText(arg.value, t, rank, k);
        if inner.None? then None else Some(MadeNullable(inner.value))
    case Named(VecArm, arg) =>
      if arg.None? then Some(Plain("array"))
      else
        var items := TypeText(arg.value, t, rank, k);
        if items.None? then None else Some("{" + TypeIs("array") + ", " + Quoted("items") + ": " + items.value + "}")
    case Named(MapArm, _) => Some(Plain("object"))
    case Named(BoxArm, arg) => if arg.None? then Some(Plain("object")) else TypeText(arg.value, t, rank, k)
    case Named(Other(name), _) =>
      if name in t.enums then
        Some("{" + TypeIs("string") + ", " + Quoted("enum") + ": [" + JoinText(QuotedAll("", t.enums[name]), ", ") + "]}")
      else if name in t.structs then StructText(t.structs[name], t, rank, rank(name))
      else Some(Plain("object"))
    case Reference(elem) => TypeText(elem, t, rank, k)
    case Unsupported => None
  }

  const INDENT := "            "

  function FieldText(f: Field, t: Tables, ghost rank: string -> nat, ghost k: nat): Option<string>
    requires Acyclic(t, rank) && Uses(f.ty, t, rank, k)
    decreases k, 1
  {
    var schema := TypeText(f.ty, t, rank, k);
    var doc := ExtractDoc(f.docs);
    if schema.None? || doc.None? then schema
    else Some(ReplaceFirst(schema.value, '{', Description(doc.value)))
  }

  function Properties(fields: seq<Field>, t: Tables, ghost rank: string -> nat, ghost k: nat): Option<seq<string>>
    requires Acyclic(t, rank) && AllUse(fields, t, rank, k)
    decreases k, 2, |fields|
  {
    if fields == [] then Some([])
    else
      var f := fields[|fields| - 1];
      var front := Properties(fields[..|fields| - 1], t, rank, k);
      if front.None? || f.ident.None? then front
      else
        var schema := FieldText(f, t, rank, k);
        if schema.None? then None else Some(front.value + [INDENT + Quoted(f.ident.value) + ": " + schema.value])
  }

  /** Only the outermost name of the type counts. */
  predicate IsOption(ty: Ty) { ty.Named? && ty.arm.OptionArm? }

  predicate IsRequired(f: Field) { f.ident.Some? && !IsOption(f.ty) && !f.serdeDefault }

  function Required(fields: seq<Field>): seq<string> {
    if fields == [] then []
    else
      var f := fields[|fields| - 1];
      Required(fields[..|fields| - 1]) + if IsRequired(f) then [f.ident.value] else []
  }

  function Assembled(properties: seq<string>, required: seq<string>): string {
    var start := "{\n    " + TypeIs("object") + ",\n    " + Quoted("properties") + ": {\n"
                 + JoinText(properties, ",\n") + "\n    }";
    if required == [] then start + "\n}"
    else start + ",\n    " + Quoted("required") + ": [\n" + JoinText(QuotedAll(INDENT, required), ",\n") + "\n    ]\n}"
  }

  function StructText(fields: seq<Field>, t: Tables, ghost rank: string -> nat, ghost k: nat): Option<string>
    requires Acyclic(t, rank) && AllUse(fields, t, rank, k)
    decreases k, 3
  {
    var properties := Properties(fields, t, rank, k);
    if properties.None? then None else Some(Assembled(properties.value, Required(fields)))
  }

  /** The loop of agent/features/tools/build.rs:150-208. */
  method GenerateJsonSchema(fields: seq<Field>, t: Tables, ghost rank: string -> nat, ghost k: nat)
    returns (schema: Option<string>)
    requires Acyclic(t, rank) && AllUse(fields, t, rank, k)
    ensures schema == StructText(fields, t, rank, k)
  {
    var properties: seq<string> := [];
    var required: seq<string> := [];
    var i := 0;
    while i < |fields|
      invariant 0 <= i <= |fields|
      invariant Properties(fields[..i], t, rank, k) == Some(properties)
      invariant Required(fields[..i]) == required
    {
      var field := fields[i];
      assert fields[..i + 1][..i] == fields[..i];
      i := i + 1;
      if field.ident.None? {
        continue;
      }
      var text := FieldText(field, t, rank, k);
      if text.None? {
        PropertiesFail(fields, i, t, rank, k);
        return None;
      }
      properties := properties + [INDENT + Quoted(field.ident.value) + ": " + text.value];
      if !IsOption(field.ty) && !field.serdeDefault {
        required := required + [field.ident.value];
      }
    }
    assert fields[..i] == fields;
    schema := Some(Assembled(properties, required));
  }

  lemma {:induction false} PropertiesFail(fields: seq<Field>, i: nat, t: Tables, rank: string -> nat, k: nat)
    requires Acyclic(t, rank) && AllUse(fields, t, rank, k) && i <= |fields|
    requires Properties(fields[..i], t, rank, k).None?
    ensures Properties(fields, t, rank, k).None?
    decreases |fields| - i
  {
    if i < |fields| {
      assert fields[..i + 1][..i] == fields[..i];
      PropertiesFail(fields, i + 1, t, rank, k);
    } else {
      assert fields[..i] == fields;
    }
  }

  // ----- the text is the type's alone -----

  /** The rank only shows that the generator ends; the text does not depend on it. */
  lemma {:induction false} TypeTextAlone(ty: Ty, t: Tables, rank: string -> nat, k: nat, other: string -> nat, j: nat)
    requires Acyclic(t, rank) && Uses(ty, t, rank, k) && Acyclic(t, other) && Uses(ty, t, other, j)
    ensures TypeText(ty, t, rank, k) == TypeText(ty, t, other, j)
    decreases k, 0, ty
  {
    match ty
    case Named(arm, arg) =>
      if IsWrapper(arm) {
        if arg.Some? {
          TypeTextAlone(arg.value, t, rank, k, other, j);
        }
      } else if IsStruct(arm, t) {
        StructTextAlone(t.structs[arm.name], t, rank, rank(arm.name), other, other(arm.name));
      }
    case Reference(elem) => TypeTextAlone(elem, t, rank, k, other, j);
    case Unsupported =>
  }

  lemma {:induction false} PropertiesAlone(fields: seq<Field>, t: Tables, rank: string -> nat, k: nat,
                                           other: string -> nat, j: nat)
    requires Acyclic(t, rank) && AllUse(fields, t, rank, k) && Acyclic(t, other) && AllUse(fields, t, other, j)
    ensures Properties(fields, t, rank, k) == Properties(fields, t, other, j)
    decreases k, 2, |fields|
  {
    if fields != [] {
      PropertiesAlone(fields[..|fields| - 1], t, rank, k, other, j);
      TypeTextAlone(fields[|fields| - 1].ty, t, rank, k, other, j);
    }
  }

  lemma {:induction false} StructTextAlone(fields: seq<Field>, t: Tables, rank: string -> nat, k: nat,
                                           other: string -> nat, j: nat)
    requires Acyclic(t, rank) && AllUse(fields, t, rank, k) && Acyclic(t, other) && AllUse(fields, t, other, j)
    ensures StructText(fields, t, rank, k) == StructText(fields, t, other, j)
    decreases k, 3
  {
    PropertiesAlone(fields, t, rank, k, other, j);
  }
}
