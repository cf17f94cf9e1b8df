/** Which inputs a tool accepts: the schema generator of agent/features/tools/build.rs and
    the validator of agent/features/tools/src/domain/schema_validator.rs together. */
module ToolInput {
  import opened Wrappers
  import opened Json
  import opened SchemaGen
  import opened SchemaTree
  import V = Validator

  // ----- what a type takes, without any schema -----

  /** An enum, perhaps behind `Option`, `Box` or a reference. */
  predicate IsEnum(ty: Ty, t: Tables) {
    match ty
    case Named(OptionArm, Some(inner)) => IsEnum(inner, t)
    case Named(BoxArm, Some(inner)) => IsEnum(inner, t)
    case Named(Other(name), _) => name in t.enums
    case Named(_, _) => false
    case Reference(elem) => IsEnum(elem, t)
    case Unsupported => false
  }

  /** An `Option` takes null as well, but not where an enum is behind it. */
  predicate Takes(ty: Ty, t: Tables, v: V.Value) {
    match ty
    case Named(StringArm, _) => v.Text?
    case Named(IntegerArm, _) => v.Integer?
    case Named(NumberArm, _) => v.Integer? || v.Fraction?
    case Named(BoolArm, _) => v.Bool?
    case Named(ValueArm, _) => true
    case Named(OptionArm, Some(inner)) => Takes(inner, t, v) || (v.Null? && !IsEnum(inner, t))
    case Named(OptionArm, None) => v.Object?
    case Named(VecArm, _) => v.List?
    case Named(MapArm, _) => v.Object?
    case Named(BoxArm, Some(inner)) => Takes(inner, t, v)
    case Named(BoxArm, None) => v.Object?
    case Named(Other(name), _) => if name in t.enums then v.Text? && v.text in t.enums[name] else v.Object?
    case Reference(elem) => Takes(elem, t, v)
    case Unsupported => false
  }

  // ----- one type -----

  lemma EnumWords(words: seq<string>, v: V.Value)
    ensures (exists i :: 0 <= i < |Strs(words)| && V.AsValue(Strs(words)[i]) == v) <==> v.Text? && v.text in words
  {
    if v.Text? && v.text in words {
      var i :| 0 <= i < |words| && words[i] == v.text;
      assert V.AsValue(Strs(words)[i]) == v;
    }
  }

  /** Adding `nullable` lets null through the type, but not through an enum. */
  lemma NullableAdds(m: map<string, Json>, v: V.Value)
    ensures V.FieldOk(Obj(m["nullable" := True]), v)
       <==> if v.Null? then V.Allowed(Obj(m)).None? else V.FieldOk(Obj(m), v)
  {}

  /** The field of these members takes just what the type takes, and has an enum if the type is one. */
  ghost predicate JustTakes(m: map<string, Json>, ty: Ty, t: Tables, v: V.Value) {
    (V.FieldOk(Obj(m), v) <==> Takes(ty, t, v)) && (V.Allowed(Obj(m)).Some? <==> IsEnum(ty, t))
  }

  lemma OptionTakes(m: map<string, Json>, inner: Ty, t: Tables, v: V.Value)
    requires JustTakes(m, inner, t, v) && (IsEnum(inner, t) ==> !Takes(inner, t, V.Null))
    ensures JustTakes(m["nullable" := True], Named(OptionArm, Some(inner)), t, v)
  {
    NullableAdds(m, v);
  }

  lemma VecTakes(items: Json, inner: Ty, t: Tables, v: V.Value)
    ensures JustTakes(Typed("array")["items" := items], Named(VecArm, Some(inner)), t, v)
  {}

  lemma EnumTakes(name: string, arg: Option<Ty>, t: Tables, v: V.Value)
    requires name in t.enums
    ensures JustTakes(Typed("string")["enum" := Arr(Strs(t.enums[name]))], Named(Other(name), arg), t, v)
  {
    EnumWords(t.enums[name], v);
  }

  lemma PlainTakes(arm: Arm, arg: Option<Ty>, t: Tables, v: V.Value)
    requires !(IsWrapper(arm) && arg.Some?) && !(arm.Other? && arm.name in t.enums) && !arm.ValueArm?
    ensures JustTakes(Typed(PlainName(arm)), Named(arm, arg), t, v)
  {}

  lemma StructTakes(m: map<string, Json>, name: string, arg: Option<Ty>, t: Tables, v: V.Value)
    requires name !in t.enums && "type" in m && m["type"] == Str("object") && "nullable" !in m && "enum" !in m
    ensures JustTakes(m, Named(Other(name), arg), t, v)
  {}

  lemma {:induction false} TreeTakes(ty: Ty, t: Tables, rank: string -> nat, k: nat, v: V.Value)
    requires Acyclic(t, rank) && Uses(ty, t, rank, k) && TypeTree(ty, t, rank, k).Some?
    ensures JustTakes(TypeTree(ty, t, rank, k).value, ty, t, v)
    decreases ty
  {
    match ty
    case Reference(elem) => TreeTakes(elem, t, rank, k, v);
    case Unsupported =>
    case Named(arm, arg) =>
      if IsWrapper(arm) && arg.Some? {
        TreeTakes(arg.value, t, rank, k, v);
        EnumRefusesNull(arg.value, t);
        var m := TypeTree(arg.value, t, rank, k).value;
        OptionTakes(m, arg.value, t, v);
        VecTakes(Obj(m), arg.value, t, v);
      } else if arm.Other? && arm.name in t.enums {
        EnumTakes(arm.name, arg, t, v);
      } else if IsStruct(arm, t) {
        StructTakes(TypeTree(ty, t, rank, k).value, arm.name, arg, t, v);
      } else if !arm.ValueArm? {
        PlainTakes(arm, arg, t, v);
      }
  }

  // ----- the fields of a struct -----

  /** The field of this name; a later one wins. */
  function FieldNamed(fields: seq<Field>, name: string): Option<Field> {
    if fields == [] then None
    else if fields[|fields| - 1].ident == Some(name) then Some(fields[|fields| - 1])
    else FieldNamed(fields[..|fields| - 1], name)
  }

  lemma {:induction false} NamedIsUsed(fields: seq<Field>, name: string, t: Tables, rank: string -> nat, k: nat)
    requires AllUse(fields, t, rank, k)
    ensures FieldNamed(fields, name).Some? ==> Uses(FieldNamed(fields, name).value.ty, t, rank, k)
  {
    if fields != [] && fields[|fields| - 1].ident != Some(name) {
      NamedIsUsed(fields[..|fields| - 1], name, t, rank, k);
    }
  }

  lemma DescriptionIsNotChecked(m: map<string, Json>, description: Json, v: V.Value)
    ensures V.FieldOk(Obj(m["description" := description]), v) <==> V.FieldOk(Obj(m), v)
  {}

  lemma FieldTakes(f: Field, t: Tables, rank: string -> nat, k: nat, v: V.Value)
    requires Acyclic(t, rank) && Uses(f.ty, t, rank, k) && FieldTree(f, t, rank, k).Some?
    ensures V.FieldOk(Obj(FieldTree(f, t, rank, k).value), v) <==> Takes(f.ty, t, v)
  {
    var m := TypeTree(f.ty, t, rank, k).value;
    TreeTakes(f.ty, t, rank, k, v);
    if ExtractDoc(f.docs).Some? {
      DescriptionIsNotChecked(m, Str(OneLine(ExtractDoc(f.docs).value)), v);
    }
  }

  /** The properties are the named fields, each taking what its type takes. */
  lemma {:induction false} PropertyTakes(fields: seq<Field>, t: Tables, rank: string -> nat, k: nat, name: string, v: V.Value)
    requires Acyclic(t, rank) && AllUse(fields, t, rank, k) && PropertiesTree(fields, t, rank, k).Some?
    ensures var properties := PropertiesTree(fields, t, rank, k).value;
            && (name in properties <==> FieldNamed(fields, name).Some?)
            && (name in properties ==> (V.FieldOk(properties[name], v) <==> Takes(FieldNamed(fields, name).value.ty, t, v)))
  {
    if fields != [] {
      var front, f := fields[..|fields| - 1], fields[|fields| - 1];
      PropertyTakes(front, t, rank, k, name, v);
      if f.ident.Some? {
        FieldTakes(f, t, rank, k, v);
      }
    }
  }

  lemma {:induction false} NamesOfStrs(words: seq<string>)
    ensures V.Names(Strs(words)) == words
  {
    if words != [] {
      var front := words[..|words| - 1];
      NamesOfStrs(front);
      assert Strs(words)[..|words| - 1] == Strs(front);
      assert words == front + [words[|words| - 1]];
    }
  }

  // ----- what a tool accepts -----

  /** An object with every field that is neither an `Option` nor has a default, and of
      which every key is a field whose type takes the value. */
  ghost predicate Fits(fields: seq<Field>, t: Tables, input: V.Value) {
    && input.Object?
    && (forall i :: 0 <= i < |fields| && fields[i].ident.Some? && !IsOption(fields[i].ty) && !fields[i].serdeDefault ==>
          fields[i].ident.value in input.members)
    && (forall name :: name in input.members ==>
          FieldNamed(fields, name).Some? && Takes(FieldNamed(fields, name).value.ty, t, input.members[name]))
  }

  lemma SchemaParts(fields: seq<Field>, t: Tables, rank: string -> nat, k: nat)
    requires Acyclic(t, rank) && AllUse(fields, t, rank, k) && StructTree(fields, t, rank, k).Some?
    ensures PropertiesTree(fields, t, rank, k).Some?
    ensures var schema := Obj(StructTree(fields, t, rank, k).value);
            && V.Properties(schema) == Some(PropertiesTree(fields, t, rank, k).value)
            && V.RequiredNames(schema) == Required(fields)
            && !V.AllowsMore(schema)
  {
    var required, properties := Required(fields), PropertiesTree(fields, t, rank, k).value;
    NamesOfStrs(required);
    MembersOf(properties, required);
  }

  lemma MembersOf(properties: map<string, Json>, required: seq<string>)
    requires V.Names(Strs(required)) == required
    ensures var members := Typed("object")["properties" := Obj(properties)];
            var schema := Obj(if required == [] then members else members["required" := Arr(Strs(required))]);
            V.Properties(schema) == Some(properties) && V.RequiredNames(schema) == required && !V.AllowsMore(schema)
  {}

  lemma RequiredPresent(fields: seq<Field>, members: map<string, V.Value>)
    ensures (forall name :: name in Required(fields) ==> name in members)
       <==> forall i :: 0 <= i < |fields| && fields[i].ident.Some? && !IsOption(fields[i].ty) && !fields[i].serdeDefault ==>
              fields[i].ident.value in members
  {
    forall name ensures name in Required(fields) <==>
      exists i :: 0 <= i < |fields| && fields[i].ident == Some(name) && !IsOption(fields[i].ty) && !fields[i].serdeDefault
    {
      RequiredExactly(fields, name);
    }
    forall i | 0 <= i < |fields| && fields[i].ident.Some? && !IsOption(fields[i].ty) && !fields[i].serdeDefault
      ensures fields[i].ident.value in Required(fields)
    {
      assert fields[i].ident == Some(fields[i].ident.value);
    }
  }

  /** The text generated for a struct reads as a schema by which the validator
      accepts exactly the inputs that fit the struct. */
  lemma AcceptsExactly(fields: seq<Field>, t: Tables, rank: string -> nat, k: nat, input: V.Value)
    requires Acyclic(t, rank) && AllUse(fields, t, rank, k) && CleanTables(t) && CleanFields(fields)
    requires StructText(fields, t, rank, k).Some?
    ensures var schema := Read(StructText(fields, t, rank, k).value);
            schema.Some? && (V.Conforms(schema.value, input) <==> Fits(fields, t, input))
  {
    StructSchemaReadsBack(fields, t, rank, k);
    SchemaParts(fields, t, rank, k);
    var schema := Obj(StructTree(fields, t, rank, k).value);
    var properties := PropertiesTree(fields, t, rank, k).value;
    if input.Object? {
      RequiredPresent(fields, input.members);
      forall name | name in input.members
        ensures V.KeyOk(false, properties, name, input.members[name])
           <==> FieldNamed(fields, name).Some? && Takes(FieldNamed(fields, name).value.ty, t, input.members[name])
      {
        PropertyTakes(fields, t, rank, k, name, input.members[name]);
      }
    }
  }

  /** Generating, reading and validating, as a tool call does. */
  method CheckCall(fields: seq<Field>, t: Tables, ghost rank: string -> nat, ghost k: nat, input: V.Value, order: seq<string>)
    returns (accepted: Option<bool>)
    requires Acyclic(t, rank) && AllUse(fields, t, rank, k) && CleanTables(t) && CleanFields(fields)
    requires V.Visits(order, V.Stripped(input))
    ensures accepted.None? <==> StructText(fields, t, rank, k).None?
    ensures accepted.Some? ==> (accepted.value <==> Fits(fields, t, V.Stripped(input)))
  {
    var text := GenerateJsonSchema(fields, t, rank, k);
    if text.None? {
      return None;
    }
    AcceptsExactly(fields, t, rank, k, V.Stripped(input));
    StructSchemaReadsBack(fields, t, rank, k);
    SchemaParts(fields, t, rank, k);
    var schema := Read(text.value).value;
    var stripped := V.StripRuntimeMeta(input);
    var fault := V.ValidateToolInput(schema, stripped, order);
    accepted := Some(fault.None?);
  }

  // ----- null -----

  lemma {:induction false} EnumRefusesNull(ty: Ty, t: Tables)
    ensures IsEnum(ty, t) ==> !Takes(ty, t, V.Null)
    decreases ty
  {
    match ty
    case Named(OptionArm, Some(inner)) => EnumRefusesNull(inner, t);
    case Named(BoxArm, Some(inner)) => EnumRefusesNull(inner, t);
    case Named(_, _) =>
    case Reference(elem) => EnumRefusesNull(elem, t);
    case Unsupported =>
  }

  /** Null for a field of type `Option<T>` is accepted exactly if T is no enum. */
  lemma NullForOption(inner: Ty, t: Tables)
    ensures Takes(PathTy("Option", Some(inner)), t, V.Null) <==> !IsEnum(inner, t)
  {
    EnumRefusesNull(inner, t);
  }

  /** A struct of one field `name: Option<T>`, T an enum: its schema calls the field
      nullable, refuses null for it, and lets it be left out. */
  lemma NullableRefusesNull(name: string, inner: Ty, t: Tables, rank: string -> nat, k: nat)
    requires Acyclic(t, rank) && Uses(inner, t, rank, k) && CleanTables(t) && Clean(name) && IsEnum(inner, t)
    requires TypeText(inner, t, rank, k).Some?
    ensures var fields := [Field(Some(name), PathTy("Option", Some(inner)), [], false)];
            && AllUse(fields, t, rank, k) && StructText(fields, t, rank, k).Some?
            && var schema := Read(StructText(fields, t, rank, k).value);
               schema.Some? && CallsNullable(schema.value, name)
               && !V.Conforms(schema.value, V.Object(map[name := V.Null]))
               && V.Conforms(schema.value, V.Object(map[]))
  {
    var field := Field(Some(name), PathTy("Option", Some(inner)), [], false);
    var fields := [field];
    OneFieldTree(field, name, inner, t, rank, k);
    StructSchemaReadsBack(fields, t, rank, k);
    SchemaParts(fields, t, rank, k);
    OneFieldFits(field, name, t, V.Null);
    NullForOption(inner, t);
    AcceptsExactly(fields, t, rank, k, V.Object(map[name := V.Null]));
    AcceptsExactly(fields, t, rank, k, V.Object(map[]));
  }

  ghost predicate CallsNullable(schema: Json, name: string) {
    && V.Properties(schema).Some? && name in V.Properties(schema).value
    && V.Get(V.Properties(schema).value[name], "nullable") == Some(True)
  }

  lemma OneFieldTree(field: Field, name: string, inner: Ty, t: Tables, rank: string -> nat, k: nat)
    requires Acyclic(t, rank) && Uses(inner, t, rank, k) && CleanTables(t)
    requires TypeText(inner, t, rank, k).Some?
    requires field == Field(Some(name), PathTy("Option", Some(inner)), [], false)
    ensures AllUse([field], t, rank, k) && StructTree([field], t, rank, k).Some?
    ensures var properties := PropertiesTree([field], t, rank, k);
            properties.Some? && name in properties.value && V.Get(properties.value[name], "nullable") == Some(True)
  {
    SplicingIsStructural(inner, t, rank, k);
    assert [field][..0] == [];
    assert PropertiesTree([], t, rank, k) == Some(map[]);
    assert FieldTree(field, t, rank, k) == TypeTree(field.ty, t, rank, k);
  }

  lemma OneFieldFits(field: Field, name: string, t: Tables, v: V.Value)
    requires field.ident == Some(name) && IsOption(field.ty)
    ensures Fits([field], t, V.Object(map[name := v])) <==> Takes(field.ty, t, v)
    ensures Fits([field], t, V.Object(map[]))
  {
    assert FieldNamed([field], name) == Some(field);
  }

  /** Such types are easily met. */
  lemma SomeEnum() returns (inner: Ty, t: Tables, rank: string -> nat)
    ensures Acyclic(t, rank) && Uses(inner, t, rank, 0) && CleanTables(t)
    ensures IsEnum(inner, t) && TypeText(inner, t, rank, 0).Some?
  {
    inner, t, rank := PathTy("Mode", None), Tables(map[], map["Mode" := ["auto"]]), _ => 0;
  }
}
