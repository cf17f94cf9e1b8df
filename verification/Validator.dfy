/** The validation of a tool's input against its schema, from
    agent/features/tools/src/domain/schema_validator.rs: all faults are collected. */
module Validator {
  import opened Wrappers
  import opened Json

  /** An input.  Whole numbers are those of 64 bits, any others are fractions. */
  datatype Value =
    | Null
    | Bool(truth: bool)
    | Integer(n: int)
    | Fraction(x: real)
    | Text(text: string)
    | List(items: seq<Value>)
    | Object(members: map<string, Value>)

  /** A literal of the schema as a value, to compare an input with. */
  function AsValue(j: Json): Value {
    match j
    case Str(text) => Text(text)
    case True => Bool(true)
    case Arr(items) => List(seq(|items|, i requires 0 <= i < |items| => AsValue(items[i])))
    case Obj(members) => Object(map name | name in members :: AsValue(members[name]))
  }

  function Get(j: Json, name: string): Option<Json> {
    if j.Obj? && name in j.members then Some(j.members[name]) else None
  }

  datatype TypeMismatch = TypeMismatch(field: string, expected: string, actual: string)

  datatype EnumViolation = EnumViolation(field: string, allowed: seq<Json>, actual: Value)

  datatype Mismatch = Mismatch(expected: set<string>, actual: seq<string>, missing: seq<string>, unexpected: seq<string>,
                               types: seq<TypeMismatch>, enums: seq<EnumViolation>)

  // ----- what a schema asks for -----

  /** The properties, without which nothing is checked. */
  function Properties(schema: Json): Option<map<string, Json>> {
    match Get(schema, "properties")
    case Some(Obj(members)) => Some(members)
    case _ => None
  }

  predicate AllowsMore(schema: Json) { Get(schema, "additionalProperties") == Some(True) }

  function Names(items: seq<Json>): seq<string> {
    if items == [] then []
    else Names(items[..|items| - 1]) + if items[|items| - 1].Str? then [items[|items| - 1].text] else []
  }

  function RequiredNames(schema: Json): seq<string> {
    match Get(schema, "required")
    case Some(Arr(items)) => Names(items)
    case _ => []
  }

  // ----- one field -----

  function TypeOf(v: Value): string {
    match v
    case Null => "null"
    case Bool(_) => "boolean"
    case Integer(_) => "integer"
    case Fraction(_) => "number"
    case Text(_) => "string"
    case List(_) => "array"
    case Object(_) => "object"
  }

  /** The expected type, if the field has one that the value misses. */
  function CheckFieldType(field: Json, v: Value): Option<string> {
    if v.Null? && Get(field, "nullable") == Some(True) then None
    else
      match Get(field, "type")
      case Some(Str(expected)) =>
        var matches :=
          match expected
          case "string" => v.Text?
          case "integer" => v.Integer?
          case "number" => v.Integer? || v.Fraction?
          case "boolean" => v.Bool?
          case "array" => v.List?
          case "object" => v.Object?
          case _ => true;
        if matches then None else Some(expected)
      case _ => None
  }

  function Allowed(field: Json): Option<seq<Json>> {
    match Get(field, "enum")
    case Some(Arr(items)) => Some(items)
    case _ => None
  }

  predicate BreaksEnum(field: Json, v: Value) {
    Allowed(field).Some? && forall i :: 0 <= i < |Allowed(field).value| ==> AsValue(Allowed(field).value[i]) != v
  }

  predicate FieldOk(field: Json, v: Value) { CheckFieldType(field, v).None? && !BreaksEnum(field, v) }

  // ----- the lists of faults -----

  function Missing(required: seq<string>, members: map<string, Value>): seq<string> {
    if required == [] then []
    else
      Missing(required[..|required| - 1], members)
      + if required[|required| - 1] !in members then [required[|required| - 1]] else []
  }

  function Unexpected(order: seq<string>, properties: map<string, Json>): seq<string> {
    if order == [] then []
    else
      Unexpected(order[..|order| - 1], properties)
      + if order[|order| - 1] !in properties then [order[|order| - 1]] else []
  }

  function TypeFault(properties: map<string, Json>, key: string, v: Value): seq<TypeMismatch> {
    if key !in properties then []
    else
      match CheckFieldType(properties[key], v)
      case None => []
      case Some(expected) => [TypeMismatch(key, expected, TypeOf(v))]
  }

  /** The enum is looked at only if the type is right. */
  function EnumFault(properties: map<string, Json>, key: string, v: Value): seq<EnumViolation> {
    if key in properties && CheckFieldType(properties[key], v).None? && BreaksEnum(properties[key], v) then
      [EnumViolation(key, Allowed(properties[key]).value, v)]
    else []
  }

  function TypeFaults(order: seq<string>, properties: map<string, Json>, members: map<string, Value>): seq<TypeMismatch>
    requires forall i :: 0 <= i < |order| ==> order[i] in members
  {
    if order == [] then []
    else
      var front, key := order[..|order| - 1], order[|order| - 1];
      TypeFaults(front, properties, members) + TypeFault(properties, key, members[key])
  }

  function EnumFaults(order: seq<string>, properties: map<string, Json>, members: map<string, Value>): seq<EnumViolation>
    requires forall i :: 0 <= i < |order| ==> order[i] in members
  {
    if order == [] then []
    else
      var front, key := order[..|order| - 1], order[|order| - 1];
      EnumFaults(front, properties, members) + EnumFault(properties, key, members[key])
  }

  /** The keys of the input in the order in which they are visited. */
  ghost predicate Visits(order: seq<string>, input: Value) {
    input.Object? ==>
      && (forall i :: 0 <= i < |order| ==> order[i] in input.members)
      && (forall key :: key in input.members ==> key in order)
      && (forall i, j :: 0 <= i < j < |order| ==> order[i] != order[j])
  }

  /** What the visited keys have been found to be. */
  ghost predicate Found(order: seq<string>, properties: map<string, Json>, members: map<string, Value>, more: bool,
                        m: Mismatch)
    requires forall i :: 0 <= i < |order| ==> order[i] in members
  {
    && m.unexpected == (if more then [] else Unexpected(order, properties))
    && m.types == TypeFaults(order, properties, members)
    && m.enums == EnumFaults(order, properties, members)
  }

  // ----- the validator -----

  predicate NoFault(m: Mismatch) { m.missing == [] && m.unexpected == [] && m.types == [] && m.enums == [] }

  method CollectMissing(required: seq<string>, members: map<string, Value>) returns (missing: seq<string>)
    ensures missing == Missing(required, members)
  {
    missing := [];
    var i := 0;
    while i < |required|
      invariant 0 <= i <= |required|
      invariant missing == Missing(required[..i], members)
    {
      assert required[..i + 1][..i] == required[..i];
      if required[i] !in members {
        missing := missing + [required[i]];
      }
      i := i + 1;
    }
    assert required[..i] == required;
  }

  /** One field of the input: its type first, and its enum only if the type is right. */
  method InspectField(key: string, v: Value, properties: map<string, Json>, more: bool, m: Mismatch) returns (m': Mismatch)
    ensures m' == m.(unexpected := m.unexpected + if key in properties || more then [] else [key],
                     types := m.types + TypeFault(properties, key, v),
                     enums := m.enums + EnumFault(properties, key, v))
  {
    m' := m;
    if key !in properties {
      if !more {
        m' := m'.(unexpected := m'.unexpected + [key]);
      }
    } else {
      var expected := CheckFieldType(properties[key], v);
      if expected.Some? {
        m' := m'.(types := m'.types + [TypeMismatch(key, expected.value, TypeOf(v))]);
      } else if BreaksEnum(properties[key], v) {
        m' := m'.(enums := m'.enums + [EnumViolation(key, Allowed(properties[key]).value, v)]);
      }
    }
  }

  lemma FoundNext(order: seq<string>, i: nat, properties: map<string, Json>, members: map<string, Value>, more: bool,
                  m: Mismatch, next: Mismatch)
    requires (forall j :: 0 <= j < |order| ==> order[j] in members) && i < |order|
    requires Found(order[..i], properties, members, more, m)
    requires next.unexpected == m.unexpected + if order[i] in properties || more then [] else [order[i]]
    requires next.types == m.types + TypeFault(properties, order[i], members[order[i]])
    requires next.enums == m.enums + EnumFault(properties, order[i], members[order[i]])
    ensures Found(order[..i + 1], properties, members, more, next)
  {
    assert order[..i + 1][..i] == order[..i];
  }

  /** The loop over the keys of the input. */
  method CollectFaults(order: seq<string>, properties: map<string, Json>, members: map<string, Value>, more: bool,
                       m0: Mismatch) returns (m: Mismatch)
    requires forall j :: 0 <= j < |order| ==> order[j] in members
    requires m0.unexpected == [] && m0.types == [] && m0.enums == []
    ensures Found(order, properties, members, more, m)
    ensures m.expected == m0.expected && m.actual == m0.actual && m.missing == m0.missing
  {
    m := m0;
    var i := 0;
    while i < |order|
      invariant 0 <= i <= |order|
      invariant m.expected == m0.expected && m.actual == m0.actual && m.missing == m0.missing
      invariant Found(order[..i], properties, members, more, m)
    {
      var next := InspectField(order[i], members[order[i]], properties, more, m);
      FoundNext(order, i, properties, members, more, m, next);
      m := next;
      i := i + 1;
    }
    assert order[..i] == order;
  }

  /** `validate_tool_input`; `order` is the order in which the input's keys are visited. */
  method ValidateToolInput(schema: Json, input: Value, order: seq<string>) returns (r: Option<Mismatch>)
    requires Visits(order, input)
    ensures Properties(schema).None? ==> r == None
    ensures Properties(schema).Some? && !input.Object? ==>
      r == Some(Mismatch(Properties(schema).value.Keys, [], RequiredNames(schema), [], [], []))
    ensures Properties(schema).Some? && input.Object? ==>
      && (r == None <==> Conforms(schema, input))
      && (r.Some? ==>
            && r.value.expected == Properties(schema).value.Keys && r.value.actual == order
            && r.value.missing == Missing(RequiredNames(schema), input.members)
            && Found(order, Properties(schema).value, input.members, AllowsMore(schema), r.value))
  {
    if Properties(schema).None? {
      return None;
    }
    var properties, required := Properties(schema).value, RequiredNames(schema);
    var more := AllowsMore(schema);
    if !input.Object? {
      return Some(Mismatch(properties.Keys, [], required, [], [], []));
    }
    var missing := CollectMissing(required, input.members);
    var m := CollectFaults(order, properties, input.members, more, Mismatch(properties.Keys, order, missing, [], [], []));
    NoFaultIsConforming(schema, input, order, m);
    r := if NoFault(m) then None else Some(m);
  }

  /** Accepted: an object with all that is required, and nothing that is not a property
      or that its property does not take. */
  ghost predicate Conforms(schema: Json, input: Value) {
    Properties(schema).Some? ==>
      && input.Object?
      && (forall name :: name in RequiredNames(schema) ==> name in input.members)
      && (forall key :: key in input.members ==> KeyOk(AllowsMore(schema), Properties(schema).value, key, input.members[key]))
  }

  predicate KeyOk(more: bool, properties: map<string, Json>, key: string, v: Value) {
    if key in properties then FieldOk(properties[key], v) else more
  }

  lemma {:induction false} MissingIs(required: seq<string>, members: map<string, Value>, name: string)
    ensures name in Missing(required, members) <==> name in required && name !in members
  {
    if required != [] {
      MissingIs(required[..|required| - 1], members, name);
      assert required == required[..|required| - 1] + [required[|required| - 1]];
    }
  }

  ghost predicate HasType(types: seq<TypeMismatch>, key: string) {
    exists i :: 0 <= i < |types| && types[i].field == key
  }

  ghost predicate HasEnum(enums: seq<EnumViolation>, key: string) {
    exists i :: 0 <= i < |enums| && enums[i].field == key
  }

  lemma HasTypeConcat(a: seq<TypeMismatch>, b: seq<TypeMismatch>, key: string)
    ensures HasType(a + b, key) <==> HasType(a, key) || HasType(b, key)
  {
    if i :| 0 <= i < |b| && b[i].field == key {
      assert (a + b)[|a| + i] == b[i];
    }
    if i :| 0 <= i < |a| && a[i].field == key {
      assert (a + b)[i] == a[i];
    }
  }

  lemma HasEnumConcat(a: seq<EnumViolation>, b: seq<EnumViolation>, key: string)
    ensures HasEnum(a + b, key) <==> HasEnum(a, key) || HasEnum(b, key)
  {
    if i :| 0 <= i < |b| && b[i].field == key {
      assert (a + b)[|a| + i] == b[i];
    }
    if i :| 0 <= i < |a| && a[i].field == key {
      assert (a + b)[i] == a[i];
    }
  }

  ghost predicate WrongType(properties: map<string, Json>, key: string, v: Value) {
    key in properties && CheckFieldType(properties[key], v).Some?
  }

  ghost predicate WrongEnum(properties: map<string, Json>, key: string, v: Value) {
    key in properties && CheckFieldType(properties[key], v).None? && BreaksEnum(properties[key], v)
  }

  lemma OneFault(properties: map<string, Json>, last: string, v: Value, key: string)
    ensures HasType(TypeFault(properties, last, v), key) <==> last == key && WrongType(properties, last, v)
    ensures HasEnum(EnumFault(properties, last, v), key) <==> last == key && WrongEnum(properties, last, v)
  {
    assert |TypeFault(properties, last, v)| == 1 ==> TypeFault(properties, last, v)[0].field == last;
    assert |EnumFault(properties, last, v)| == 1 ==> EnumFault(properties, last, v)[0].field == last;
  }

  /** Which keys are in which list: the list of a key says what is wrong with it. */
  lemma {:induction false} FaultsAre(order: seq<string>, properties: map<string, Json>, members: map<string, Value>, key: string)
    requires forall i :: 0 <= i < |order| ==> order[i] in members
    ensures key in Unexpected(order, properties) <==> key in order && key !in properties
    ensures HasType(TypeFaults(order, properties, members), key) <==> key in order && WrongType(properties, key, members[key])
    ensures HasEnum(EnumFaults(order, properties, members), key) <==> key in order && WrongEnum(properties, key, members[key])
  {
    if order != [] {
      var front, last := order[..|order| - 1], order[|order| - 1];
      FaultsAre(front, properties, members, key);
      assert order == front + [last];
      HasTypeConcat(TypeFaults(front, properties, members), TypeFault(properties, last, members[last]), key);
      HasEnumConcat(EnumFaults(front, properties, members), EnumFault(properties, last, members[last]), key);
      OneFault(properties, last, members[last], key);
    }
  }

  lemma {:induction false} NoneMissing(required: seq<string>, members: map<string, Value>)
    ensures Missing(required, members) == [] <==> forall name :: name in required ==> name in members
  {
    if required != [] {
      NoneMissing(required[..|required| - 1], members);
      assert required == required[..|required| - 1] + [required[|required| - 1]];
    }
  }

  lemma {:induction false} AllKeysOk(order: seq<string>, properties: map<string, Json>, members: map<string, Value>, more: bool)
    requires forall i :: 0 <= i < |order| ==> order[i] in members
    ensures (more || Unexpected(order, properties) == [])
            && TypeFaults(order, properties, members) == [] && EnumFaults(order, properties, members) == []
       <==> forall i :: 0 <= i < |order| ==> KeyOk(more, properties, order[i], members[order[i]])
  {
    if order != [] {
      var front, last := order[..|order| - 1], order[|order| - 1];
      AllKeysOk(front, properties, members, more);
      KeyOkMeans(properties, last, members[last], more);
      assert forall i :: 0 <= i < |front| ==> front[i] == order[i];
    }
  }

  lemma KeyOkMeans(properties: map<string, Json>, key: string, v: Value, more: bool)
    ensures KeyOk(more, properties, key, v)
       <==> (key in properties || more) && TypeFault(properties, key, v) == [] && EnumFault(properties, key, v) == []
  {}

  lemma NoFaultIsConforming(schema: Json, input: Value, order: seq<string>, m: Mismatch)
    requires Properties(schema).Some? && input.Object? && Visits(order, input)
    requires m.missing == Missing(RequiredNames(schema), input.members)
    requires Found(order, Properties(schema).value, input.members, AllowsMore(schema), m)
    ensures NoFault(m) <==> Conforms(schema, input)
  {
    NoneMissing(RequiredNames(schema), input.members);
    AllKeysOk(order, Properties(schema).value, input.members, AllowsMore(schema));
  }

  /** The report tells of each key what is wrong with it, and no key is wrong in two ways. */
  lemma ReportSays(schema: Json, input: Value, order: seq<string>, m: Mismatch, key: string)
    requires Properties(schema).Some? && input.Object? && Visits(order, input)
    requires m.missing == Missing(RequiredNames(schema), input.members)
    requires Found(order, Properties(schema).value, input.members, AllowsMore(schema), m)
    ensures key in m.missing <==> key in RequiredNames(schema) && key !in input.members
    ensures key in m.unexpected <==> key in input.members && key !in Properties(schema).value && !AllowsMore(schema)
    ensures HasType(m.types, key) || HasEnum(m.enums, key)
       <==> key in input.members && key in Properties(schema).value
            && !FieldOk(Properties(schema).value[key], input.members[key])
    ensures !(HasType(m.types, key) && HasEnum(m.enums, key))
  {
    MissingIs(RequiredNames(schema), input.members, key);
    FaultsAre(order, Properties(schema).value, input.members, key);
  }

  /** The name reported for a value is the type by which a field takes it; only a whole
      number passes for another type as well, `number`. */
  lemma TypeNames(v: Value, name: string)
    requires name in ["string", "integer", "number", "boolean", "array", "object"]
    ensures CheckFieldType(Obj(map["type" := Str(name)]), v).None?
       <==> TypeOf(v) == name || (name == "number" && TypeOf(v) == "integer")
    ensures TypeOf(v) == "null" <==> v.Null?
  {}

  /** `additionalProperties: true` only lets unknown keys pass. */
  lemma AdditionalTrue(schema: map<string, Json>, members: map<string, Value>)
    requires Properties(Obj(schema)).Some? && "additionalProperties" !in schema
    ensures Conforms(Obj(schema), Object(members))
       <==> Conforms(Obj(schema["additionalProperties" := True]), Object(members))
            && forall key :: key in members ==> key in Properties(Obj(schema)).value
  {}

  /** That a field is nullable is not enough for null: there must be no enum either, as
      the validator goes on to look there. */
  lemma NullableTakesNull(field: Json)
    requires Get(field, "nullable") == Some(True)
    ensures FieldOk(field, Null) <==> Allowed(field).None?
  {
    if Allowed(field).Some? {
      var items := Allowed(field).value;
      forall i | 0 <= i < |items| ensures AsValue(items[i]) != Null {
        NeverNull(items[i]);
      }
    }
  }

  lemma NeverNull(j: Json)
    ensures AsValue(j) != Null
  {}

  // ----- keys for the runtime only -----

  const RUNTIME_META_KEYS: seq<string> := ["phase"]

  /** `strip_runtime_meta`. */
  method StripRuntimeMeta(input: Value) returns (stripped: Value)
    ensures stripped == Stripped(input)
  {
    stripped := input;
    if !input.Object? {
      return;
    }
    var members := input.members;
    var i := 0;
    while i < |RUNTIME_META_KEYS|
      invariant 0 <= i <= |RUNTIME_META_KEYS|
      invariant members == input.members - set key | key in RUNTIME_META_KEYS[..i]
    {
      assert RUNTIME_META_KEYS[..i + 1] == RUNTIME_META_KEYS[..i] + [RUNTIME_META_KEYS[i]];
      members := members - {RUNTIME_META_KEYS[i]};
      i := i + 1;
    }
    assert RUNTIME_META_KEYS[..i] == ["phase"];
    assert (set key | key in RUNTIME_META_KEYS[..i]) == {"phase"};
    stripped := Object(members);
  }

  function Stripped(input: Value): Value {
    if input.Object? then Object(input.members - {"phase"}) else input
  }

  /** The phase never matters, so a schema that requires a field of that name accepts nothing. */
  lemma PhaseIsIgnored(schema: Json, members: map<string, Value>, phase: Value)
    ensures Stripped(Object(members["phase" := phase])) == Stripped(Object(members))
    ensures Properties(schema).Some? && "phase" in RequiredNames(schema) ==> !Conforms(schema, Stripped(Object(members)))
  {
    assert members["phase" := phase] - {"phase"} == members - {"phase"};
  }
}
