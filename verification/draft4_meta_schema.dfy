/** The embedded meta-schema of draft 4, and what validating a schema against it answers. */
module Draft4MetaSchema {
  import opened JsonValues
  import opened Keywords
  import opened SchemaTree
  import opened Compiler
  import opened MetaValidation

  // ----- the document, its objects in iteration order -----

  function Ref(r: string): Json {
    Sole("$ref", Str(r))
  }

  function OfType(name: string): Json {
    Sole("type", Str(name))
  }

  function AnyOf(a: Json, b: Json): Json {
    Obj([Member("anyOf", Arr([a, b])), Member("default", Obj([]))])
  }

  function MapOf(sub: Json): Json {
    Obj([Member("additionalProperties", sub), Member("default", Obj([])), Member("type", Str("object"))])
  }

  const ANY: Json := Obj([])
  const FLAG: Json := Obj([Member("default", Bool(false)), Member("type", Str("boolean"))])
  const SELF: Json := Ref("#")
  const POSITIVE: Json := Ref("#/definitions/positiveInteger")
  const POSITIVE_OR_ZERO: Json := Ref("#/definitions/positiveIntegerDefault0")
  const SCHEMAS: Json := Ref("#/definitions/schemaArray")
  const STRINGS: Json := Ref("#/definitions/stringArray")
  const SIMPLE: Json := Ref("#/definitions/simpleTypes")
  const NUMBER_ABOVE_ZERO: Json := Obj([
    Member("exclusiveMinimum", Bool(true)), Member("minimum", Num(0.0)), Member("type", Str("number"))])
  const REGEX: Json := Obj([Member("format", Str("regex")), Member("type", Str("string"))])
  const VALUES: Json := Obj([
    Member("minItems", Num(1.0)), Member("type", Str("array")), Member("uniqueItems", Bool(true))])
  const SIMPLE_ARRAY: Json := Obj([Member("items", SIMPLE), Member("minItems", Num(1.0)),
    Member("type", Str("array")), Member("uniqueItems", Bool(true))])
  const TYPES: Json := Sole("anyOf", Arr([SIMPLE, SIMPLE_ARRAY]))
  const DEPENDENCIES: Json := Obj([
    Member("additionalProperties", Sole("anyOf", Arr([SELF, STRINGS]))), Member("type", Str("object"))])

  const PROPERTIES: seq<Member> :=
    [Member("$schema", OfType("string")), Member("additionalItems", AnyOf(OfType("boolean"), SELF)),
    Member("additionalProperties", AnyOf(OfType("boolean"), SELF)), Member("allOf", SCHEMAS),
    Member("anyOf", SCHEMAS), Member("default", ANY), Member("definitions", MapOf(SELF)),
    Member("dependencies", DEPENDENCIES)]
    + [Member("description", OfType("string")), Member("enum", VALUES), Member("exclusiveMaximum", FLAG),
    Member("exclusiveMinimum", FLAG), Member("format", OfType("string")), Member("id", OfType("string")),
    Member("items", AnyOf(SELF, SCHEMAS)), Member("maxItems", POSITIVE), Member("maxLength", POSITIVE)]
    + [Member("maxProperties", POSITIVE), Member("maximum", OfType("number")), Member("minItems", POSITIVE_OR_ZERO),
    Member("minLength", POSITIVE_OR_ZERO), Member("minProperties", POSITIVE_OR_ZERO),
    Member("minimum", OfType("number")), Member("multipleOf", NUMBER_ABOVE_ZERO), Member("not", SELF)]
    + [Member("oneOf", SCHEMAS), Member("pattern", REGEX), Member("patternProperties", MapOf(SELF)),
    Member("properties", MapOf(SELF)), Member("required", STRINGS), Member("title", OfType("string")),
    Member("type", TYPES), Member("uniqueItems", FLAG)]

  const POSITIVE_INTEGER: Json := Obj([Member("minimum", Num(0.0)), Member("type", Str("integer"))])
  const POSITIVE_INTEGER_DEFAULT_0: Json := Sole("allOf", Arr([POSITIVE, Sole("default", Num(0.0))]))
  const SCHEMA_ARRAY: Json := Obj([
    Member("items", SELF), Member("minItems", Num(1.0)), Member("type", Str("array"))])
  const SIMPLE_TYPES: Json := Sole("enum", Arr([
    Str("array"), Str("boolean"), Str("integer"), Str("null"), Str("number"), Str("object"), Str("string")]))
  const STRING_ARRAY: Json := Obj([Member("items", OfType("string")), Member("minItems", Num(1.0)),
    Member("type", Str("array")), Member("uniqueItems", Bool(true))])

  const DEFINITIONS: Json := Obj([
    Member("positiveInteger", POSITIVE_INTEGER), Member("positiveIntegerDefault0", POSITIVE_INTEGER_DEFAULT_0),
    Member("schemaArray", SCHEMA_ARRAY), Member("simpleTypes", SIMPLE_TYPES), Member("stringArray", STRING_ARRAY)])

  const URI: string := "http://json-schema.org/draft-04/schema#"

  const DOCUMENT: Json := Obj([
    Member("$schema", Str(URI)), Member("default", Obj([])), Member("definitions", DEFINITIONS),
    Member("dependencies", Obj([
      Member("exclusiveMaximum", Arr([Str("maximum")])), Member("exclusiveMinimum", Arr([Str("minimum")]))])),
    Member("description", Str("Core schema meta-schema")), Member("id", Str(URI)),
    Member("properties", Obj(PROPERTIES)), Member("type", Str("object"))])

  /** What a reference of the document leads to. */
  function At(reference: string): Json {
    match reference
    case "#/definitions/positiveInteger" => POSITIVE_INTEGER
    case "#/definitions/positiveIntegerDefault0" => POSITIVE_INTEGER_DEFAULT_0
    case "#/definitions/schemaArray" => SCHEMA_ARRAY
    case "#/definitions/simpleTypes" => SIMPLE_TYPES
    case "#/definitions/stringArray" => STRING_ARRAY
    case _ => DOCUMENT
  }

  const REFERENCES: set<string> := {"#", "#/definitions/positiveInteger", "#/definitions/positiveIntegerDefault0",
    "#/definitions/schemaArray", "#/definitions/simpleTypes", "#/definitions/stringArray"}

  ghost const REFS: iset<(RefKind, string)> := iset r: (RefKind, string) | r.0 == Static && r.1 in REFERENCES

  /** The resolvers positioned in the document. */
  ghost const BASES: iset<Resolver> := iset b: Resolver | b.uri == BaseUri(Draft4, DOCUMENT)

  /** References of the document that resolve lead to the places they name. */
  ghost predicate Registered(env: Env) {
    forall base, r | base in BASES && r in REFERENCES && env.lookup(Static, base, r).Some? ::
      var target := env.lookup(Static, base, r).value;
      target.base in BASES && target.schema == At(r)
  }

  // ----- it mentions `patternProperties` as a property name only -----

  ghost predicate Free(j: Json) {
    PatternFree(j, REFS)
  }

  /** A keyword whose value is itself a schema, a list of schemas or no schema at all. */
  predicate Ordinary(key: string) {
    var kw := Parse(key);
    !kw.Reference? && kw != PatternProperties && kw != Properties && kw != DependentSchemas && kw != Dependencies
  }

  lemma OrdinaryKeys()
    ensures Ordinary("type") && Ordinary("default") && Ordinary("anyOf") && Ordinary("allOf") && Ordinary("items")
    ensures Ordinary("minItems") && Ordinary("minimum") && Ordinary("exclusiveMinimum") && Ordinary("uniqueItems")
    ensures Ordinary("enum") && Ordinary("format") && Ordinary("additionalProperties")
  {
    hide Ordinary;
    ApplicatorKeys();
    AssertionKeys();
    OtherKeys();
  }

  lemma ApplicatorKeys()
    ensures Ordinary("anyOf") && Ordinary("allOf") && Ordinary("items") && Ordinary("additionalProperties")
  {
  }

  lemma AssertionKeys()
    ensures Ordinary("type") && Ordinary("minItems") && Ordinary("minimum") && Ordinary("exclusiveMinimum")
  {
  }

  lemma OtherKeys()
    ensures Ordinary("default") && Ordinary("uniqueItems") && Ordinary("enum") && Ordinary("format")
  {
  }

  ghost predicate MembersFree(members: seq<Member>) {
    forall k :: 0 <= k < |members| ==> Ordinary(members[k].key) && Free(members[k].value)
  }

  lemma ObjectFree(members: seq<Member>)
    requires MembersFree(members)
    ensures Free(Obj(members))
  {
  }

  lemma ScalarFree(j: Json)
    requires !j.Arr? && !j.Obj?
    ensures Free(j)
  {
  }

  lemma ArrayFree(items: seq<Json>)
    requires forall k :: 0 <= k < |items| ==> Free(items[k])
    ensures Free(Arr(items))
  {
  }

  lemma RefFree(r: string)
    requires r in REFERENCES
    ensures Free(Ref(r))
  {
    assert Parse("$ref") == Reference(Static);
    assert MemberFree(Member("$ref", Str(r)), REFS) by {
      assert (Static, r) in REFS;
    }
  }

  lemma RefsFree()
    ensures Free(SELF) && Free(POSITIVE) && Free(POSITIVE_OR_ZERO) && Free(SCHEMAS) && Free(STRINGS) && Free(SIMPLE)
  {
    RefFree("#");
    RefFree("#/definitions/positiveInteger");
    RefFree("#/definitions/positiveIntegerDefault0");
    RefFree("#/definitions/schemaArray");
    RefFree("#/definitions/simpleTypes");
    RefFree("#/definitions/stringArray");
  }

  lemma SoleFree(key: string, v: Json)
    requires Ordinary(key) && Free(v)
    ensures Free(Sole(key, v))
  {
    ObjectFree([Member(key, v)]);
  }

  lemma OfTypeFree(name: string)
    ensures Free(OfType(name))
  {
    hide Free, Ordinary;
    OrdinaryKeys();
    ScalarFree(Str(name));
    SoleFree("type", Str(name));
  }

  lemma AnyOfFree(a: Json, b: Json)
    requires Free(a) && Free(b)
    ensures Free(AnyOf(a, b))
  {
    hide Free, Ordinary;
    OrdinaryKeys();
    ArrayFree([a, b]);
    ObjectFree([]);
    ObjectFree(AnyOf(a, b).members);
  }

  lemma MapOfFree(sub: Json)
    requires Free(sub)
    ensures Free(MapOf(sub))
  {
    hide Free, Ordinary;
    OrdinaryKeys();
    ObjectFree([]);
    ScalarFree(Str("object"));
    ObjectFree(MapOf(sub).members);
  }

  lemma ScalarsFree(members: seq<Member>)
    requires forall k :: 0 <= k < |members| ==>
      Ordinary(members[k].key) && !members[k].value.Arr? && !members[k].value.Obj?
    ensures Free(Obj(members))
  {
    hide Free, Ordinary;
    forall k | 0 <= k < |members| ensures Free(members[k].value) {
      ScalarFree(members[k].value);
    }
    ObjectFree(members);
  }

  lemma ConstantsFree()
    ensures Free(ANY) && Free(FLAG) && Free(NUMBER_ABOVE_ZERO) && Free(REGEX) && Free(VALUES)
    ensures Free(SIMPLE_ARRAY) && Free(TYPES) && Free(DEPENDENCIES)
  {
    hide Free, Ordinary;
    OrdinaryKeys();
    RefsFree();
    ObjectFree([]);
    ScalarsFree(FLAG.members);
    ScalarsFree(NUMBER_ABOVE_ZERO.members);
    ScalarsFree(REGEX.members);
    ScalarsFree(VALUES.members);
    ScalarFree(Num(1.0));
    ScalarFree(Str("array"));
    ScalarFree(Bool(true));
    ObjectFree(SIMPLE_ARRAY.members);
    ArrayFree([SIMPLE, SIMPLE_ARRAY]);
    SoleFree("anyOf", Arr([SIMPLE, SIMPLE_ARRAY]));
    ArrayFree([SELF, STRINGS]);
    SoleFree("anyOf", Arr([SELF, STRINGS]));
    ScalarFree(Str("object"));
    ObjectFree(DEPENDENCIES.members);
  }

  lemma PropertiesFree()
    ensures forall k :: 0 <= k < |PROPERTIES| ==> Free(PROPERTIES[k].value)
  {
    hide Free, OfType, AnyOf, MapOf;
    RefsFree();
    ConstantsFree();
    OfTypeFree("string");
    OfTypeFree("boolean");
    OfTypeFree("number");
    AnyOfFree(OfType("boolean"), SELF);
    AnyOfFree(SELF, SCHEMAS);
    MapOfFree(SELF);
  }

  lemma DefinitionsFree()
    ensures Free(POSITIVE_INTEGER) && Free(POSITIVE_INTEGER_DEFAULT_0) && Free(SCHEMA_ARRAY)
    ensures Free(SIMPLE_TYPES) && Free(STRING_ARRAY) && Free(DEFINITIONS)
  {
    hide Free, Ordinary;
    OrdinaryKeys();
    RefsFree();
    OfTypeFree("string");
    ScalarsFree(POSITIVE_INTEGER.members);
    ScalarsFree([Member("default", Num(0.0))]);
    ArrayFree([POSITIVE, Sole("default", Num(0.0))]);
    SoleFree("allOf", Arr([POSITIVE, Sole("default", Num(0.0))]));
    ScalarFree(Num(1.0));
    ScalarFree(Str("array"));
    ScalarFree(Bool(true));
    ObjectFree(SCHEMA_ARRAY.members);
    ObjectFree(STRING_ARRAY.members);
    NamesFree(SIMPLE_TYPES.members[0].value.items);
    SoleFree("enum", SIMPLE_TYPES.members[0].value);
    DefinitionNames();
    ObjectFree(DEFINITIONS.members);
  }

  lemma NamesFree(items: seq<Json>)
    requires forall k :: 0 <= k < |items| ==> items[k].Str?
    ensures Free(Arr(items))
  {
    hide Free;
    forall k | 0 <= k < |items| ensures Free(items[k]) {
      ScalarFree(items[k]);
    }
    ArrayFree(items);
  }

  lemma DefinitionNames()
    ensures Ordinary("positiveInteger") && Ordinary("positiveIntegerDefault0") && Ordinary("schemaArray")
    ensures Ordinary("simpleTypes") && Ordinary("stringArray")
  {
  }

  lemma OrdinaryMember(m: Member)
    requires Ordinary(m.key) && Free(m.value)
    ensures MemberFree(m, REFS)
  {
    hide Parse;
  }

  lemma NamedMember(m: Member)
    requires Parse(m.key) == Properties || Parse(m.key) == Dependencies
    requires m.value.Obj? && forall k :: 0 <= k < |m.value.members| ==> Free(m.value.members[k].value)
    ensures MemberFree(m, REFS)
  {
    hide Parse, PatternFree;
  }

  lemma DocumentFree()
    ensures Free(DOCUMENT)
  {
    PropertiesFree();
    DefinitionsFree();
    RootNames();
    NamesFree([Str("maximum")]);
    NamesFree([Str("minimum")]);
    ScalarFree(Str(URI));
    ScalarFree(DOCUMENT.members[4].value);
    ScalarFree(Str("object"));
    ObjectFree([]);
    forall k | 0 <= k < |DOCUMENT.members| ensures MemberFree(DOCUMENT.members[k], REFS) {
      hide Free, Ordinary, Parse;
      if k == 3 || k == 6 {
        NamedMember(DOCUMENT.members[k]);
      } else {
        OrdinaryMember(DOCUMENT.members[k]);
      }
    }
  }

  lemma RootNames()
    ensures Ordinary("$schema") && Ordinary("default") && Ordinary("definitions") && Ordinary("description")
    ensures Ordinary("id") && Ordinary("type")
    ensures Parse("dependencies") == Dependencies && Parse("properties") == Properties
  {
  }

  // ----- so its verdicts are those of `is_valid` -----

  lemma RegisteredStaysFree(env: Env)
    requires Registered(env)
    ensures StaysFree(env, BASES, REFS)
  {
    hide PatternFree;
    DefinitionsFree();
    DocumentFree();
  }

  /** `validate_schema_with_draft` and `is_schema_valid_with_draft` agree on every schema of draft 4. */
  lemma Draft4Decides(env: Env, meta: Draft -> Json, schema: Json)
    requires env.draft == Draft4 && meta(Draft4) == DOCUMENT && Registered(env)
    ensures ValidateSchemaWithDraft(env, meta, schema).Conforms? <==> IsSchemaValidWithDraft(env, meta, schema)
  {
    hide PatternFree, StaysFree, Registered;
    RegisteredStaysFree(env);
    DocumentFree();
    PatternFreeAvoids(env, BASES, REFS, Root(Draft4, DOCUMENT), DOCUMENT, 64);
    MetaSchemaDecides(env, meta, schema);
  }
}
