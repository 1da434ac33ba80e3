/** Validating a schema against the embedded meta-schema of its draft. */
module MetaValidation {
  import opened JsonValues
  import opened Keywords
  import opened SchemaTree
  import opened TreeFeatures
  import opened SchemaMeaning
  import opened Compiler
  import opened Evaluators
  import CompilerFeatures
  import EvaluatorVerdicts
  import SchemaCompiler
  import SchemaNodes

  datatype Verdict = Conforms | NotBuilt(why: CompileError) | Violates(error: Error)

  /** The validator of the embedded document of the draft; the document names its own draft and base URI. */
  function Build(env: Env, meta: Draft -> Json): Result<Node> {
    var document := meta(env.draft);
    Compile(env, Root(env.draft, document), document).0
  }

  /** `validate_schema_with_draft`, with its fall-through to `Ok`. */
  function ValidateSchemaWithDraft(env: Env, meta: Draft -> Json, schema: Json): Verdict {
    var r := Build(env, meta);
    if r.Err? then NotBuilt(r.error)
    else
      var error := ValidateSchema(env, r.value, schema);
      if error.None? then Conforms else Violates(error.value)
  }

  /** `is_schema_valid_with_draft` */
  predicate IsSchemaValidWithDraft(env: Env, meta: Draft -> Json, schema: Json) {
    var r := Build(env, meta);
    r.Ok? && IsValid(env, r.value, schema)
  }

  method Validate(env: Env, meta: Draft -> Json, schema: Json) returns (verdict: Verdict)
    ensures verdict == ValidateSchemaWithDraft(env, meta, schema)
  {
    var built := SchemaCompiler.Compile(env, meta(env.draft));
    if built.Err? {
      return NotBuilt(built.error);
    }
    var valid := SchemaNodes.ValidatorIsValid(env, built.value, schema);
    if valid {
      return Conforms;
    }
    var errors := SchemaNodes.ValidatorIterErrors(env, built.value, schema);
    if errors != [] {
      return Violates(errors[0]);
    }
    verdict := Conforms;
  }

  method IsValidSchema(env: Env, meta: Draft -> Json, schema: Json) returns (valid: bool)
    ensures valid <==> IsSchemaValidWithDraft(env, meta, schema)
  {
    var built := SchemaCompiler.Compile(env, meta(env.draft));
    if built.Err? {
      return false;
    }
    valid := SchemaNodes.ValidatorIsValid(env, built.value, schema);
  }

  /** Over a meta-schema that uses no `patternProperties`, directly or through the references it follows, the
      fall-through is unreachable: the two functions agree on every schema. */
  lemma MetaSchemaDecides(env: Env, meta: Draft -> Json, schema: Json)
    requires var document := meta(env.draft); Avoids(env, Root(env.draft, document), document, 64, {ByPattern})
    ensures ValidateSchemaWithDraft(env, meta, schema).Conforms? <==> IsSchemaValidWithDraft(env, meta, schema)
  {
    hide Avoids, Compile, Lacks, IsValid, IterErrors, ValidateSchema;
    var document := meta(env.draft);
    CompilerFeatures.CompiledTreeLacks(env, Root(env.draft, document), document, {ByPattern});
    var r := Build(env, meta);
    if r.Ok? {
      EvaluatorVerdicts.ValidIffNoErrors(env, r.value, schema);
    }
  }

  /** What is answered, in terms of the public evaluators: an error is the first one `iter_errors` yields, and is given
      only of an invalid schema that has one. */
  lemma AnswersFirstError(env: Env, meta: Draft -> Json, schema: Json)
    ensures var document := meta(env.draft);
      var r := Compile(env, Root(env.draft, document), document).0;
      var verdict := ValidateSchemaWithDraft(env, meta, schema);
      && (r.Err? ==> verdict == NotBuilt(r.error) && !IsSchemaValidWithDraft(env, meta, schema))
      && (r.Ok? ==>
            && (IsSchemaValidWithDraft(env, meta, schema) <==> IsValid(env, r.value, schema))
            && verdict ==
              if IsValid(env, r.value, schema) || IterErrors(env, r.value, schema) == [] then Conforms
              else Violates(IterErrors(env, r.value, schema)[0]))
  {
    hide Compile, IsValid, IterErrors;
  }

  // ----- a criterion that can be read off a document -----

  /** Read as a schema, the document mentions `patternProperties` only as the name of a property (or of a dependency),
      and refers to nothing but the listed references. */
  predicate PatternFree(j: Json, refs: iset<(RefKind, string)>)
    decreases j, 0
  {
    match j
    case Arr(items) => forall k :: 0 <= k < |items| ==> PatternFree(items[k], refs)
    case Obj(members) => forall k :: 0 <= k < |members| ==> MemberFree(members[k], refs)
    case _ => true
  }

  predicate MemberFree(m: Member, refs: iset<(RefKind, string)>)
    decreases m
  {
    match Parse(m.key)
    case PatternProperties => false
    case Reference(kind) => m.value.Str? && (kind, m.value.s) in refs
    case Properties => ValuesFree(m.value, refs)
    case DependentSchemas => ValuesFree(m.value, refs)
    case Dependencies => ValuesFree(m.value, refs)
    case _ => PatternFree(m.value, refs)
  }

  predicate ValuesFree(j: Json, refs: iset<(RefKind, string)>)
    decreases j, 1
  {
    if j.Obj? then forall p :: 0 <= p < |j.members| ==> PatternFree(j.members[p].value, refs)
    else PatternFree(j, refs)
  }

  /** From any of the resolvers, the listed references lead to such documents again. */
  ghost predicate StaysFree(env: Env, bases: iset<Resolver>, refs: iset<(RefKind, string)>) {
    forall base, r | base in bases && r in refs && env.lookup(r.0, base, r.1).Some? ::
      var target := env.lookup(r.0, base, r.1).value;
      target.base in bases && PatternFree(target.schema, refs)
  }

  ghost function FreeUniverse(bases: iset<Resolver>, refs: iset<(RefKind, string)>): iset<Target> {
    iset t: Target | t.base in bases && PatternFree(t.schema, refs)
  }

  lemma FoundFree(schema: seq<Member>, key: string, refs: iset<(RefKind, string)>)
    requires PatternFree(Obj(schema), refs)
    requires (key == "if" || key == "then" || key == "else" || key == "additionalItems")
    ensures var found := Get(schema, key); found.Some? ==> PatternFree(found.value, refs)
  {
    var at := IndexFrom(schema, key, 0);
    if at.Some? {
      assert MemberFree(schema[at.value], refs);
    }
  }

  predicate AllFree(js: seq<Json>, refs: iset<(RefKind, string)>) {
    forall x :: 0 <= x < |js| ==> PatternFree(js[x], refs)
  }

  lemma ItemsFree(j: Json, refs: iset<(RefKind, string)>)
    requires PatternFree(j, refs)
    ensures AllFree([j], refs) && (j.Arr? ==> AllFree(j.items, refs))
  {
  }

  lemma MembersFree(j: Json, refs: iset<(RefKind, string)>)
    requires ValuesFree(j, refs) && j.Obj?
    ensures AllFree(Values(j.members), refs) && AllFree(SchemasAmong(Values(j.members)), refs)
  {
    hide PatternFree;
    var among := SchemasAmong(Values(j.members));
    forall x | 0 <= x < |among| ensures PatternFree(among[x], refs) {
      assert among[x] in among;
    }
  }

  lemma ConditionalFree(schema: seq<Member>, refs: iset<(RefKind, string)>)
    requires PatternFree(Obj(schema), refs)
    ensures AllFree(ConditionalSubschemas(schema), refs)
  {
    FoundFree(schema, "if", refs);
    FoundFree(schema, "then", refs);
    FoundFree(schema, "else", refs);
    hide PatternFree, Get;
  }

  lemma SubschemasFree(env: Env, schema: seq<Member>, k: nat, refs: iset<(RefKind, string)>)
    requires PatternFree(Obj(schema), refs) && k < |schema|
    ensures AllFree(Subschemas(env.draft, schema, Active(env.draft, schema, schema[k].key), schema[k].value), refs)
  {
    var kw, arg := Active(env.draft, schema, schema[k].key), schema[k].value;
    assert MemberFree(schema[k], refs);
    FoundFree(schema, "additionalItems", refs);
    hide PatternFree, Parse, Get, SchemasAmong, ConditionalSubschemas;
    if kw == Properties || kw == DependentSchemas || kw == Dependencies {
      if arg.Obj? {
        MembersFree(arg, refs);
      }
    } else if kw == If || kw == Branch {
      hide AllFree;
      ConditionalFree(schema, refs);
    } else if kw != Unmodelled && !kw.Reference? {
      ItemsFree(arg, refs);
    }
  }

  lemma FreeSealed(env: Env, bases: iset<Resolver>, refs: iset<(RefKind, string)>)
    requires StaysFree(env, bases, refs)
    ensures CompilerFeatures.Sealed(env, FreeUniverse(bases, refs), {ByPattern})
  {
    var universe := FreeUniverse(bases, refs);
    forall t | t in universe && t.schema.Obj?
      ensures CompilerFeatures.SchemaSealed(env, universe, t.base, t.schema.members, {ByPattern})
    {
      var schema := t.schema.members;
      forall k | 0 <= k < |schema|
        ensures var kw := Active(env.draft, schema, schema[k].key);
          CompilerFeatures.EntrySealed(env, universe, t.base, schema, kw, schema[k].value, {ByPattern})
      {
        EntryFree(env, bases, refs, t.base, schema, k);
      }
    }
  }

  lemma EntryFree(env: Env, bases: iset<Resolver>, refs: iset<(RefKind, string)>, base: Resolver, schema: seq<Member>,
        k: nat)
    requires StaysFree(env, bases, refs) && base in bases && PatternFree(Obj(schema), refs) && k < |schema|
    ensures var kw := Active(env.draft, schema, schema[k].key);
      CompilerFeatures.EntrySealed(env, FreeUniverse(bases, refs), base, schema, kw, schema[k].value, {ByPattern})
  {
    SubschemasFree(env, schema, k, refs);
    assert MemberFree(schema[k], refs);
    hide Subschemas, Get, Has;
    var kw, arg := Active(env.draft, schema, schema[k].key), schema[k].value;
    if kw.Reference? && arg.Str? && env.lookup(kw.kind, base, arg.s).Some? {
      assert (kw.kind, arg.s) in refs;
    }
  }

  /** Such a document avoids `patternProperties` at every depth. */
  lemma PatternFreeAvoids(env: Env, bases: iset<Resolver>, refs: iset<(RefKind, string)>, base: Resolver, s: Json,
        h: nat)
    requires StaysFree(env, bases, refs) && base in bases && PatternFree(s, refs)
    ensures Avoids(env, base, s, h, {ByPattern})
  {
    hide PatternFree, StaysFree;
    FreeSealed(env, bases, refs);
    CompilerFeatures.SealedAvoids(env, FreeUniverse(bases, refs), Target(s, base), h, {ByPattern});
  }
}
