/** From the raw schema to the answers of its validator. */
module SchemaValidation {
  import opened JsonValues
  import opened Keywords
  import opened SchemaTree
  import opened TreeFeatures
  import opened SchemaMeaning
  import opened Compiler
  import opened Paths
  import Results = CompilerResults
  import CompilerFeatures
  import opened Evaluators
  import EvaluatorCoherence
  import EvaluatorResults
  import EvaluatorVerdicts
  import EvaluatorWidening

  /** A well-formed schema, nested at most 64 edges deep counting the references it follows, whose tree is coherent:
      each of the three evaluators of its validator decides exactly whether the instance satisfies the schema, and so
      does `validate_schema_with_draft` with such a document for a meta-schema. */
  lemma CoherentValidatorDecides(env: Env, base: Resolver, s: Json, h: nat, n: nat, i: Json)
    requires WellFormed(env, {}, base, s, h) && h <= 64 && n > h && WellKeyed(i)
    requires Compile(env, base, s).0.Ok? ==> EvaluatorCoherence.Coherent(env, Compile(env, base, s).0.value, iset{})
    ensures var r := Compile(env, base, s).0;
      && r.Ok?
      && (IsValid(env, r.value, i) <==> Eval(n, env, base, s, i))
      && (Validate(env, r.value, i).None? <==> Eval(n, env, base, s, i))
      && (IterErrors(env, r.value, i) == [] <==> Eval(n, env, base, s, i))
      && (ValidateSchema(env, r.value, i).None? <==> Eval(n, env, base, s, i))
  {
    hide WellFormed, Compile, Eval, Accepts, IsValid, Validate, IterErrors, ValidateSchema, WellKeyed,
      EvaluatorCoherence.Coherent;
    Results.CompilationPreservesMeaning(env, base, s, h, n, i);
    var r := Compile(env, base, s).0;
    EvaluatorResults.EvaluatorsAgree(env, r.value, i);
    EvaluatorResults.FallThroughUnreachable(env, r.value, i);
  }

  /** In particular every such schema without `additionalProperties`. */
  lemma ValidatorDecidesSchema(env: Env, base: Resolver, s: Json, h: nat, n: nat, i: Json)
    requires WellFormed(env, {}, base, s, h) && h <= 64 && n > h && WellKeyed(i)
    requires Avoids(env, base, s, 64, {Additional})
    ensures var r := Compile(env, base, s).0;
      && r.Ok?
      && (IsValid(env, r.value, i) <==> Eval(n, env, base, s, i))
      && (Validate(env, r.value, i).None? <==> Eval(n, env, base, s, i))
      && (IterErrors(env, r.value, i) == [] <==> Eval(n, env, base, s, i))
  {
    hide WellFormed, Avoids, Compile, Eval, Accepts, Lacks, IsValid, Validate, IterErrors, ValidateSchema, WellKeyed,
      EvaluatorCoherence.Coherent;
    CompilerFeatures.CompiledTreeLacks(env, base, s, {Additional});
    var r := Compile(env, base, s).0;
    if r.Ok? {
      EvaluatorCoherence.NoAdditionalIsCoherent(env, r.value, iset{});
    }
    CoherentValidatorDecides(env, base, s, h, n, i);
  }

  /** Whatever the reference graph, and whatever the compiler drops or cuts: an instance that satisfies a positive
      schema, unfolded 65 levels deep or deeper, passes every evaluator, whatever was marked before. */
  lemma ValidatorOnlyWidens(mode: Mode, env: Env, base: Resolver, s: Json, n: nat, i: Json, path: seq<Segment>,
        marks: set<string>)
    requires Positive(env, base, s, 64) && n >= 65 && Eval(n, env, base, s, i)
    ensures var r := Compile(env, base, s).0; r.Ok? ==> Run(mode, env, r.value, i, path, marks).errors == []
  {
    hide Eval, Avoids, Compile, Run, Lacks, Accepts;
    Results.CompilationOnlyWidens(env, base, s, n, i);
    CompilerFeatures.CompiledTreeLacks(env, base, s, NEGATIVE);
    var r := Compile(env, base, s).0;
    if r.Ok? {
      EvaluatorWidening.AcceptedRunsClean(mode, env, r.value, i, path, marks);
    }
  }

  /** Whatever the reference graph, and with or without `additionalProperties`: an instance is valid against a schema
      that uses no `patternProperties` iff it has no errors, and `validate_schema_with_draft` never falls through. */
  lemma WithoutPatternsValidIffNoErrors(env: Env, base: Resolver, s: Json, i: Json)
    requires Avoids(env, base, s, 64, {ByPattern})
    ensures var r := Compile(env, base, s).0;
      r.Ok? ==>
        && (IsValid(env, r.value, i) <==> IterErrors(env, r.value, i) == [])
        && (ValidateSchema(env, r.value, i).None? <==> IsValid(env, r.value, i))
  {
    hide Avoids, Compile, Lacks, IsValid, IterErrors, ValidateSchema;
    CompilerFeatures.CompiledTreeLacks(env, base, s, {ByPattern});
    var r := Compile(env, base, s).0;
    if r.Ok? {
      EvaluatorVerdicts.ValidIffNoErrors(env, r.value, i);
    }
  }
}
