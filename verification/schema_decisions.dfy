/** Evaluators against the meaning of raw schemas: the schema that all three misjudge, and exactly when they decide. */
module SchemaDecisions {
  import opened JsonValues
  import opened Keywords
  import opened SchemaTree
  import opened TreeFeatures
  import opened SchemaMeaning
  import opened Compiler
  import opened Evaluators
  import opened EvaluatorDecisions
  import opened EvaluatorFrontier
  import opened SchemaFamilies
  import CompilerResults
  import SchemaValidation

  lemma OpenActive(draft: Draft)
    ensures Active(draft, OPEN_SCHEMA.members, "additionalProperties") == AdditionalProperties
    ensures Active(draft, OPEN_SCHEMA.members, "type") == Leaf(Type)
    ensures Active(draft, REOPENED_SCHEMA.members, "additionalProperties") == AdditionalProperties
  {
    FamilyNames();
    assert !Has(OPEN_SCHEMA.members, "$ref");
    NotMember(REOPENED_SCHEMA.members[0], "$ref");
  }

  lemma ReopenedWellFormed(env: Env, open: set<string>, base: Resolver)
    ensures WellFormed(env, open, base, REOPENED_SCHEMA, 1)
  {
    OpenActive(env.draft);
    hide Active;
    var outer, inner := REOPENED_SCHEMA.members, OPEN_SCHEMA.members;
    assert EntryWellFormed(env, open, base, inner, AdditionalProperties, inner[0].value, 0);
    assert EntryWellFormed(env, open, base, inner, Leaf(Type), inner[1].value, 0);
    assert WellFormed(env, open, base, OPEN_SCHEMA, 0);
    assert EntryWellFormed(env, open, base, outer, AdditionalProperties, outer[0].value, 1);
  }

  lemma OpenAvoids(env: Env, base: Resolver, h: nat, ban: set<Feature>)
    requires Additional !in ban
    ensures Avoids(env, base, OPEN_SCHEMA, h, ban)
  {
    OpenActive(env.draft);
    hide Active;
    var inner := OPEN_SCHEMA.members;
    assert EntryAvoids(env, base, inner, AdditionalProperties, inner[0].value, h, ban);
    assert EntryAvoids(env, base, inner, Leaf(Type), inner[1].value, h, ban);
  }

  lemma ReopenedAvoids(env: Env, base: Resolver, h: nat, ban: set<Feature>)
    requires Additional !in ban
    ensures Avoids(env, base, REOPENED_SCHEMA, h, ban)
  {
    OpenActive(env.draft);
    hide Active;
    if h > 0 {
      OpenAvoids(env, base, h - 1, ban);
    }
    var outer := REOPENED_SCHEMA.members;
    assert EntryAvoids(env, base, outer, AdditionalProperties, outer[0].value, h, ban);
  }

  /** `{"additionalProperties": {"additionalProperties": true, "type": "object"}}` against
      `{name: {other: v}, other: w}`: all three evaluators pass whatever `w` is, but the schema asks for an object. */
  lemma ReopenedSchemaMisjudged(env: Env, base: Resolver, name: string, other: string, v: Json, w: Json, n: nat)
    requires name != other && n > 1
    ensures var r := Compile(env, base, REOPENED_SCHEMA).0;
      var i := Nested(name, other, v, w);
      && r == Ok(REOPENED)
      && IsValid(env, r.value, i) && Validate(env, r.value, i).None? && IterErrors(env, r.value, i) == []
      && (Eval(n, env, base, REOPENED_SCHEMA, i) <==> w.Obj?)
  {
    hide Run, Accepts, Eval, WellFormed, CompileNode, REOPENED;
    var i := Nested(name, other, v, w);
    ReopenedCompiles(env, base, 0, START);
    ReopenedRun(Quick, env, name, other, v, w, [], {});
    ReopenedRun(First, env, name, other, v, w, [], {});
    ReopenedRun(Every, env, name, other, v, w, [], {});
    ReopenedWellFormed(env, {}, base);
    CompilerResults.CompilationPreservesMeaning(env, base, REOPENED_SCHEMA, 1, n, i);
    ReopenedAccepts(env, name, other, v, w);
  }

  /** On every well-formed schema that uses none of the banned keywords, the evaluator of its validator passes exactly
      the instances that satisfy the schema. */
  ghost predicate DecidesSchemas(mode: Mode, env: Env, base: Resolver, ban: set<Feature>) {
    forall s, h: nat, n: nat, i |
      WellFormed(env, {}, base, s, h) && h <= 64 && n > h && Avoids(env, base, s, 64, ban) && WellKeyed(i) ::
      DecidesAt(mode, env, base, s, n, i)
  }

  ghost predicate DecidesAt(mode: Mode, env: Env, base: Resolver, s: Json, n: nat, i: Json) {
    var r := Compile(env, base, s).0;
    r.Ok? && (Run(mode, env, r.value, i, [], {}).errors == [] <==> Eval(n, env, base, s, i))
  }

  lemma WithoutAdditionalDecides(mode: Mode, env: Env, base: Resolver, ban: set<Feature>)
    requires Additional in ban
    ensures DecidesSchemas(mode, env, base, ban)
  {
    hide Run, Eval, WellFormed, Avoids, WellKeyed, Compile;
    forall s, h: nat, n: nat, i |
      WellFormed(env, {}, base, s, h) && h <= 64 && n > h && Avoids(env, base, s, 64, ban) && WellKeyed(i)
      ensures DecidesAt(mode, env, base, s, n, i)
    {
      AvoidsFewer(env, base, s, 64, {Additional}, ban);
      SchemaValidation.ValidatorDecidesSchema(env, base, s, h, n, i);
    }
  }

  lemma {:induction false} AvoidsFewer(env: Env, base: Resolver, s: Json, h: nat, few: set<Feature>, ban: set<Feature>)
    requires Avoids(env, base, s, h, ban) && few <= ban
    ensures Avoids(env, base, s, h, few)
    decreases h
  {
    if s.Obj? {
      forall k | 0 <= k < |s.members|
        ensures var kw := Active(env.draft, s.members, s.members[k].key);
          EntryAvoids(env, base, s.members, kw, s.members[k].value, h, few)
      {
        EntryAvoidsFewer(env, base, s.members, Active(env.draft, s.members, s.members[k].key), s.members[k].value, h,
            few, ban);
      }
    }
  }

  lemma {:induction false} EntryAvoidsFewer(env: Env, base: Resolver, schema: seq<Member>, kw: Keyword, arg: Json,
        h: nat, few: set<Feature>, ban: set<Feature>)
    requires EntryAvoids(env, base, schema, kw, arg, h, ban) && few <= ban
    ensures EntryAvoids(env, base, schema, kw, arg, h, few)
    decreases h, 0
  {
    if h > 0 {
      var subs := Subschemas(env.draft, schema, kw, arg);
      forall x | 0 <= x < |subs| ensures Avoids(env, base, subs[x], h - 1, few) {
        AvoidsFewer(env, base, subs[x], h - 1, few, ban);
      }
      var target := Referred(env, base, kw, arg);
      if target.Some? {
        AvoidsFewer(env, target.value.base, target.value.schema, h - 1, few, ban);
      }
    }
  }

  /** An evaluator decides every well-formed schema without some kinds of keyword iff `additionalProperties` is among
      them. */
  lemma DecidesSchemasIff(mode: Mode, env: Env, base: Resolver, ban: set<Feature>)
    ensures DecidesSchemas(mode, env, base, ban) <==> Additional in ban
  {
    hide Run, Eval, WellFormed, Avoids, WellKeyed, Compile, IsValid, Validate, IterErrors, REOPENED, REOPENED_SCHEMA;
    if Additional in ban {
      WithoutAdditionalDecides(mode, env, base, ban);
    } else {
      ReopenedWellFormed(env, {}, base);
      ReopenedAvoids(env, base, 64, ban);
      NotDecided(mode, env, base);
      assert !DecidesAt(mode, env, base, REOPENED_SCHEMA, 65, MISJUDGED);
    }
  }

  lemma NotDecided(mode: Mode, env: Env, base: Resolver)
    ensures !DecidesAt(mode, env, base, REOPENED_SCHEMA, 65, MISJUDGED) && WellKeyed(MISJUDGED)
  {
    hide Run, Eval, Compile, REOPENED, REOPENED_SCHEMA;
    ReopenedSchemaMisjudged(env, base, "a", "b", Null, Null, 65);
    Misjudged(mode, env, []);
  }
}
