/** The raw schemas behind the trees on which the evaluators part ways: each compiles, in every draft, to the tree the
    results are stated of. */
module SchemaFamilies {
  import opened JsonValues
  import opened Keywords
  import opened SchemaTree
  import opened TreeFeatures
  import opened SchemaMeaning
  import opened Compiler
  import opened Paths
  import opened Evaluators
  import opened EvaluatorResults
  import opened EvaluatorFrontier

  const CLOSED_SCHEMA: Json := Sole("additionalProperties", Bool(false))

  const OPEN_SCHEMA: Json := Obj([Member("additionalProperties", Bool(true)), Member("type", Str("object"))])

  const REOPENED_SCHEMA: Json := Sole("additionalProperties", OPEN_SCHEMA)

  // ----- compiling them -----

  lemma FamilyNames()
    ensures Parse("properties") == Properties && Parse("patternProperties") == PatternProperties
    ensures Parse("additionalProperties") == AdditionalProperties && Parse("not") == Not
    ensures Parse("type") == Leaf(Type) && Parse("$ref") == Reference(Static)
  {
  }

  lemma NotMember(m: Member, key: string)
    requires m.key != key
    ensures !Has([m], key)
  {
  }

  /** The only entry of a schema object. */
  lemma SoleCompiles(env: Env, base: Resolver, key: string, arg: Json, depth: nat, st: State)
    requires depth <= MAX_DEPTH && InVocabulary(env.draft, Parse(key))
    ensures var (v, st1) := CompileKeyword(env, base, [Member(key, arg)], Parse(key), arg, depth, st);
      CompileNode(env, base, Sole(key, arg), depth, st) == (Ok(Validators(if v.Some? then [v.value] else [])), st1)
  {
    hide CompileKeyword, Has, InVocabulary, Parse;
    var schema := [Member(key, arg)];
    if key != "$ref" {
      NotMember(schema[0], "$ref");
    }
    assert Active(env.draft, schema, key) == Parse(key);
    var (v, st1) := CompileKeyword(env, base, schema, Parse(key), arg, depth, st);
    assert CompileEntries(env, base, schema, 1, depth, st1) == ([], st1);
    var empty: seq<Validator> := [];
    assert v.Some? ==> [v.value] + empty == [v.value];
    assert CompileEntries(env, base, schema, 0, depth, st) == (if v.Some? then [v.value] else [], st1);
  }

  lemma ListOfOne(env: Env, base: Resolver, sub: Json, t: Node, depth: nat, st: State)
    requires CompileNode(env, base, sub, depth, st) == (Ok(t), st)
    ensures CompileAll(env, base, [sub], depth, st) == (Some([t]), st)
  {
    hide CompileNode;
    var empty: seq<Node> := [];
    assert [sub][1..] == [] && [t] + empty == [t];
    assert CompileAll(env, base, [], depth, st) == (Some(empty), st);
  }

  /** `{"properties": {p: sub}}` */
  lemma OnePropertyCompiles(env: Env, base: Resolver, p: string, sub: Json, t: Node, depth: nat, st: State)
    requires depth <= MAX_DEPTH && CompileNode(env, base, sub, depth + 2, st) == (Ok(t), st)
    ensures CompileNode(env, base, Sole("properties", Sole(p, sub)), depth, st) == (Ok(OneProperty(p, t)), st)
  {
    FamilyNames();
    hide CompileNode, CompileAll, Parse;
    SoleCompiles(env, base, "properties", Sole(p, sub), depth, st);
    ListOfOne(env, base, sub, t, depth + 2, st);
    var members := [Member(p, sub)];
    assert Values(members) == [sub];
    assert CompileProperties(env, base, Sole(p, sub), depth + 2, st) == (Some(PropertiesV(Name(members, [t]))), st);
    assert Name(members, [t]) == [Named(p, t)];
  }

  /** `{"patternProperties": {p: sub}}` */
  lemma OnePatternCompiles(env: Env, base: Resolver, p: string, sub: Json, t: Node, depth: nat, st: State)
    requires depth <= MAX_DEPTH && CompileNode(env, base, sub, depth + 2, st) == (Ok(t), st) && env.regexOk(p)
    ensures CompileNode(env, base, Sole("patternProperties", Sole(p, sub)), depth, st) == (Ok(OnePattern(p, t)), st)
  {
    FamilyNames();
    hide CompileNode, CompilePatterns, Parse;
    SoleCompiles(env, base, "patternProperties", Sole(p, sub), depth, st);
    var members := [Member(p, sub)];
    PatternsOfOne(env, base, p, sub, t, depth + 2, st);
    assert CompilePatternProperties(env, base, Sole(p, sub), depth + 2, st)
      == (Some(PatternPropertiesV(Name(members, [t]))), st);
    assert Name(members, [t]) == [Named(p, t)];
  }

  lemma PatternsOfOne(env: Env, base: Resolver, p: string, sub: Json, t: Node, depth: nat, st: State)
    requires CompileNode(env, base, sub, depth, st) == (Ok(t), st) && env.regexOk(p)
    ensures CompilePatterns(env, base, [Member(p, sub)], depth, st) == (Some([t]), st)
  {
    hide CompileNode;
    assert CompileOne(env, base, sub, depth, st) == (Some(t), st);
    var empty: seq<Node> := [];
    assert [Member(p, sub)][1..] == [] && [t] + empty == [t];
    assert CompilePatterns(env, base, [], depth, st) == (Some(empty), st);
  }

  /** `{"not": sub}` */
  lemma OneNotCompiles(env: Env, base: Resolver, sub: Json, t: Node, depth: nat, st: State)
    requires depth <= MAX_DEPTH && CompileNode(env, base, sub, depth + 2, st) == (Ok(t), st)
    ensures CompileNode(env, base, Sole("not", sub), depth, st) == (Ok(Validators([NotV(t)])), st)
  {
    FamilyNames();
    hide CompileNode, Parse;
    SoleCompiles(env, base, "not", sub, depth, st);
    assert CompileNot(env, base, sub, depth + 2, st) == (Some(NotV(t)), st);
  }

  /** `additionalProperties` beside neither `properties` nor `patternProperties`. */
  predicate Alone(schema: seq<Member>) {
    !Has(schema, "properties") && !Has(schema, "patternProperties")
  }

  lemma AloneCompiles(env: Env, base: Resolver, schema: seq<Member>, arg: Json, t: Node, depth: nat, st: State)
    requires depth <= MAX_DEPTH && Alone(schema)
    requires arg.Obj? ==> CompileNode(env, base, arg, depth + 2, st) == (Ok(t), st)
    ensures var v := CompileKeyword(env, base, schema, AdditionalProperties, arg, depth, st);
      && (arg == Bool(false) ==> v == (Some(AdditionalPropertiesV(Some(RejectExtra), {}, [])), st))
      && (arg == Bool(true) ==> v == (Some(AdditionalPropertiesV(Some(ExtraSchema(AlwaysValid)), {}, [])), st))
      && (arg.Obj? ==> v == (Some(AdditionalPropertiesV(Some(ExtraSchema(t)), {}, [])), st))
  {
    hide CompileNode, Get;
    assert Keys([]) == {};
    assert arg.Obj? ==> CompileOne(env, base, arg, depth + 2, st) == (Some(t), st);
    assert CompileKeyword(env, base, schema, AdditionalProperties, arg, depth, st)
      == CompileAdditionalProperties(env, base, schema, arg, depth + 2, st);
  }

  lemma SoleIsAlone(arg: Json)
    ensures Alone([Member("additionalProperties", arg)])
  {
    var m := Member("additionalProperties", arg);
    NotMember(m, "properties");
    NotMember(m, "patternProperties");
  }

  lemma ClosedCompiles(env: Env, base: Resolver, depth: nat, st: State)
    requires depth <= MAX_DEPTH
    ensures CompileNode(env, base, CLOSED_SCHEMA, depth, st) == (Ok(CLOSED), st)
  {
    FamilyNames();
    hide CompileNode, CompileKeyword, Parse;
    SoleCompiles(env, base, "additionalProperties", Bool(false), depth, st);
    SoleIsAlone(Bool(false));
    AloneCompiles(env, base, [Member("additionalProperties", Bool(false))], Bool(false), CLOSED, depth, st);
  }

  lemma OpenCompiles(env: Env, base: Resolver, depth: nat, st: State)
    requires depth <= MAX_DEPTH
    ensures CompileNode(env, base, OPEN_SCHEMA, depth, st) == (Ok(OPEN), st)
  {
    FamilyNames();
    OpenIsAlone();
    var schema := OPEN_SCHEMA.members;
    hide CompileNode, CompileKeyword, CompileEntries, Parse, Has, Alone;
    AloneCompiles(env, base, schema, Bool(true), OPEN, depth, st);
    TypeObjectCompiles(env, base, schema, depth, st);
    PairCompiles(env, base, schema, OPEN.validators[0], OPEN.validators[1], depth, st);
  }

  lemma OpenIsAlone()
    ensures Alone(OPEN_SCHEMA.members) && !Has(OPEN_SCHEMA.members, "$ref")
  {
  }

  /** Two entries that both compile. */
  lemma PairCompiles(env: Env, base: Resolver, schema: seq<Member>, v: Validator, w: Validator, depth: nat, st: State)
    requires depth <= MAX_DEPTH && |schema| == 2
    requires var (first, st1) :=
        CompileKeyword(env, base, schema, Active(env.draft, schema, schema[0].key), schema[0].value, depth, st);
      var (second, st2) :=
        CompileKeyword(env, base, schema, Active(env.draft, schema, schema[1].key), schema[1].value, depth, st1);
      first == Some(v) && second == Some(w)
    ensures var st1 :=
        CompileKeyword(env, base, schema, Active(env.draft, schema, schema[0].key), schema[0].value, depth, st).1;
      var st2 :=
        CompileKeyword(env, base, schema, Active(env.draft, schema, schema[1].key), schema[1].value, depth, st1).1;
      CompileNode(env, base, Obj(schema), depth, st) == (Ok(Validators([v, w])), st2)
  {
    hide CompileKeyword, Active;
    var first, second := Active(env.draft, schema, schema[0].key), Active(env.draft, schema, schema[1].key);
    var st1 := CompileKeyword(env, base, schema, first, schema[0].value, depth, st).1;
    var st2 := CompileKeyword(env, base, schema, second, schema[1].value, depth, st1).1;
    assert CompileEntries(env, base, schema, 2, depth, st2) == ([], st2);
    var empty: seq<Validator> := [];
    assert [w] + empty == [w] && [v] + [w] == [v, w];
    assert CompileEntries(env, base, schema, 1, depth, st1) == ([w], st2);
  }

  lemma TypeObjectCompiles(env: Env, base: Resolver, schema: seq<Member>, depth: nat, st: State)
    requires depth <= MAX_DEPTH
    ensures CompileKeyword(env, base, schema, Leaf(Type), Str("object"), depth, st)
      == (Some(Assertion(TypeIn({ObjectType}))), st)
  {
    assert TypesNamed([]) == {};
    assert ParseTypeName("object") == {ObjectType};
    assert TypesNamed([Str("object")]) == {ObjectType};
  }

  lemma ReopenedCompiles(env: Env, base: Resolver, depth: nat, st: State)
    requires depth + 2 <= MAX_DEPTH
    ensures CompileNode(env, base, REOPENED_SCHEMA, depth, st) == (Ok(REOPENED), st)
  {
    FamilyNames();
    hide CompileNode, CompileKeyword, Parse;
    SoleCompiles(env, base, "additionalProperties", OPEN_SCHEMA, depth, st);
    SoleIsAlone(OPEN_SCHEMA);
    OpenCompiles(env, base, depth + 2, st);
    AloneCompiles(env, base, [Member("additionalProperties", OPEN_SCHEMA)], OPEN_SCHEMA, OPEN, depth, st);
  }

  // ----- the evaluators part ways on what they compile to -----

  /** `{"properties": {p: {"additionalProperties": false}}}` */
  lemma ClosedPropertySchema(env: Env, base: Resolver, p: string, members: seq<Member>)
    ensures var (r, i) := (Compile(env, base, Sole("properties", Sole(p, CLOSED_SCHEMA))).0,
          Obj([Member(p, Obj(members))]));
      && r == Ok(OneProperty(p, CLOSED))
      && (IsValid(env, r.value, i) <==> members == [])
      && (IterErrors(env, r.value, i) == [] <==> members == [])
      && (Validate(env, r.value, i).None? <==> Keys(members) <= {p})
  {
    hide CompileNode, IsValid, IterErrors, Validate;
    ClosedCompiles(env, base, 2, START);
    OnePropertyCompiles(env, base, p, CLOSED_SCHEMA, CLOSED, 0, START);
    ClosedPropertyDisagrees(env, p, members);
  }

  /** `{"patternProperties": {p: {"additionalProperties": false}}}` */
  lemma ClosedPatternSchema(env: Env, base: Resolver, p: string, name: string, members: seq<Member>)
    requires env.Matches(p, name)
    ensures var (r, i) := (Compile(env, base, Sole("patternProperties", Sole(p, CLOSED_SCHEMA))).0,
          Obj([Member(name, Obj(members))]));
      && r == Ok(OnePattern(p, CLOSED))
      && (IsValid(env, r.value, i) <==> Keys(members) <= {name})
      && (Validate(env, r.value, i).None? <==> Keys(members) <= {name})
      && (IterErrors(env, r.value, i) == [] <==> members == [])
  {
    hide CompileNode, IsValid, IterErrors, Validate;
    ClosedCompiles(env, base, 2, START);
    OnePatternCompiles(env, base, p, CLOSED_SCHEMA, CLOSED, 0, START);
    ClosedPatternDisagrees(env, p, name, members);
  }

  /** `{"patternProperties": {p: {"not": {"additionalProperties": false}}}}`: invalid, and yet without errors, iff the
      inner object has the marked name as its only member. */
  lemma NotClosedSchema(env: Env, base: Resolver, p: string, name: string, members: seq<Member>)
    requires env.Matches(p, name)
    ensures var (r, i) := (Compile(env, base, Sole("patternProperties", Sole(p, Sole("not", CLOSED_SCHEMA)))).0,
          Obj([Member(name, Obj(members))]));
      && r == Ok(OnePattern(p, Validators([NotV(CLOSED)])))
      && (!IsValid(env, r.value, i) && IterErrors(env, r.value, i) == [] <==> Keys(members) == {name})
  {
    hide CompileNode, IsValid, IterErrors;
    ClosedCompiles(env, base, 4, START);
    OneNotCompiles(env, base, CLOSED_SCHEMA, CLOSED, 2, START);
    OnePatternCompiles(env, base, p, Sole("not", CLOSED_SCHEMA), Validators([NotV(CLOSED)]), 0, START);
    InvalidWithoutErrors(env, p, name, members);
  }

  /** `{"patternProperties": {p: {"additionalProperties": {"additionalProperties": true, "type": "object"}}}}` against
      `{name: {name: {other: v}, other: w}}`: never an error, but valid iff `w` is an object. */
  lemma ReopenedPatternSchema(env: Env, base: Resolver, p: string, name: string, other: string, v: Json, w: Json)
    requires env.Matches(p, name) && name != other
    ensures var (r, i) := (Compile(env, base, Sole("patternProperties", Sole(p, REOPENED_SCHEMA))).0,
          Obj([Member(name, Nested(name, other, v, w))]));
      && r == Ok(OnePattern(p, REOPENED))
      && IterErrors(env, r.value, i) == []
      && (IsValid(env, r.value, i) <==> w.Obj?)
  {
    hide CompileNode, IsValid, IterErrors, Validate, Lacks;
    ReopenedCompiles(env, base, 2, START);
    OnePatternCompiles(env, base, p, REOPENED_SCHEMA, REOPENED, 0, START);
    PositivelyInvalidWithoutErrors(env, p, name, other, v, w);
  }

  /** `{"properties": {name: {"additionalProperties": {"additionalProperties": true, "type": "object"}}}}` against the
      same instance: always valid, but `validate` refuses it unless `w` is an object. */
  lemma ReopenedPropertySchema(env: Env, base: Resolver, name: string, other: string, v: Json, w: Json)
    requires name != other
    ensures var (r, i) := (Compile(env, base, Sole("properties", Sole(name, REOPENED_SCHEMA))).0,
          Obj([Member(name, Nested(name, other, v, w))]));
      && r == Ok(OneProperty(name, REOPENED))
      && IsValid(env, r.value, i) && IterErrors(env, r.value, i) == []
      && (Validate(env, r.value, i).None? <==> w.Obj?)
  {
    hide CompileNode, IsValid, IterErrors, Validate;
    ReopenedCompiles(env, base, 2, START);
    OnePropertyCompiles(env, base, name, REOPENED_SCHEMA, REOPENED, 0, START);
    ValidButRefused(env, name, other, v, w);
  }

  /** `{"anyOf": [false]}`: `validate` reports the alternative's error, `iter_errors` the `anyOf`. */
  lemma NoAlternativeSchema(env: Env, base: Resolver, i: Json)
    ensures var r := Compile(env, base, Sole("anyOf", Arr([Bool(false)]))).0;
      && r == Ok(NO_ALTERNATIVE)
      && Validate(env, r.value, i) == Some(Error(FalseSchema, None))
      && IterErrors(env, r.value, i) == [Error(NoAlternative, Some([]))]
  {
    assert Parse("anyOf") == Combine(AnyOf);
    ListOfOne(env, base, Bool(false), AlwaysInvalid, 2, START);
    hide CompileAll, Parse;
    SoleCompiles(env, base, "anyOf", Arr([Bool(false)]), 0, START);
    assert CompileCombination(env, base, AnyOf, Arr([Bool(false)]), 2, START) == (Some(AnyOfV([AlwaysInvalid])), START);
    NoAlternativeRun(env, i);
  }

  lemma NoAlternativeRun(env: Env, i: Json)
    ensures Run(First, env, NO_ALTERNATIVE, i, [], {}).errors == [Error(FalseSchema, None)]
    ensures Run(Every, env, NO_ALTERNATIVE, i, [], {}).errors == [Error(NoAlternative, Some([]))]
  {
    var v, ts := NO_ALTERNATIVE.validators[0], [AlwaysInvalid];
    forall mode ensures TryAll(mode, env, ts, 0, i, [], {}) == Attempts(false, [Error(FalseSchema, None)], {}) {
      assert TryAll(mode, env, ts, 1, i, [], {}) == Attempts(false, [], {});
    }
    SoleValidator(First, env, v, i, [], {});
    SoleValidator(Every, env, v, i, [], {});
  }

  // ----- a reference cut although nothing is cyclic -----

  /** `{"$ref": r}` */
  function RefTo(r: string): Json {
    Sole("$ref", Str(r))
  }

  /** A schema object with one entry means what the entry says. */
  lemma SoleMeans(n: nat, env: Env, base: Resolver, key: string, arg: Json, i: Json)
    requires n > 0
    ensures var schema := [Member(key, arg)];
      Eval(n, env, base, Sole(key, arg), i) <==> Holds(n, env, base, schema, Active(env.draft, schema, key), arg, i)
  {
    hide Active, Holds;
    var schema := [Member(key, arg)];
    assert schema[0].key == key && schema[0].value == arg;
  }

  lemma RefToMeans(n: nat, env: Env, base: Resolver, r: string, i: Json)
    requires n > 0
    ensures Eval(n, env, base, RefTo(r), i) <==> EvalTarget(n - 1, env, env.lookup(Static, base, r), i)
  {
    FamilyNames();
    hide Parse, EvalTarget, Eval;
    SoleMeans(n, env, base, "$ref", Str(r), i);
    assert Active(env.draft, RefTo(r).members, "$ref") == Reference(Static);
  }

  lemma TargetMeans(n: nat, env: Env, target: Target, i: Json)
    ensures EvalTarget(n, env, Some(target), i) <==> Eval(n, env, target.base, target.schema, i)
  {
  }

  /** The set of references in progress holds keys, not schemas, and a reference that is not a bare fragment is its own
      key. So where `r` leads to a schema that says `{"$ref": r}` again under another base URI, the second reference is
      cut although it leads on to another schema: the tree accepts everything, the schema what that other one does. */
  lemma RepeatedKeyIsCut(env: Env, base: Resolver, r: string, mid: Resolver, target: Target, n: nat, i: Json)
    requires env.lookup(Static, base, r) == Some(Target(RefTo(r), mid)) && env.lookup(Static, mid, r) == Some(target)
    requires (r == "" || r[0] != '#' || mid.uri == target.base.uri) && n >= 2
    ensures var t := Compile(env, base, RefTo(r)).0;
      && t.Ok? && Accepts(env, t.value, i)
      && (Eval(n, env, base, RefTo(r), i) <==> Eval(n - 2, env, target.base, target.schema, i))
  {
    hide Eval, EvalTarget, Accepts, CompileNode, CompileRef;
    RefToMeans(n, env, base, r, i);
    TargetMeans(n - 1, env, Target(RefTo(r), mid), i);
    RefToMeans(n - 1, env, mid, r, i);
    TargetMeans(n - 2, env, target, i);
    RepeatedKeyCompiles(env, base, r, mid, target, i);
  }

  lemma RepeatedKeyCompiles(env: Env, base: Resolver, r: string, mid: Resolver, target: Target, i: Json)
    requires env.lookup(Static, base, r) == Some(Target(RefTo(r), mid)) && env.lookup(Static, mid, r) == Some(target)
    requires CycleKey(mid, r) == CycleKey(target.base, r)
    ensures var t := Compile(env, base, RefTo(r)).0; t.Ok? && Accepts(env, t.value, i)
  {
    hide Accepts, CompileNode, CompileRef, CycleKey;
    var inner := Validators([RefV(AlwaysValid)]);
    var marked := START.Mark(CycleKey(mid, r));
    RefCompilesTo(env, mid, r, 2, marked);
    ReferenceCut(env, mid, r, target, 4, marked);
    assert CompileNode(env, mid, RefTo(r), 2, marked) == (Ok(inner), marked.Cut());
    RefCompilesTo(env, base, r, 0, START);
    ReferenceFollowed(env, base, r, Target(RefTo(r), mid), inner, 2, START);
    NothingRefused(env, i);
  }

  lemma ReferenceCut(env: Env, base: Resolver, r: string, target: Target, depth: nat, st: State)
    requires env.lookup(Static, base, r) == Some(target) && CycleKey(target.base, r) in st.keys
    ensures CompileRef(env, base, Static, Str(r), depth, st) == (Some(RefV(AlwaysValid)), st.Cut())
  {
  }

  lemma ReferenceFollowed(env: Env, base: Resolver, r: string, target: Target, t: Node, depth: nat, st: State)
    requires env.lookup(Static, base, r) == Some(target) && CycleKey(target.base, r) !in st.keys
    requires CompileNode(env, target.base, target.schema, depth, st.Mark(CycleKey(target.base, r))).0 == Ok(t)
    ensures CompileRef(env, base, Static, Str(r), depth, st).0 == Some(RefV(t))
  {
    hide CompileNode;
  }

  lemma NothingRefused(env: Env, i: Json)
    ensures Accepts(env, Validators([RefV(Validators([RefV(AlwaysValid)]))]), i)
  {
    assert Accepts(env, AlwaysValid, i);
    assert Satisfies(env, RefV(AlwaysValid), i);
    assert Accepts(env, Validators([RefV(AlwaysValid)]), i);
    assert Satisfies(env, RefV(Validators([RefV(AlwaysValid)])), i);
  }

  lemma RefCompilesTo(env: Env, base: Resolver, r: string, depth: nat, st: State)
    requires depth <= MAX_DEPTH
    ensures var (v, st1) := CompileRef(env, base, Static, Str(r), depth + 2, st);
      CompileNode(env, base, RefTo(r), depth, st) == (Ok(Validators(if v.Some? then [v.value] else [])), st1)
  {
    FamilyNames();
    hide Parse, CompileNode, CompileRef;
    SoleCompiles(env, base, "$ref", Str(r), depth, st);
  }
}
