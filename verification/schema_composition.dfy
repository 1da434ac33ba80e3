/** The keywords with subschemas, by their literal names: what the compiled tree of a schema object accepts, said in
    terms of what the compiled trees of its subschemas accept. */
module SchemaComposition {
  import opened JsonValues
  import opened Keywords
  import opened SchemaTree
  import opened SchemaMeaning
  import opened Compiler
  import opened SchemaFamilies
  import opened CompilerResults

  /** The schema compiles to a tree that accepts the instance. */
  predicate AcceptedBy(env: Env, base: Resolver, s: Json, i: Json) {
    var r := Compile(env, base, s).0;
    r.Ok? && Accepts(env, r.value, i)
  }

  /** Nothing is dropped or cut, and there is room for one more edge. */
  predicate IsPart(env: Env, base: Resolver, s: Json) {
    WellFormed(env, {}, base, s, 63)
  }

  predicate AreParts(env: Env, base: Resolver, subs: seq<Json>) {
    forall x :: 0 <= x < |subs| ==> IsPart(env, base, subs[x])
  }

  // ----- from what the compiler promises to single entries -----

  lemma PartMeans(env: Env, base: Resolver, s: Json, i: Json)
    requires IsPart(env, base, s)
    ensures AcceptedBy(env, base, s, i) <==> Eval(64, env, base, s, i)
  {
    hide Compile, Eval, WellFormed;
    CompilationPreservesMeaning(env, base, s, 63, 64, i);
  }

  lemma WholeMeans(env: Env, base: Resolver, schema: seq<Member>, i: Json)
    requires forall k :: 0 <= k < |schema| ==>
      EntryWellFormed(env, {}, base, schema, Active(env.draft, schema, schema[k].key), schema[k].value, 64)
    ensures AcceptedBy(env, base, Obj(schema), i) <==>
      forall k :: 0 <= k < |schema| ==>
        Holds(65, env, base, schema, Active(env.draft, schema, schema[k].key), schema[k].value, i)
  {
    hide Compile, Active, EntryWellFormed, Holds;
    CompilationPreservesMeaning(env, base, Obj(schema), 64, 65, i);
  }

  lemma SoleMeansHere(env: Env, base: Resolver, key: string, arg: Json, i: Json)
    requires InVocabulary(env.draft, Parse(key))
    requires EntryWellFormed(env, {}, base, [Member(key, arg)], Parse(key), arg, 64)
    ensures AcceptedBy(env, base, Sole(key, arg), i) <==>
      Holds(65, env, base, [Member(key, arg)], Parse(key), arg, i)
  {
    hide AcceptedBy, EntryWellFormed, Holds, Parse, InVocabulary, Has;
    var schema := [Member(key, arg)];
    if key != "$ref" {
      NotMember(schema[0], "$ref");
    }
    assert Active(env.draft, schema, key) == Parse(key);
    WholeMeans(env, base, schema, i);
    assert schema[0] == Member(key, arg);
  }

  /** An entry whose subschemas are parts, and that is of a shape that is kept. */
  lemma EntryFits(env: Env, base: Resolver, schema: seq<Member>, kw: Keyword, arg: Json)
    requires !kw.Reference? && ShapeOk(env, base, schema, kw, arg)
    requires AreParts(env, base, Subschemas(env.draft, schema, kw, arg))
    ensures EntryWellFormed(env, {}, base, schema, kw, arg, 64)
  {
    hide ShapeOk, Subschemas, WellFormed;
    var subs := Subschemas(env.draft, schema, kw, arg);
    forall x | 0 <= x < |subs| ensures WellFormed(env, {}, base, subs[x], 63) {
      assert IsPart(env, base, subs[x]);
    }
  }

  lemma CombinationNames()
    ensures Parse("allOf") == Combine(AllOf) && Parse("anyOf") == Combine(AnyOf) && Parse("oneOf") == Combine(OneOf)
    ensures Parse("not") == Not
  {
  }

  lemma Pick<T>(a: set<T>) returns (x: T)
    requires a != {}
    ensures x in a
  {
    x :| x in a;
  }

  // ----- combinations -----

  lemma CombinationMeans(env: Env, base: Resolver, key: string, how: Combination, subs: seq<Json>, i: Json)
    requires Parse(key) == Combine(how) && AreParts(env, base, subs)
    ensures var satisfied := MatchingSchemas(64, env, base, subs, i);
      && (AcceptedBy(env, base, Sole(key, Arr(subs)), i) <==>
          match how {
            case AllOf => forall x :: 0 <= x < |subs| ==> x in satisfied
            case AnyOf => satisfied != {}
            case OneOf => |satisfied| == 1
          })
      && (forall x :: 0 <= x < |subs| ==> (x in satisfied <==> AcceptedBy(env, base, subs[x], i)))
      && (forall x :: x in satisfied ==> 0 <= x < |subs|)
  {
    hide AcceptedBy, Eval, IsPart, Parse;
    forall x | 0 <= x < |subs| ensures AcceptedBy(env, base, subs[x], i) <==> Eval(64, env, base, subs[x], i) {
      PartMeans(env, base, subs[x], i);
    }
    EntryFits(env, base, [Member(key, Arr(subs))], Combine(how), Arr(subs));
    SoleMeansHere(env, base, key, Arr(subs), i);
  }

  /** `allOf`, `anyOf` and `oneOf`. */
  lemma CombinationKeywords(env: Env, base: Resolver, subs: seq<Json>, i: Json)
    requires AreParts(env, base, subs)
    ensures AcceptedBy(env, base, Sole("allOf", Arr(subs)), i) <==>
      forall x :: 0 <= x < |subs| ==> AcceptedBy(env, base, subs[x], i)
    ensures AcceptedBy(env, base, Sole("anyOf", Arr(subs)), i) <==>
      exists x :: 0 <= x < |subs| && AcceptedBy(env, base, subs[x], i)
    ensures AcceptedBy(env, base, Sole("oneOf", Arr(subs)), i) <==>
      exists x :: 0 <= x < |subs| && OnlyAccepted(env, base, subs, x, i)
  {
    hide AcceptedBy, AreParts, Parse, MatchingSchemas;
    CombinationNames();
    CombinationMeans(env, base, "allOf", AllOf, subs, i);
    CombinationMeans(env, base, "anyOf", AnyOf, subs, i);
    CombinationMeans(env, base, "oneOf", OneOf, subs, i);
    var satisfied := MatchingSchemas(64, env, base, subs, i);
    if satisfied != {} {
      var x := Pick(satisfied);
      assert AcceptedBy(env, base, subs[x], i);
      OnlyOne(satisfied, x);
    }
    forall x | 0 <= x < |subs| && OnlyAccepted(env, base, subs, x, i) ensures |satisfied| == 1 {
      assert x in satisfied;
      forall y | y in satisfied ensures y == x {
        assert AcceptedBy(env, base, subs[y], i);
      }
      OnlyOne(satisfied, x);
    }
    if |satisfied| == 1 {
      var x := Pick(satisfied);
      OnlyOne(satisfied, x);
      assert OnlyAccepted(env, base, subs, x, i);
    }
  }

  lemma OnlyOne<T>(a: set<T>, x: T)
    requires x in a
    ensures |a| == 1 <==> forall y :: y in a ==> y == x
  {
    var rest := a - {x};
    assert a == rest + {x};
    if rest != {} {
      var y := Pick(rest);
      assert |rest| > 0;
    }
  }

  /** Of the listed schemas this one accepts the instance and no other does. */
  predicate OnlyAccepted(env: Env, base: Resolver, subs: seq<Json>, x: nat, i: Json)
    requires x < |subs|
  {
    AcceptedBy(env, base, subs[x], i) &&
    forall y :: 0 <= y < |subs| && y != x ==> !AcceptedBy(env, base, subs[y], i)
  }

  lemma NotKeyword(env: Env, base: Resolver, sub: Json, i: Json)
    requires IsPart(env, base, sub)
    ensures AcceptedBy(env, base, Sole("not", sub), i) <==> !AcceptedBy(env, base, sub, i)
  {
    hide AcceptedBy, Eval, IsPart, Parse;
    CombinationNames();
    PartIsSchema(env, base, sub);
    PartMeans(env, base, sub, i);
    EntryFits(env, base, [Member("not", sub)], Not, sub);
    SoleMeansHere(env, base, "not", sub, i);
  }

  lemma PartIsSchema(env: Env, base: Resolver, sub: Json)
    requires IsPart(env, base, sub)
    ensures IsSchema(sub)
  {
  }

  /** `if`, `then` and `else`, from draft 7 on; without `if` the other two ask nothing. */
  lemma ConditionalKeywords(env: Env, base: Resolver, no: Json, cond: Json, yes: Json, i: Json)
    requires env.draft in {Draft7, Draft201909, Draft202012}
    requires IsPart(env, base, no) && IsPart(env, base, cond) && IsPart(env, base, yes)
    ensures AcceptedBy(env, base, Obj([Member("else", no), Member("if", cond), Member("then", yes)]), i) <==>
      AcceptedBy(env, base, if AcceptedBy(env, base, cond, i) then yes else no, i)
    ensures AcceptedBy(env, base, Obj([Member("else", no), Member("then", yes)]), i)
  {
    hide AcceptedBy, Eval, IsPart, Parse, Get, Holds, EntryWellFormed, InVocabulary;
    var schema := [Member("else", no), Member("if", cond), Member("then", yes)];
    var branches := [Member("else", no), Member("then", yes)];
    BranchNames(schema, branches);
    BranchesKnown(env.draft);
    PartMeans(env, base, no, i);
    PartMeans(env, base, cond, i);
    PartMeans(env, base, yes, i);
    ConditionalFits(env, base, schema, cond, yes, no);
    ConditionalHolds(env, base, schema, cond, yes, no, i);
    WholeMeans(env, base, schema, i);
    NoConditionFits(env, base, branches, i);
    WholeMeans(env, base, branches, i);
  }

  lemma BranchesKnown(draft: Draft)
    requires draft in {Draft7, Draft201909, Draft202012}
    ensures InVocabulary(draft, If) && InVocabulary(draft, Branch)
  {
  }

  lemma ConditionalFits(env: Env, base: Resolver, schema: seq<Member>, cond: Json, yes: Json, no: Json)
    requires Get(schema, "if") == Some(cond) && Get(schema, "then") == Some(yes) && Get(schema, "else") == Some(no)
    requires IsPart(env, base, no) && IsPart(env, base, cond) && IsPart(env, base, yes)
    ensures EntryWellFormed(env, {}, base, schema, If, cond, 64)
    ensures EntryWellFormed(env, {}, base, schema, Branch, yes, 64)
    ensures EntryWellFormed(env, {}, base, schema, Branch, no, 64)
  {
    hide IsPart, Get, EntryWellFormed;
    assert ConditionalSubschemas(schema) == [cond, yes, no];
    EntryFits(env, base, schema, Branch, no);
    EntryFits(env, base, schema, If, cond);
    EntryFits(env, base, schema, Branch, yes);
  }

  lemma NoConditionFits(env: Env, base: Resolver, schema: seq<Member>, i: Json)
    requires Get(schema, "if") == None
    ensures forall arg :: EntryWellFormed(env, {}, base, schema, Branch, arg, 64)
    ensures forall arg :: Holds(65, env, base, schema, Branch, arg, i)
  {
    hide Get;
  }

  lemma BranchNames(schema: seq<Member>, branches: seq<Member>)
    requires |schema| == 3 && schema[0].key == "else" && schema[1].key == "if" && schema[2].key == "then"
    requires |branches| == 2 && branches[0].key == "else" && branches[1].key == "then"
    ensures Parse("if") == If && Parse("then") == Branch && Parse("else") == Branch
    ensures Get(schema, "$ref") == None && Get(branches, "$ref") == None && Get(branches, "if") == None
    ensures Get(schema, "if") == Some(schema[1].value) && Get(schema, "then") == Some(schema[2].value)
    ensures Get(schema, "else") == Some(schema[0].value)
  {
  }

  lemma ConditionalHolds(env: Env, base: Resolver, schema: seq<Member>, cond: Json, yes: Json, no: Json, i: Json)
    requires Get(schema, "then") == Some(yes) && Get(schema, "else") == Some(no)
    ensures Holds(65, env, base, schema, If, cond, i) <==>
      if Eval(64, env, base, cond, i) then Eval(64, env, base, yes, i) else Eval(64, env, base, no, i)
    ensures Holds(65, env, base, schema, Branch, yes, i) && Holds(65, env, base, schema, Branch, no, i)
  {
    hide Eval, Get;
  }

  // ----- objects -----

  lemma ObjectNames()
    ensures Parse("properties") == Properties && Parse("patternProperties") == PatternProperties
    ensures Parse("additionalProperties") == AdditionalProperties && Parse("propertyNames") == PropertyNames
    ensures Parse("dependentSchemas") == DependentSchemas && Parse("dependencies") == Dependencies
  {
  }

  /** `properties`: each member whose name is listed; of a name listed twice the first entry counts. */
  lemma PropertiesKeyword(env: Env, base: Resolver, props: seq<Member>, i: Json)
    requires AreParts(env, base, Values(props)) && WellKeyed(Obj(props))
    ensures AcceptedBy(env, base, Sole("properties", Obj(props)), i) <==>
      (i.Obj? ==> forall x, p :: 0 <= x < |i.members| && 0 <= p < |props| && props[p].key == i.members[x].key ==>
        AcceptedBy(env, base, props[p].value, i.members[x].value))
  {
    hide AcceptedBy, Eval, IsPart, Parse, WellKeyed;
    ObjectNames();
    EntryFits(env, base, [Member("properties", Obj(props))], Properties, Obj(props));
    SoleMeansHere(env, base, "properties", Obj(props), i);
    if i.Obj? {
      forall x, p | 0 <= x < |i.members| && 0 <= p < |props| && props[p].key == i.members[x].key
        ensures Get(props, i.members[x].key) == Some(props[p].value)
        ensures AcceptedBy(env, base, props[p].value, i.members[x].value)
          <==> Eval(64, env, base, props[p].value, i.members[x].value)
      {
        OnlyEntry(props, p);
        assert Values(props)[p] == props[p].value;
        PartMeans(env, base, props[p].value, i.members[x].value);
      }
      forall x | 0 <= x < |i.members| && Get(props, i.members[x].key).Some?
        ensures exists p :: 0 <= p < |props| && props[p].key == i.members[x].key
      {
        var p := IndexFrom(props, i.members[x].key, 0).value;
        assert props[p].key == i.members[x].key;
      }
    }
  }

  lemma OnlyEntry(props: seq<Member>, p: nat)
    requires p < |props| && WellKeyed(Obj(props))
    ensures Get(props, props[p].key) == Some(props[p].value)
  {
    var k := IndexFrom(props, props[p].key, 0);
    assert k.Some? && k.value == p;
  }

  /** `patternProperties`: each member under every pattern its name matches. */
  lemma PatternPropertiesKeyword(env: Env, base: Resolver, props: seq<Member>, i: Json)
    requires AreParts(env, base, Values(props)) && forall p :: 0 <= p < |props| ==> env.regexOk(props[p].key)
    ensures AcceptedBy(env, base, Sole("patternProperties", Obj(props)), i) <==>
      (i.Obj? ==> forall x, p ::
        0 <= x < |i.members| && 0 <= p < |props| && env.regexMatches(props[p].key, i.members[x].key) ==>
          AcceptedBy(env, base, props[p].value, i.members[x].value))
  {
    hide AcceptedBy, Eval, IsPart, Parse;
    ObjectNames();
    EntryFits(env, base, [Member("patternProperties", Obj(props))], PatternProperties, Obj(props));
    SoleMeansHere(env, base, "patternProperties", Obj(props), i);
    if i.Obj? {
      forall x, p | 0 <= x < |i.members| && 0 <= p < |props|
        ensures AcceptedBy(env, base, props[p].value, i.members[x].value)
          <==> Eval(64, env, base, props[p].value, i.members[x].value)
      {
        assert Values(props)[p] == props[p].value;
        PartMeans(env, base, props[p].value, i.members[x].value);
      }
    }
  }

  /** A name that neither of the two lists covers. */
  predicate Extra(env: Env, patterns: seq<Member>, props: seq<Member>, name: string) {
    && (forall p :: 0 <= p < |props| ==> props[p].key != name)
    && (forall p :: 0 <= p < |patterns| ==> !env.regexMatches(patterns[p].key, name))
  }

  lemma ExtraIsUncovered(env: Env, schema: seq<Member>, patterns: seq<Member>, props: seq<Member>, name: string)
    requires Get(schema, "properties") == Some(Obj(props)) && Get(schema, "patternProperties") == Some(Obj(patterns))
    requires forall p :: 0 <= p < |patterns| ==> env.regexOk(patterns[p].key)
    ensures Uncovered(env, schema, name) <==> Extra(env, patterns, props, name)
  {
    hide Get;
    var members := MembersOf(Get(schema, "properties"));
    assert members == props && MembersOf(Get(schema, "patternProperties")) == patterns;
    AbsentIff(props, name);
  }

  lemma AbsentIff(props: seq<Member>, name: string)
    ensures !Has(props, name) <==> forall p :: 0 <= p < |props| ==> props[p].key != name
  {
    var k := IndexFrom(props, name, 0);
  }

  /** `additionalProperties` beside the other two: the values of the members neither of them covers. */
  lemma AdditionalPropertiesKeyword(env: Env, base: Resolver, extra: Json, patterns: seq<Member>, props: seq<Member>,
        i: Json)
    requires IsPart(env, base, extra) && AreParts(env, base, Values(patterns)) && AreParts(env, base, Values(props))
    requires forall p :: 0 <= p < |patterns| ==> env.regexOk(patterns[p].key)
    ensures AcceptedBy(env, base, Obj([Member("additionalProperties", extra),
        Member("patternProperties", Obj(patterns)), Member("properties", Obj(props))]), i) <==>
      && AcceptedBy(env, base, Sole("patternProperties", Obj(patterns)), i)
      && AcceptedBy(env, base, Sole("properties", Obj(props)), i)
      && (i.Obj? ==> forall x :: 0 <= x < |i.members| && Extra(env, patterns, props, i.members[x].key) ==>
           AcceptedBy(env, base, extra, i.members[x].value))
  {
    hide AcceptedBy, Eval, IsPart, Parse, Get, Extra, Uncovered, Holds, EntryWellFormed;
    ObjectNames();
    var schema := [Member("additionalProperties", extra), Member("patternProperties", Obj(patterns)),
      Member("properties", Obj(props))];
    TrioNames(schema);
    EntryFits(env, base, schema, AdditionalProperties, extra);
    EntryFits(env, base, schema, PatternProperties, Obj(patterns));
    EntryFits(env, base, schema, Properties, Obj(props));
    WholeMeans(env, base, schema, i);
    EntryFits(env, base, [schema[1]], PatternProperties, Obj(patterns));
    SoleMeansHere(env, base, "patternProperties", Obj(patterns), i);
    EntryFits(env, base, [schema[2]], Properties, Obj(props));
    SoleMeansHere(env, base, "properties", Obj(props), i);
    SiblingsDoNotCount(env, base, schema, [schema[1]], PatternProperties, Obj(patterns), i);
    SiblingsDoNotCount(env, base, schema, [schema[2]], Properties, Obj(props), i);
    AdditionalHolds(env, base, schema, extra, patterns, props, i);
  }

  lemma TrioNames(schema: seq<Member>)
    requires |schema| == 3 && schema[0].key == "additionalProperties" && schema[1].key == "patternProperties"
    requires schema[2].key == "properties"
    ensures Get(schema, "$ref") == None
    ensures Get(schema, "patternProperties") == Some(schema[1].value)
    ensures Get(schema, "properties") == Some(schema[2].value)
  {
  }

  lemma SiblingsDoNotCount(env: Env, base: Resolver, schema: seq<Member>, other: seq<Member>, kw: Keyword, arg: Json,
        i: Json)
    requires kw == Properties || kw == PatternProperties
    ensures Holds(65, env, base, schema, kw, arg, i) <==> Holds(65, env, base, other, kw, arg, i)
  {
    hide Eval;
  }

  lemma AdditionalHolds(env: Env, base: Resolver, schema: seq<Member>, extra: Json, patterns: seq<Member>,
        props: seq<Member>, i: Json)
    requires Get(schema, "properties") == Some(Obj(props)) && Get(schema, "patternProperties") == Some(Obj(patterns))
    requires forall p :: 0 <= p < |patterns| ==> env.regexOk(patterns[p].key)
    requires IsPart(env, base, extra)
    ensures Holds(65, env, base, schema, AdditionalProperties, extra, i) <==>
      (i.Obj? ==> forall x :: 0 <= x < |i.members| && Extra(env, patterns, props, i.members[x].key) ==>
        AcceptedBy(env, base, extra, i.members[x].value))
  {
    hide AcceptedBy, Eval, IsPart, Extra, Uncovered, Get;
    if i.Obj? {
      forall x | 0 <= x < |i.members|
        ensures Uncovered(env, schema, i.members[x].key) <==> Extra(env, patterns, props, i.members[x].key)
        ensures AcceptedBy(env, base, extra, i.members[x].value)
          <==> Eval(64, env, base, extra, i.members[x].value)
      {
        ExtraIsUncovered(env, schema, patterns, props, i.members[x].key);
        PartMeans(env, base, extra, i.members[x].value);
      }
    }
  }

  /** `propertyNames`, from draft 6 on: every name, as a string. */
  lemma PropertyNamesKeyword(env: Env, base: Resolver, sub: Json, i: Json)
    requires env.draft != Draft4 && IsPart(env, base, sub)
    ensures AcceptedBy(env, base, Sole("propertyNames", sub), i) <==>
      (i.Obj? ==> forall x :: 0 <= x < |i.members| ==> AcceptedBy(env, base, sub, Str(i.members[x].key)))
  {
    hide AcceptedBy, Eval, IsPart, Parse;
    ObjectNames();
    EntryFits(env, base, [Member("propertyNames", sub)], PropertyNames, sub);
    SoleMeansHere(env, base, "propertyNames", sub, i);
    if i.Obj? {
      forall x | 0 <= x < |i.members|
        ensures AcceptedBy(env, base, sub, Str(i.members[x].key)) <==> Eval(64, env, base, sub, Str(i.members[x].key))
      {
        PartMeans(env, base, sub, Str(i.members[x].key));
      }
    }
  }

  /** The object has a member of that name. */
  predicate Carries(i: Json, name: string) {
    i.Obj? && exists k :: 0 <= k < |i.members| && i.members[k].key == name
  }

  lemma CarriesIffHas(i: Json, name: string)
    requires i.Obj?
    ensures Has(i.members, name) <==> Carries(i, name)
  {
    var k := IndexFrom(i.members, name, 0);
    if k.Some? {
      assert i.members[k.value].key == name;
    }
  }

  lemma PartsAmong(env: Env, base: Resolver, subs: seq<Json>)
    requires forall x :: 0 <= x < |subs| && IsSchema(subs[x]) ==> IsPart(env, base, subs[x])
    ensures AreParts(env, base, SchemasAmong(subs))
  {
    hide IsPart;
    var among := SchemasAmong(subs);
    forall x | 0 <= x < |among| ensures IsPart(env, base, among[x]) {
      assert among[x] in among;
    }
  }

  /** `dependentSchemas`, from draft 2019-09 on: the schema of each listed name the object has. */
  lemma DependentSchemasKeyword(env: Env, base: Resolver, deps: seq<Member>, i: Json)
    requires (env.draft == Draft201909 || env.draft == Draft202012) && AreParts(env, base, Values(deps))
    ensures AcceptedBy(env, base, Sole("dependentSchemas", Obj(deps)), i) <==>
      forall p :: 0 <= p < |deps| && Carries(i, deps[p].key) ==> AcceptedBy(env, base, deps[p].value, i)
  {
    hide AcceptedBy, Eval, IsPart, Parse, SchemasAmong, Has, Carries;
    ObjectNames();
    forall p | 0 <= p < |deps|
      ensures IsSchema(deps[p].value)
      ensures AcceptedBy(env, base, deps[p].value, i) <==> Eval(64, env, base, deps[p].value, i)
      ensures i.Obj? ==> (Has(i.members, deps[p].key) <==> Carries(i, deps[p].key))
    {
      assert Values(deps)[p] == deps[p].value;
      PartIsSchema(env, base, deps[p].value);
      PartMeans(env, base, deps[p].value, i);
      if i.Obj? {
        CarriesIffHas(i, deps[p].key);
      }
    }
    PartsAmong(env, base, Values(deps));
    EntryFits(env, base, [Member("dependentSchemas", Obj(deps))], DependentSchemas, Obj(deps));
    SoleMeansHere(env, base, "dependentSchemas", Obj(deps), i);
    NonObjectsCarryNothing(i);
  }

  lemma NonObjectsCarryNothing(i: Json)
    ensures !i.Obj? ==> forall name :: !Carries(i, name)
  {
  }

  /** `dependencies`, before draft 2019-09: a list of names that must be there too, or a schema. */
  lemma DependenciesKeyword(env: Env, base: Resolver, deps: seq<Member>, i: Json)
    requires env.draft in {Draft4, Draft6, Draft7}
    requires forall p :: 0 <= p < |deps| ==> deps[p].value.Arr? || IsPart(env, base, deps[p].value)
    ensures AcceptedBy(env, base, Sole("dependencies", Obj(deps)), i) <==>
      forall p :: 0 <= p < |deps| && Carries(i, deps[p].key) ==> DependencyFollows(env, base, deps[p].value, i)
  {
    hide AcceptedBy, Eval, IsPart, Parse, SchemasAmong, Has, Carries, DependencyFollows;
    ObjectNames();
    forall x | 0 <= x < |Values(deps)| && IsSchema(Values(deps)[x]) ensures IsPart(env, base, Values(deps)[x]) {
    }
    forall p | 0 <= p < |deps|
      ensures deps[p].value.Arr? || IsSchema(deps[p].value)
      ensures i.Obj? ==> (DependencyHolds(65, env, base, deps[p], i) <==>
        (Carries(i, deps[p].key) ==> DependencyFollows(env, base, deps[p].value, i)))
    {
      if !deps[p].value.Arr? {
        PartIsSchema(env, base, deps[p].value);
      }
      if i.Obj? {
        DependencyMeans(env, base, deps[p], i);
      }
    }
    PartsAmong(env, base, Values(deps));
    EntryFits(env, base, [Member("dependencies", Obj(deps))], Dependencies, Obj(deps));
    SoleMeansHere(env, base, "dependencies", Obj(deps), i);
    NonObjectsCarryNothing(i);
  }

  predicate DependencyFollows(env: Env, base: Resolver, dep: Json, i: Json) {
    if dep.Arr? then forall x :: 0 <= x < |dep.items| && dep.items[x].Str? ==> Carries(i, dep.items[x].s)
    else AcceptedBy(env, base, dep, i)
  }

  lemma DependencyMeans(env: Env, base: Resolver, dep: Member, i: Json)
    requires i.Obj? && (dep.value.Arr? || IsPart(env, base, dep.value))
    ensures DependencyHolds(65, env, base, dep, i) <==>
      (Carries(i, dep.key) ==> DependencyFollows(env, base, dep.value, i))
  {
    hide AcceptedBy, Eval, IsPart, Has, Carries;
    CarriesIffHas(i, dep.key);
    if dep.value.Arr? {
      forall x | 0 <= x < |dep.value.items| && dep.value.items[x].Str?
        ensures Has(i.members, dep.value.items[x].s) <==> Carries(i, dep.value.items[x].s)
      {
        CarriesIffHas(i, dep.value.items[x].s);
      }
    } else {
      PartMeans(env, base, dep.value, i);
    }
  }

  // ----- arrays -----

  lemma ArrayNames()
    ensures Parse("items") == Items && Parse("prefixItems") == PrefixItems && Parse("contains") == Contains
    ensures Parse("additionalItems") == Unmodelled && Parse("minContains") == Unmodelled
    ensures Parse("maxContains") == Unmodelled
  {
  }

  /** `items` with one schema, on its own: every item. */
  lemma ItemsKeyword(env: Env, base: Resolver, sub: Json, i: Json)
    requires IsPart(env, base, sub)
    ensures AcceptedBy(env, base, Sole("items", sub), i) <==>
      (i.Arr? ==> forall x :: 0 <= x < |i.items| ==> AcceptedBy(env, base, sub, i.items[x]))
  {
    hide AcceptedBy, Eval, IsPart, Parse, Get;
    ArrayNames();
    PartIsSchema(env, base, sub);
    var schema := [Member("items", sub)];
    NotMember(schema[0], "prefixItems");
    assert AreParts(env, base, ItemSubschemas(env.draft, schema, sub));
    EntryFits(env, base, schema, Items, sub);
    SoleMeansHere(env, base, "items", sub, i);
    if i.Arr? {
      forall x | 0 <= x < |i.items|
        ensures ItemHolds(65, env, base, schema, sub, x, i.items[x]) <==> AcceptedBy(env, base, sub, i.items[x])
      {
        PartMeans(env, base, sub, i.items[x]);
      }
    }
  }

  /** `items` beside `prefixItems` in draft 2020-12: position by position, the rest under `items`. */
  lemma PrefixItemsKeyword(env: Env, base: Resolver, rest: Json, subs: seq<Json>, i: Json)
    requires env.draft == Draft202012 && IsPart(env, base, rest) && AreParts(env, base, subs)
    ensures AcceptedBy(env, base, Obj([Member("items", rest), Member("prefixItems", Arr(subs))]), i) <==>
      (i.Arr? ==> forall x :: 0 <= x < |i.items| ==>
        AcceptedBy(env, base, if x < |subs| then subs[x] else rest, i.items[x]))
  {
    hide AcceptedBy, Eval, IsPart, Parse, Get;
    ArrayNames();
    PartIsSchema(env, base, rest);
    var schema := [Member("items", rest), Member("prefixItems", Arr(subs))];
    FirstTwo(schema, "$ref");
    FirstTwo(schema, "prefixItems");
    assert AreParts(env, base, ItemSubschemas(env.draft, schema, rest));
    EntryFits(env, base, schema, Items, rest);
    EntryFits(env, base, schema, PrefixItems, Arr(subs));
    WholeMeans(env, base, schema, i);
    if i.Arr? {
      forall x | 0 <= x < |i.items|
        ensures x >= |subs| ==>
          (ItemHolds(65, env, base, schema, rest, x, i.items[x]) <==> AcceptedBy(env, base, rest, i.items[x]))
        ensures x < |subs| ==> ItemHolds(65, env, base, schema, rest, x, i.items[x])
        ensures x < |subs| ==>
          (Eval(64, env, base, subs[x], i.items[x]) <==> AcceptedBy(env, base, subs[x], i.items[x]))
      {
        PartMeans(env, base, rest, i.items[x]);
        if x < |subs| {
          PartMeans(env, base, subs[x], i.items[x]);
        }
      }
    }
  }

  lemma FirstTwo(schema: seq<Member>, key: string)
    requires |schema| == 2
    ensures Get(schema, key) ==
      if schema[0].key == key then Some(schema[0].value)
      else if schema[1].key == key then Some(schema[1].value) else None
  {
  }

  /** The array form of `items` beside `additionalItems`, before draft 2020-12. */
  lemma TupleItemsKeyword(env: Env, base: Resolver, rest: Json, subs: seq<Json>, i: Json)
    requires env.draft != Draft202012 && IsPart(env, base, rest) && AreParts(env, base, subs)
    ensures AcceptedBy(env, base, Obj([Member("additionalItems", rest), Member("items", Arr(subs))]), i) <==>
      (i.Arr? ==> forall x :: 0 <= x < |i.items| ==>
        AcceptedBy(env, base, if x < |subs| then subs[x] else rest, i.items[x]))
  {
    hide AcceptedBy, Eval, IsPart, Parse, Get;
    ArrayNames();
    PartIsSchema(env, base, rest);
    var schema := [Member("additionalItems", rest), Member("items", Arr(subs))];
    FirstTwo(schema, "$ref");
    FirstTwo(schema, "additionalItems");
    assert AreParts(env, base, ItemSubschemas(env.draft, schema, Arr(subs)));
    EntryFits(env, base, schema, Items, Arr(subs));
    NothingAsked(env, base, schema, rest, i);
    WholeMeans(env, base, schema, i);
    if i.Arr? {
      forall x | 0 <= x < |i.items|
        ensures ItemHolds(65, env, base, schema, Arr(subs), x, i.items[x]) <==>
          AcceptedBy(env, base, if x < |subs| then subs[x] else rest, i.items[x])
      {
        PartMeans(env, base, rest, i.items[x]);
        if x < |subs| {
          PartMeans(env, base, subs[x], i.items[x]);
        }
      }
    }
  }

  lemma NothingAsked(env: Env, base: Resolver, schema: seq<Member>, arg: Json, i: Json)
    ensures EntryWellFormed(env, {}, base, schema, Unmodelled, arg, 64)
    ensures Holds(65, env, base, schema, Unmodelled, arg, i)
  {
  }

  /** The number of items the schema accepts. */
  function Matching(env: Env, base: Resolver, sub: Json, items: seq<Json>): nat {
    if items == [] then 0
    else
      Matching(env, base, sub, items[..|items| - 1])
        + if AcceptedBy(env, base, sub, items[|items| - 1]) then 1 else 0
  }

  lemma {:induction false} MatchingCounts(env: Env, base: Resolver, sub: Json, items: seq<Json>)
    requires IsPart(env, base, sub)
    ensures |MatchingItems(64, env, base, sub, items)| == Matching(env, base, sub, items)
    decreases |items|
  {
    hide AcceptedBy, Eval, IsPart;
    if items != [] {
      var last := |items| - 1;
      MatchingCounts(env, base, sub, items[..last]);
      PartMeans(env, base, sub, items[last]);
      var earlier := MatchingItems(64, env, base, sub, items[..last]);
      assert MatchingItems(64, env, base, sub, items)
        == if Eval(64, env, base, sub, items[last]) then earlier + {last} else earlier;
    }
  }

  /** `contains` on its own, from draft 6 on: at least one item. */
  lemma ContainsKeyword(env: Env, base: Resolver, sub: Json, i: Json)
    requires env.draft != Draft4 && IsPart(env, base, sub)
    ensures AcceptedBy(env, base, Sole("contains", sub), i) <==> (i.Arr? ==> Matching(env, base, sub, i.items) >= 1)
  {
    hide AcceptedBy, Eval, IsPart, Parse, Get, Matching, MatchingItems;
    ArrayNames();
    PartIsSchema(env, base, sub);
    var schema := [Member("contains", sub)];
    NotMember(schema[0], "minContains");
    NotMember(schema[0], "maxContains");
    EntryFits(env, base, schema, Contains, sub);
    SoleMeansHere(env, base, "contains", sub, i);
    if i.Arr? {
      MatchingCounts(env, base, sub, i.items);
    }
  }

  /** With `minContains` and `maxContains`, which exist from draft 2019-09 on; before that they are ignored. */
  lemma ContainsBounds(env: Env, base: Resolver, sub: Json, max: nat, min: nat, i: Json)
    requires env.draft != Draft4 && IsPart(env, base, sub)
    requires max <= 18446744073709551615 && min <= 18446744073709551615
    ensures AcceptedBy(env, base, Obj([Member("contains", sub), Member("maxContains", Num(max as real)),
        Member("minContains", Num(min as real))]), i) <==>
      (i.Arr? ==>
        if env.draft == Draft201909 || env.draft == Draft202012
        then min <= Matching(env, base, sub, i.items) <= max
        else Matching(env, base, sub, i.items) >= 1)
  {
    hide AcceptedBy, IsPart, Parse, Get, Matching, Holds, EntryWellFormed;
    ArrayNames();
    PartIsSchema(env, base, sub);
    var schema := [Member("contains", sub), Member("maxContains", Num(max as real)),
      Member("minContains", Num(min as real))];
    BoundsFound(schema);
    EntryFits(env, base, schema, Contains, sub);
    NothingAsked(env, base, schema, schema[1].value, i);
    NothingAsked(env, base, schema, schema[2].value, i);
    WholeMeans(env, base, schema, i);
    ContainsHolds(env, base, schema, sub, max, min, i);
  }

  lemma ContainsHolds(env: Env, base: Resolver, schema: seq<Member>, sub: Json, max: nat, min: nat, i: Json)
    requires IsPart(env, base, sub) && max <= 18446744073709551615 && min <= 18446744073709551615
    requires Get(schema, "maxContains") == Some(Num(max as real))
    requires Get(schema, "minContains") == Some(Num(min as real))
    ensures Holds(65, env, base, schema, Contains, sub, i) <==>
      (i.Arr? ==>
        if env.draft == Draft201909 || env.draft == Draft202012
        then min <= Matching(env, base, sub, i.items) <= max
        else Matching(env, base, sub, i.items) >= 1)
  {
    hide AcceptedBy, Eval, IsPart, Get, Matching, MatchingItems;
    PartIsSchema(env, base, sub);
    if i.Arr? {
      MatchingCounts(env, base, sub, i.items);
    }
  }

  lemma BoundsFound(schema: seq<Member>)
    requires |schema| == 3 && schema[0].key == "contains" && schema[1].key == "maxContains"
    requires schema[2].key == "minContains"
    ensures Get(schema, "$ref") == None
    ensures Get(schema, "maxContains") == Some(schema[1].value)
    ensures Get(schema, "minContains") == Some(schema[2].value)
  {
  }
}
