/** The keywords without subschemas, by their literal names: which instances `{name: argument}` passes in each draft,
    said in terms of the instance and the argument alone. */
module KeywordTable {
  import opened JsonValues
  import opened Keywords
  import opened SchemaTree
  import opened TreeFeatures
  import opened SchemaMeaning
  import opened Compiler
  import opened Evaluators
  import opened SchemaFamilies
  import EvaluatorResults

  /** The schema compiles, and its tree and all three evaluators pass the instance, or none of them does. */
  predicate Judged(env: Env, base: Resolver, s: Json, i: Json, passes: bool) {
    var r := Compile(env, base, s).0;
    && r.Ok? && (Accepts(env, r.value, i) <==> passes)
    && (IsValid(env, r.value, i) <==> passes)
    && (Validate(env, r.value, i).None? <==> passes)
    && (IterErrors(env, r.value, i) == [] <==> passes)
  }

  // ----- from an entry to what its tree passes -----

  lemma TreeJudged(env: Env, base: Resolver, s: Json, t: Node, i: Json)
    requires WellKeyed(i) && Lacks(t, {Additional}) && Compile(env, base, s).0 == Ok(t)
    ensures Judged(env, base, s, i, Accepts(env, t, i))
  {
    hide Run, Accepts, Lacks, WellKeyed, CompileNode;
    EvaluatorResults.MarksDoNotMatter(Quick, env, t, i, [], {});
    EvaluatorResults.MarksDoNotMatter(First, env, t, i, [], {});
    EvaluatorResults.MarksDoNotMatter(Every, env, t, i, [], {});
  }

  function TestsTree(tests: seq<Test>): Node {
    Validators(seq(|tests|, k requires 0 <= k < |tests| => Assertion(tests[k])))
  }

  lemma TestsAccept(env: Env, tests: seq<Test>, i: Json)
    ensures var t := TestsTree(tests);
      && Lacks(t, {Additional})
      && (Accepts(env, t, i) <==> forall k :: 0 <= k < |tests| ==> TestPasses(env, tests[k], i))
  {
    hide TestPasses;
    var t := TestsTree(tests);
    forall k | 0 <= k < |tests|
      ensures LacksV(t.validators[k], {Additional})
      ensures Satisfies(env, t.validators[k], i) <==> TestPasses(env, tests[k], i)
    {
    }
  }

  predicate PassesIfAny(env: Env, test: Option<Test>, i: Json) {
    test.Some? ==> TestPasses(env, test.value, i)
  }

  lemma LeafJudged(env: Env, base: Resolver, key: string, plain: Plain, arg: Json, i: Json)
    requires WellKeyed(i) && Parse(key) == Leaf(plain) && InVocabulary(env.draft, Leaf(plain))
    ensures Judged(env, base, Sole(key, arg), i, PassesIfAny(env, CompileLeaf(env, [Member(key, arg)], plain, arg), i))
  {
    hide TestPasses, Accepts, Lacks, CompileLeaf, CompileNode, Parse, InVocabulary, IsValid, Validate, IterErrors,
      WellKeyed;
    var test := CompileLeaf(env, [Member(key, arg)], plain, arg);
    SoleCompiles(env, base, key, arg, 0, START);
    var tests := if test.Some? then [test.value] else [];
    TestsAccept(env, tests, i);
    var t := TestsTree(tests);
    assert t.validators == if test.Some? then [Assertion(test.value)] else [];
    assert test.Some? ==> tests[0] == test.value;
    TreeJudged(env, base, Sole(key, arg), t, i);
  }

  /** A name outside the vocabulary of the draft asks nothing. */
  lemma NameIgnored(env: Env, base: Resolver, key: string, arg: Json)
    requires !InVocabulary(env.draft, Parse(key)) && key != "$ref"
    ensures Compile(env, base, Sole(key, arg)) == (Ok(Validators([])), START)
  {
    hide Parse, InVocabulary;
    var schema := [Member(key, arg)];
    NotMember(schema[0], "$ref");
    assert Active(env.draft, schema, key) == Unmodelled;
    assert CompileEntries(env, base, schema, 1, 0, START) == ([], START);
    assert CompileEntries(env, base, schema, 0, 0, START) == ([], START);
  }

  lemma IgnoredJudged(env: Env, base: Resolver, key: string, arg: Json, i: Json)
    requires WellKeyed(i) && !InVocabulary(env.draft, Parse(key)) && key != "$ref"
    ensures Judged(env, base, Sole(key, arg), i, true)
  {
    hide Parse, InVocabulary, CompileNode, Judged;
    NameIgnored(env, base, key, arg);
    TestsAccept(env, [], i);
    assert TestsTree([]).validators == [];
    TreeJudged(env, base, Sole(key, arg), Validators([]), i);
  }

  lemma CountNames()
    ensures Parse("minLength") == Leaf(MinLength) && Parse("maxLength") == Leaf(MaxLength)
    ensures Parse("minItems") == Leaf(MinItems) && Parse("maxItems") == Leaf(MaxItems)
    ensures Parse("minProperties") == Leaf(MinProperties) && Parse("maxProperties") == Leaf(MaxProperties)
  {
  }

  lemma BoundNames()
    ensures Parse("minimum") == Leaf(Minimum) && Parse("maximum") == Leaf(Maximum)
    ensures Parse("exclusiveMinimum") == Leaf(ExclusiveMinimum) && Parse("exclusiveMaximum") == Leaf(ExclusiveMaximum)
  {
  }

  lemma OtherNames()
    ensures Parse("type") == Leaf(Type) && Parse("const") == Leaf(Const) && Parse("enum") == Leaf(Enum)
    ensures Parse("pattern") == Leaf(Pattern) && Parse("uniqueItems") == Leaf(UniqueItems)
    ensures Parse("required") == Leaf(Required) && Parse("dependentRequired") == Leaf(DependentRequired)
  {
  }

  // ----- the table -----

  lemma StringCountMeans(env: Env, schema: seq<Member>, arg: Json, i: Json)
    ensures var k := NatOr(arg, 0);
      && (PassesIfAny(env, CompileLeaf(env, schema, MinLength, arg), i) <==> (i.Str? ==> |i.s| >= k))
      && (PassesIfAny(env, CompileLeaf(env, schema, MaxLength, arg), i) <==> (i.Str? ==> |i.s| <= k))
  {
    hide NatOr;
  }

  lemma ItemCountMeans(env: Env, schema: seq<Member>, arg: Json, i: Json)
    ensures var k := NatOr(arg, 0);
      && (PassesIfAny(env, CompileLeaf(env, schema, MinItems, arg), i) <==> (i.Arr? ==> |i.items| >= k))
      && (PassesIfAny(env, CompileLeaf(env, schema, MaxItems, arg), i) <==> (i.Arr? ==> |i.items| <= k))
  {
    hide NatOr;
  }

  lemma MemberCountMeans(env: Env, schema: seq<Member>, arg: Json, i: Json)
    ensures var k := NatOr(arg, 0);
      && (PassesIfAny(env, CompileLeaf(env, schema, MinProperties, arg), i) <==> (i.Obj? ==> |i.members| >= k))
      && (PassesIfAny(env, CompileLeaf(env, schema, MaxProperties, arg), i) <==> (i.Obj? ==> |i.members| <= k))
  {
    hide NatOr;
  }

  lemma StringCounts(env: Env, base: Resolver, arg: Json, i: Json)
    requires WellKeyed(i)
    ensures Judged(env, base, Sole("minLength", arg), i, i.Str? ==> |i.s| >= NatOr(arg, 0))
    ensures Judged(env, base, Sole("maxLength", arg), i, i.Str? ==> |i.s| <= NatOr(arg, 0))
  {
    hide Judged, Parse, WellKeyed, NatOr, CompileLeaf, PassesIfAny;
    CountNames();
    StringCountMeans(env, [Member("minLength", arg)], arg, i);
    StringCountMeans(env, [Member("maxLength", arg)], arg, i);
    LeafJudged(env, base, "minLength", MinLength, arg, i);
    LeafJudged(env, base, "maxLength", MaxLength, arg, i);
  }

  lemma ItemCounts(env: Env, base: Resolver, arg: Json, i: Json)
    requires WellKeyed(i)
    ensures Judged(env, base, Sole("minItems", arg), i, i.Arr? ==> |i.items| >= NatOr(arg, 0))
    ensures Judged(env, base, Sole("maxItems", arg), i, i.Arr? ==> |i.items| <= NatOr(arg, 0))
  {
    hide Judged, Parse, WellKeyed, NatOr, CompileLeaf, PassesIfAny;
    CountNames();
    ItemCountMeans(env, [Member("minItems", arg)], arg, i);
    ItemCountMeans(env, [Member("maxItems", arg)], arg, i);
    LeafJudged(env, base, "minItems", MinItems, arg, i);
    LeafJudged(env, base, "maxItems", MaxItems, arg, i);
  }

  lemma MemberCounts(env: Env, base: Resolver, arg: Json, i: Json)
    requires WellKeyed(i)
    ensures Judged(env, base, Sole("minProperties", arg), i,
      env.draft != Draft4 && i.Obj? ==> |i.members| >= NatOr(arg, 0))
    ensures Judged(env, base, Sole("maxProperties", arg), i,
      env.draft != Draft4 && i.Obj? ==> |i.members| <= NatOr(arg, 0))
  {
    hide Judged, Parse, WellKeyed, NatOr, CompileLeaf, PassesIfAny;
    CountNames();
    if env.draft == Draft4 {
      IgnoredJudged(env, base, "minProperties", arg, i);
      IgnoredJudged(env, base, "maxProperties", arg, i);
    } else {
      MemberCountMeans(env, [Member("minProperties", arg)], arg, i);
      MemberCountMeans(env, [Member("maxProperties", arg)], arg, i);
      LeafJudged(env, base, "minProperties", MinProperties, arg, i);
      LeafJudged(env, base, "maxProperties", MaxProperties, arg, i);
    }
  }

  /** Counts: the length of a string in characters, the items of an array, the members of an object. Draft 4 has no
      bounds on members here. */
  lemma CountKeywords(env: Env, base: Resolver, k: nat, i: Json)
    requires WellKeyed(i) && k <= 18446744073709551615
    ensures Judged(env, base, Sole("minLength", Num(k as real)), i, i.Str? ==> |i.s| >= k)
    ensures Judged(env, base, Sole("maxLength", Num(k as real)), i, i.Str? ==> |i.s| <= k)
    ensures Judged(env, base, Sole("minItems", Num(k as real)), i, i.Arr? ==> |i.items| >= k)
    ensures Judged(env, base, Sole("maxItems", Num(k as real)), i, i.Arr? ==> |i.items| <= k)
    ensures Judged(env, base, Sole("minProperties", Num(k as real)), i,
      env.draft != Draft4 && i.Obj? ==> |i.members| >= k)
    ensures Judged(env, base, Sole("maxProperties", Num(k as real)), i,
      env.draft != Draft4 && i.Obj? ==> |i.members| <= k)
  {
    hide Judged, WellKeyed;
    var arg := Num(k as real);
    assert NatOr(arg, 0) == k;
    StringCounts(env, base, arg, i);
    ItemCounts(env, base, arg, i);
    MemberCounts(env, base, arg, i);
  }

  /** Not a whole number from 0 to 2^64 - 1. */
  predicate NoCount(arg: Json) {
    arg.Num? ==> arg.n < 0.0 || arg.n > 18446744073709551615.0 || arg.n != arg.n.Floor as real
  }

  /** A count that is no such number is read as 0. */
  lemma CountsDefaultToZero(env: Env, base: Resolver, arg: Json, i: Json)
    requires WellKeyed(i) && NoCount(arg)
    ensures Judged(env, base, Sole("minLength", arg), i, true)
    ensures Judged(env, base, Sole("maxLength", arg), i, i.Str? ==> i.s == "")
    ensures Judged(env, base, Sole("minItems", arg), i, true)
    ensures Judged(env, base, Sole("maxItems", arg), i, i.Arr? ==> i.items == [])
    ensures Judged(env, base, Sole("minProperties", arg), i, true)
    ensures Judged(env, base, Sole("maxProperties", arg), i, env.draft != Draft4 && i.Obj? ==> i.members == [])
  {
    hide Judged, WellKeyed;
    assert NatOr(arg, 0) == 0;
    StringCounts(env, base, arg, i);
    ItemCounts(env, base, arg, i);
    MemberCounts(env, base, arg, i);
  }

  /** A bound, exclusive or not. */
  lemma BoundMeans(env: Env, schema: seq<Member>, arg: Json, i: Json)
    ensures var limit := if arg.Num? then arg.n else 0.0;
      && (PassesIfAny(env, CompileLeaf(env, schema, Minimum, arg), i) <==> (i.Num? ==>
            if Draft4Exclusive(env, schema, "exclusiveMinimum") then i.n > limit else i.n >= limit))
      && (PassesIfAny(env, CompileLeaf(env, schema, Maximum, arg), i) <==> (i.Num? ==>
            if Draft4Exclusive(env, schema, "exclusiveMaximum") then i.n < limit else i.n <= limit))
      && (PassesIfAny(env, CompileLeaf(env, schema, ExclusiveMinimum, arg), i) <==>
            (env.draft != Draft4 && i.Num? ==> i.n > limit))
      && (PassesIfAny(env, CompileLeaf(env, schema, ExclusiveMaximum, arg), i) <==>
            (env.draft != Draft4 && i.Num? ==> i.n < limit))
  {
    hide Draft4Exclusive;
  }

  lemma InclusiveAlone(env: Env, arg: Json)
    ensures !Draft4Exclusive(env, [Member("minimum", arg)], "exclusiveMinimum")
    ensures !Draft4Exclusive(env, [Member("maximum", arg)], "exclusiveMaximum")
  {
    hide Get;
    NotMember(Member("minimum", arg), "exclusiveMinimum");
    NotMember(Member("maximum", arg), "exclusiveMaximum");
  }

  /** Bounds on numbers. Draft 4 ignores the exclusive ones on their own. An argument that is no number is read as 0. */
  lemma BoundKeywords(env: Env, base: Resolver, arg: Json, i: Json)
    requires WellKeyed(i)
    ensures var limit := if arg.Num? then arg.n else 0.0;
      && Judged(env, base, Sole("minimum", arg), i, i.Num? ==> i.n >= limit)
      && Judged(env, base, Sole("maximum", arg), i, i.Num? ==> i.n <= limit)
      && Judged(env, base, Sole("exclusiveMinimum", arg), i, env.draft != Draft4 && i.Num? ==> i.n > limit)
      && Judged(env, base, Sole("exclusiveMaximum", arg), i, env.draft != Draft4 && i.Num? ==> i.n < limit)
  {
    hide Judged, Parse, WellKeyed, CompileLeaf, PassesIfAny, Draft4Exclusive;
    BoundNames();
    InclusiveAlone(env, arg);
    BoundMeans(env, [Member("minimum", arg)], arg, i);
    BoundMeans(env, [Member("maximum", arg)], arg, i);
    BoundMeans(env, [Member("exclusiveMinimum", arg)], arg, i);
    BoundMeans(env, [Member("exclusiveMaximum", arg)], arg, i);
    LeafJudged(env, base, "minimum", Minimum, arg, i);
    LeafJudged(env, base, "maximum", Maximum, arg, i);
    LeafJudged(env, base, "exclusiveMinimum", ExclusiveMinimum, arg, i);
    LeafJudged(env, base, "exclusiveMaximum", ExclusiveMaximum, arg, i);
  }

  function PairTests(env: Env, schema: seq<Member>, a: Plain, b: Plain): seq<Test>
    requires |schema| == 2
  {
    var first, second := CompileLeaf(env, schema, a, schema[0].value), CompileLeaf(env, schema, b, schema[1].value);
    OptionAsTests(first) + OptionAsTests(second)
  }

  function OptionAsTests(test: Option<Test>): seq<Test> {
    if test.Some? then [test.value] else []
  }

  lemma PairJudged(env: Env, base: Resolver, schema: seq<Member>, a: Plain, b: Plain, i: Json)
    requires WellKeyed(i) && |schema| == 2 && !Has(schema, "$ref")
    requires Parse(schema[0].key) == Leaf(a) && Parse(schema[1].key) == Leaf(b)
    requires InVocabulary(env.draft, Leaf(a)) && InVocabulary(env.draft, Leaf(b))
    ensures Judged(env, base, Obj(schema), i,
      && PassesIfAny(env, CompileLeaf(env, schema, a, schema[0].value), i)
      && PassesIfAny(env, CompileLeaf(env, schema, b, schema[1].value), i))
  {
    hide TestPasses, Accepts, Lacks, CompileLeaf, Parse, InVocabulary, IsValid, Validate, IterErrors, WellKeyed, Has,
      CompileNode, Judged, TestsTree;
    var tests := PairTests(env, schema, a, b);
    PairEntries(env, base, schema, a, b);
    TestsAccept(env, tests, i);
    TreeJudged(env, base, Obj(schema), TestsTree(tests), i);
    AllPass(env, CompileLeaf(env, schema, a, schema[0].value), CompileLeaf(env, schema, b, schema[1].value), i);
  }

  lemma AllPass(env: Env, first: Option<Test>, second: Option<Test>, i: Json)
    ensures var tests := OptionAsTests(first) + OptionAsTests(second);
      (forall k :: 0 <= k < |tests| ==> TestPasses(env, tests[k], i)) <==>
        PassesIfAny(env, first, i) && PassesIfAny(env, second, i)
  {
    hide TestPasses;
    var tests := OptionAsTests(first) + OptionAsTests(second);
    assert first.Some? ==> tests[0] == first.value;
    assert second.Some? ==> tests[|tests| - 1] == second.value;
  }

  lemma PairEntries(env: Env, base: Resolver, schema: seq<Member>, a: Plain, b: Plain)
    requires |schema| == 2 && !Has(schema, "$ref")
    requires Parse(schema[0].key) == Leaf(a) && Parse(schema[1].key) == Leaf(b)
    requires InVocabulary(env.draft, Leaf(a)) && InVocabulary(env.draft, Leaf(b))
    ensures Compile(env, base, Obj(schema)) == (Ok(TestsTree(PairTests(env, schema, a, b))), START)
  {
    hide CompileLeaf, Parse, InVocabulary, Has;
    var first, second := CompileLeaf(env, schema, a, schema[0].value), CompileLeaf(env, schema, b, schema[1].value);
    assert Active(env.draft, schema, schema[0].key) == Leaf(a) && Active(env.draft, schema, schema[1].key) == Leaf(b);
    assert CompileEntries(env, base, schema, 2, 0, START) == ([], START);
    assert CompileEntries(env, base, schema, 1, 0, START).0 == TestsTree(OptionAsTests(second)).validators;
    assert CompileEntries(env, base, schema, 0, 0, START).0 == TestsTree(PairTests(env, schema, a, b)).validators;
  }

  /** In draft 4 the boolean beside a bound makes it exclusive; later drafts read the boolean as the bound 0. */
  lemma BooleanBounds(env: Env, base: Resolver, x: real, flag: bool, i: Json)
    requires WellKeyed(i)
    ensures Judged(env, base, Obj([Member("exclusiveMinimum", Bool(flag)), Member("minimum", Num(x))]), i,
      i.Num? ==> if env.draft == Draft4 then (if flag then i.n > x else i.n >= x) else i.n > 0.0 && i.n >= x)
    ensures Judged(env, base, Obj([Member("exclusiveMaximum", Bool(flag)), Member("maximum", Num(x))]), i,
      i.Num? ==> if env.draft == Draft4 then (if flag then i.n < x else i.n <= x) else i.n < 0.0 && i.n <= x)
  {
    hide Judged, Parse, WellKeyed, Get, CompileLeaf, PassesIfAny;
    BoundNames();
    var low := [Member("exclusiveMinimum", Bool(flag)), Member("minimum", Num(x))];
    var high := [Member("exclusiveMaximum", Bool(flag)), Member("maximum", Num(x))];
    FirstOfTwo(low, "$ref");
    FirstOfTwo(high, "$ref");
    FirstOfTwo(low, "exclusiveMinimum");
    FirstOfTwo(high, "exclusiveMaximum");
    BoundMeans(env, low, Num(x), i);
    BoundMeans(env, low, Bool(flag), i);
    BoundMeans(env, high, Num(x), i);
    BoundMeans(env, high, Bool(flag), i);
    PairJudged(env, base, low, ExclusiveMinimum, Minimum, i);
    PairJudged(env, base, high, ExclusiveMaximum, Maximum, i);
  }

  lemma FirstOfTwo(schema: seq<Member>, key: string)
    requires |schema| == 2 && schema[1].key != key
    ensures Get(schema, key) == if schema[0].key == key then Some(schema[0].value) else None
  {
  }

  /** The instance has the type of that name. */
  predicate IsOfType(name: string, i: Json) {
    || (name == "null" && i == Null)
    || (name == "boolean" && i.Bool?)
    || (name == "number" && i.Num?)
    || (name == "integer" && i.Num? && i.n == i.n.Floor as real)
    || (name == "string" && i.Str?)
    || (name == "array" && i.Arr?)
    || (name == "object" && i.Obj?)
  }

  lemma TypeNamed(env: Env, name: string, i: Json)
    ensures TestPasses(env, TypeIn(ParseTypeName(name)), i) <==> IsOfType(name, i)
  {
  }

  /** One of the listed names does. */
  predicate OneNamed(names: seq<Json>, i: Json) {
    exists k :: 0 <= k < |names| && names[k].Str? && IsOfType(names[k].s, i)
  }

  lemma {:induction false} TypesListed(env: Env, names: seq<Json>, i: Json)
    ensures TestPasses(env, TypeIn(TypesNamed(names)), i) <==> OneNamed(names, i)
  {
    hide ParseTypeName, IsOfType;
    if names != [] {
      TypesListed(env, names[1..], i);
      if names[0].Str? {
        TypeNamed(env, names[0].s, i);
      }
      assert forall k :: 0 < k < |names| ==> names[k] == names[1..][k - 1];
      if k :| 0 <= k < |names[1..]| && names[1..][k].Str? && IsOfType(names[1..][k].s, i) {
        assert names[k + 1] == names[1..][k];
      }
    }
  }

  /** `type`: a name, a list of names, or nothing that counts. A name that is none of the seven refuses everything. */
  lemma TypeKeyword(env: Env, base: Resolver, arg: Json, i: Json)
    requires WellKeyed(i)
    ensures Judged(env, base, Sole("type", arg), i,
      if arg.Str? then IsOfType(arg.s, i) else arg.Arr? ==> OneNamed(arg.items, i))
  {
    hide Judged, Parse, WellKeyed, IsOfType, ParseTypeName, TypesNamed, TestPasses;
    OtherNames();
    LeafJudged(env, base, "type", Type, arg, i);
    if arg.Str? {
      TypesListed(env, [arg], i);
      assert [arg][0] == arg;
    } else if arg.Arr? {
      TypesListed(env, arg.items, i);
    }
  }

  /** `const`, unknown to draft 4, and `enum`. */
  lemma ValueKeywords(env: Env, base: Resolver, arg: Json, i: Json)
    requires WellKeyed(i)
    ensures Judged(env, base, Sole("const", arg), i, env.draft == Draft4 || i == arg)
    ensures Judged(env, base, Sole("enum", arg), i, arg.Arr? && i in arg.items)
  {
    hide Judged, Parse, WellKeyed;
    OtherNames();
    if env.draft == Draft4 {
      IgnoredJudged(env, base, "const", arg, i);
    } else {
      LeafJudged(env, base, "const", Const, arg, i);
    }
    LeafJudged(env, base, "enum", Enum, arg, i);
  }

  /** `pattern`, where a text that is no regex asks nothing, and `uniqueItems`. */
  lemma PatternAndUnique(env: Env, base: Resolver, arg: Json, i: Json)
    requires WellKeyed(i)
    ensures Judged(env, base, Sole("pattern", arg), i,
      arg.Str? && env.regexOk(arg.s) && i.Str? ==> env.regexMatches(arg.s, i.s))
    ensures Judged(env, base, Sole("uniqueItems", arg), i,
      arg == Bool(true) && i.Arr? ==> forall a, b :: 0 <= a < b < |i.items| ==> i.items[a] != i.items[b])
  {
    hide Judged, Parse, WellKeyed, CompileLeaf, PassesIfAny;
    OtherNames();
    PatternAndUniqueMean(env, [Member("pattern", arg)], arg, i);
    PatternAndUniqueMean(env, [Member("uniqueItems", arg)], arg, i);
    LeafJudged(env, base, "pattern", Pattern, arg, i);
    LeafJudged(env, base, "uniqueItems", UniqueItems, arg, i);
  }

  lemma PatternAndUniqueMean(env: Env, schema: seq<Member>, arg: Json, i: Json)
    ensures PassesIfAny(env, CompileLeaf(env, schema, Pattern, arg), i) <==>
      (arg.Str? && env.regexOk(arg.s) && i.Str? ==> env.regexMatches(arg.s, i.s))
    ensures PassesIfAny(env, CompileLeaf(env, schema, UniqueItems, arg), i) <==>
      (arg == Bool(true) && i.Arr? ==> forall a, b :: 0 <= a < b < |i.items| ==> i.items[a] != i.items[b])
  {
  }

  /** The object has a member of that name. */
  predicate Names(i: Json, name: string)
    requires i.Obj?
  {
    exists k :: 0 <= k < |i.members| && i.members[k].key == name
  }

  lemma NamesIffHas(i: Json, name: string)
    requires i.Obj?
    ensures Has(i.members, name) <==> Names(i, name)
  {
    var k := IndexFrom(i.members, name, 0);
    if k.Some? {
      assert i.members[k.value].key == name;
    }
  }

  lemma ListedPresent(items: seq<Json>, i: Json)
    requires i.Obj?
    ensures (forall k :: 0 <= k < |NamesIn(items)| ==> Has(i.members, NamesIn(items)[k])) <==>
      forall k :: 0 <= k < |items| && items[k].Str? ==> Names(i, items[k].s)
  {
    hide Has, Names;
    var names := NamesIn(items);
    forall name ensures Has(i.members, name) <==> Names(i, name) {
      NamesIffHas(i, name);
    }
    forall k | 0 <= k < |items| && items[k].Str? ensures items[k].s in names {
      assert Str(items[k].s) in items;
    }
    forall k | 0 <= k < |names| ensures Str(names[k]) in items {
      assert names[k] in names;
    }
    if forall k :: 0 <= k < |names| ==> Has(i.members, names[k]) {
      forall k | 0 <= k < |items| && items[k].Str? ensures Names(i, items[k].s) {
        var x :| 0 <= x < |names| && names[x] == items[k].s;
      }
    }
  }

  lemma RequiredMeans(env: Env, schema: seq<Member>, arg: Json, i: Json)
    ensures PassesIfAny(env, CompileLeaf(env, schema, Required, arg), i) <==>
      (i.Obj? && arg.Arr? ==> forall k :: 0 <= k < |arg.items| && arg.items[k].Str? ==> Names(i, arg.items[k].s))
  {
    hide Names, Has;
    if i.Obj? && arg.Arr? {
      ListedPresent(arg.items, i);
    }
  }

  /** `required`: every listed name that is a string. */
  lemma RequiredKeyword(env: Env, base: Resolver, arg: Json, i: Json)
    requires WellKeyed(i)
    ensures Judged(env, base, Sole("required", arg), i,
      i.Obj? && arg.Arr? ==> forall k :: 0 <= k < |arg.items| && arg.items[k].Str? ==> Names(i, arg.items[k].s))
  {
    hide Judged, Parse, WellKeyed, Names, Has, CompileLeaf, PassesIfAny;
    OtherNames();
    LeafJudged(env, base, "required", Required, arg, i);
    RequiredMeans(env, [Member("required", arg)], arg, i);
  }

  /** One entry of `dependentRequired`. */
  predicate Follows(dep: Member, i: Json)
    requires i.Obj?
  {
    Names(i, dep.key) && dep.value.Arr? ==>
      forall k :: 0 <= k < |dep.value.items| && dep.value.items[k].Str? ==> Names(i, dep.value.items[k].s)
  }

  ghost predicate AllMet(needs: seq<Needs>, i: Json)
    requires i.Obj?
  {
    forall k :: 0 <= k < |needs| ==> NeedMet(needs[k], i.members)
  }

  ghost predicate AllFollow(deps: seq<Member>, i: Json)
    requires i.Obj?
  {
    forall k :: 0 <= k < |deps| ==> Follows(deps[k], i)
  }

  lemma AllMetSplits(a: seq<Needs>, b: seq<Needs>, i: Json)
    requires i.Obj?
    ensures AllMet(a + b, i) <==> AllMet(a, i) && AllMet(b, i)
  {
    hide NeedMet;
    assert forall k :: 0 <= k < |a| ==> (a + b)[k] == a[k];
    assert forall k :: 0 <= k < |b| ==> (a + b)[|a| + k] == b[k];
  }

  lemma AllFollowFirst(deps: seq<Member>, i: Json)
    requires i.Obj? && deps != []
    ensures AllFollow(deps, i) <==> Follows(deps[0], i) && AllFollow(deps[1..], i)
  {
    hide Follows;
    assert forall k :: 0 < k < |deps| ==> deps[k] == deps[1..][k - 1];
    assert forall k :: 0 <= k < |deps[1..]| ==> deps[1..][k] == deps[k + 1];
  }

  lemma {:induction false} NeedsFollow(deps: seq<Member>, i: Json)
    requires i.Obj?
    ensures AllMet(NeedsIn(deps), i) <==> AllFollow(deps, i)
  {
    hide Follows, NeedMet, NamesIn;
    if deps != [] {
      hide AllMet, AllFollow;
      NeedsFollow(deps[1..], i);
      NeedFollows(deps[0], i);
      var dep := deps[0].value;
      var names := if dep.Arr? then NamesIn(dep.items) else [];
      AllMetSplits(if names != [] then [Needs(deps[0].key, names)] else [], NeedsIn(deps[1..]), i);
      AllFollowFirst(deps, i);
      OneMet(Needs(deps[0].key, names), i);
    }
  }

  lemma OneMet(need: Needs, i: Json)
    requires i.Obj?
    ensures AllMet([need], i) <==> NeedMet(need, i.members)
    ensures AllMet([], i)
  {
    hide NeedMet;
    assert [need][0] == need;
  }

  lemma NeedFollows(dep: Member, i: Json)
    requires i.Obj?
    ensures var names := if dep.value.Arr? then NamesIn(dep.value.items) else [];
      Follows(dep, i) <==> names == [] || NeedMet(Needs(dep.key, names), i.members)
  {
    hide Names, Has;
    NamesIffHas(i, dep.key);
    if dep.value.Arr? {
      ListedPresent(dep.value.items, i);
    }
  }

  /** `dependentRequired`, from draft 2019-09 on. */
  lemma DependentRequiredKeyword(env: Env, base: Resolver, arg: Json, i: Json)
    requires WellKeyed(i)
    ensures Judged(env, base, Sole("dependentRequired", arg), i,
      (env.draft == Draft201909 || env.draft == Draft202012) && i.Obj? && arg.Obj? ==>
        AllFollow(arg.members, i))
  {
    hide Judged, Parse, WellKeyed, Follows, NeedMet, NeedsIn;
    OtherNames();
    if env.draft == Draft201909 || env.draft == Draft202012 {
      LeafJudged(env, base, "dependentRequired", DependentRequired, arg, i);
      if i.Obj? {
        NeedsFollow(MembersOf(Some(arg)), i);
      }
    } else {
      IgnoredJudged(env, base, "dependentRequired", arg, i);
    }
  }

  // ----- what a draft does not know -----

  /** The modelled names each draft ignores, whatever their argument. */
  lemma IgnoredNames(env: Env, base: Resolver, name: string, arg: Json)
    requires match env.draft {
      case Draft4 => name in {"const", "minProperties", "maxProperties", "propertyNames", "contains", "if", "then",
        "else", "dependentRequired", "dependentSchemas", "prefixItems", "$dynamicRef", "$recursiveRef"}
      case Draft6 => name in {"if", "then", "else", "dependentRequired", "dependentSchemas", "prefixItems",
        "$dynamicRef", "$recursiveRef"}
      case Draft7 => name in {"dependentRequired", "dependentSchemas", "prefixItems", "$dynamicRef", "$recursiveRef"}
      case Draft201909 => name in {"dependencies", "prefixItems", "$dynamicRef"}
      case Draft202012 => name in {"dependencies", "$recursiveRef"}
    }
    ensures Compile(env, base, Sole(name, arg)) == (Ok(Validators([])), START)
  {
    NamesIgnored(env.draft, name);
    hide Parse, InVocabulary;
    NameIgnored(env, base, name, arg);
  }

  lemma NamesIgnored(draft: Draft, name: string)
    requires match draft {
      case Draft4 => name in {"const", "minProperties", "maxProperties", "propertyNames", "contains", "if", "then",
        "else", "dependentRequired", "dependentSchemas", "prefixItems", "$dynamicRef", "$recursiveRef"}
      case Draft6 => name in {"if", "then", "else", "dependentRequired", "dependentSchemas", "prefixItems",
        "$dynamicRef", "$recursiveRef"}
      case Draft7 => name in {"dependentRequired", "dependentSchemas", "prefixItems", "$dynamicRef", "$recursiveRef"}
      case Draft201909 => name in {"dependencies", "prefixItems", "$dynamicRef"}
      case Draft202012 => name in {"dependencies", "$recursiveRef"}
    }
    ensures !InVocabulary(draft, Parse(name)) && name != "$ref"
  {
  }
}
