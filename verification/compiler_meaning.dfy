/** Compilation against the meaning of the raw schema. One induction over the compiler covers both results:
    - strict: a well-formed schema compiles to a tree with exactly its meaning, references included;
    - not strict: whatever is dropped, cut at a cycle or cut at the depth limit, a positive schema only
      compiles to a wider tree. */
module CompilerMeaning {
  import opened JsonValues
  import opened Keywords
  import opened SchemaTree
  import opened SchemaMeaning
  import opened Compiler

  // ----- how a compiled piece relates to its source -----

  ghost predicate RelAt(strict: bool, n: nat, env: Env, base: Resolver, s: Json, t: Node, i: Json) {
    && (Eval(n, env, base, s, i) ==> Accepts(env, t, i))
    && (strict && Accepts(env, t, i) ==> Eval(n, env, base, s, i))
  }

  ghost predicate Rel(strict: bool, n: nat, env: Env, base: Resolver, s: Json, t: Node) {
    forall i :: RelAt(strict, n, env, base, s, t, i)
  }

  ghost predicate RelAll(strict: bool, n: nat, env: Env, base: Resolver, subs: seq<Json>, ts: seq<Node>) {
    |subs| == |ts| && forall x :: 0 <= x < |subs| ==> Rel(strict, n, env, base, subs[x], ts[x])
  }

  ghost predicate OptionRel(strict: bool, n: nat, env: Env, base: Resolver, sub: Option<Json>, t: Option<Node>) {
    sub.Some? == t.Some? && (sub.Some? ==> Rel(strict, n, env, base, sub.value, t.value))
  }

  predicate Passes(env: Env, v: Option<Validator>, i: Json) {
    v.Some? ==> Satisfies(env, v.value, i)
  }

  /** An entry's validator, or its absence: implied by what the entry says, and when strict no weaker. */
  ghost predicate EntryRel(strict: bool, n: nat, env: Env, base: Resolver, schema: seq<Member>, kw: Keyword, arg: Json,
        v: Option<Validator>, i: Json)
    requires n > 0
  {
    && (Holds(n, env, base, schema, kw, arg, i) ==> Passes(env, v, i))
    && (strict && Passes(env, v, i) ==> Holds(n, env, base, schema, kw, arg, i))
  }

  /** What the induction knows about a schema compiled at `depth`, while the references `open` are in progress, with
      `n` levels of meaning to match. */
  predicate Ready(strict: bool, n: nat, env: Env, open: set<string>, base: Resolver, s: Json, depth: nat, h: int) {
    if strict then h >= 0 && WellFormed(env, open, base, s, h) && depth + 2 * h <= MAX_DEPTH && n > h
    else depth <= MAX_DEPTH ==>
      h >= 0 && Positive(env, base, s, h) && 2 * h + depth >= MAX_DEPTH && 2 * n + depth >= MAX_DEPTH + 2
  }

  predicate EntryReady(strict: bool, n: nat, env: Env, open: set<string>, base: Resolver, schema: seq<Member>,
        kw: Keyword, arg: Json, depth: nat, h: int) {
    && n > 0 && h >= 0 && depth <= MAX_DEPTH
    && if strict then EntryWellFormed(env, open, base, schema, kw, arg, h) && depth + 2 * h <= MAX_DEPTH && n > h
       else EntryPositive(env, base, schema, kw, arg, h) && 2 * h + depth >= MAX_DEPTH && 2 * n + depth >= MAX_DEPTH + 2
  }

  predicate AllReady(strict: bool, n: nat, env: Env, open: set<string>, base: Resolver, subs: seq<Json>, depth: nat,
        h: int) {
    forall x :: 0 <= x < |subs| ==> Ready(strict, n, env, open, base, subs[x], depth, h)
  }

  lemma SubschemasReady(strict: bool, n: nat, env: Env, open: set<string>, base: Resolver, schema: seq<Member>,
        kw: Keyword, arg: Json, depth: nat, h: int)
    requires EntryReady(strict, n, env, open, base, schema, kw, arg, depth, h)
    ensures AllReady(strict, n - 1, env, open, base, Subschemas(env.draft, schema, kw, arg), depth + 2, h - 1)
  {
    var subs := Subschemas(env.draft, schema, kw, arg);
    forall x | 0 <= x < |subs| ensures Ready(strict, n - 1, env, open, base, subs[x], depth + 2, h - 1) {
    }
  }

  // ----- counting -----

  lemma CountsAgree(a: set<int>, b: set<int>, strict: bool)
    requires a <= b
    requires strict ==> a == b
    ensures |a| <= |b|
    ensures strict ==> |a| == |b|
  {
    assert b == a + (b - a);
  }

  // ----- one lemma for each keyword compiler that combines compiled subschemas -----

  /** The relations at one instance, ready for use by quantifier instantiation. */
  lemma AtAll(strict: bool, n: nat, env: Env, base: Resolver, subs: seq<Json>, ts: seq<Node>, i: Json)
    requires RelAll(strict, n, env, base, subs, ts)
    ensures forall x :: 0 <= x < |subs| ==> RelAt(strict, n, env, base, subs[x], ts[x], i)
  {
  }

  lemma PositionsRel(strict: bool, n: nat, env: Env, base: Resolver, subs: seq<Json>, ts: seq<Node>, i: Json)
    requires RelAll(strict, n, env, base, subs, ts)
    ensures MatchingSchemas(n, env, base, subs, i) <= AcceptingSchemas(env, ts, i)
    ensures strict ==> MatchingSchemas(n, env, base, subs, i) == AcceptingSchemas(env, ts, i)
  {
    AtAll(strict, n, env, base, subs, ts, i);
  }

  predicate AllIn(count: nat, positions: set<int>) {
    forall x :: 0 <= x < count ==> x in positions
  }

  lemma AllAccepting(env: Env, ts: seq<Node>, i: Json, accepting: set<int>)
    requires accepting == AcceptingSchemas(env, ts, i)
    ensures Satisfies(env, AllOfV(ts), i) <==> AllIn(|ts|, accepting)
  {
    assert Satisfies(env, AllOfV(ts), i) <==> forall x :: 0 <= x < |ts| ==> Accepts(env, ts[x], i);
    forall x | 0 <= x < |ts| ensures x in accepting <==> Accepts(env, ts[x], i) {
    }
  }

  lemma SomeAccepting(env: Env, ts: seq<Node>, i: Json, accepting: set<int>)
    requires accepting == AcceptingSchemas(env, ts, i)
    ensures Satisfies(env, AnyOfV(ts), i) <==> accepting != {}
  {
    assert Satisfies(env, AnyOfV(ts), i) <==> exists x :: 0 <= x < |ts| && Accepts(env, ts[x], i);
    forall x | 0 <= x < |ts| ensures x in accepting <==> Accepts(env, ts[x], i) {
    }
    assert forall x :: x in accepting ==> 0 <= x < |ts|;
  }

  lemma CombineMeans(env: Env, how: Combination, ts: seq<Node>, i: Json)
    ensures Satisfies(env, CombineAll(how, ts), i) <==>
      var accepting := AcceptingSchemas(env, ts, i);
      match how {
        case AllOf => AllIn(|ts|, accepting)
        case AnyOf => accepting != {}
        case OneOf => |accepting| == 1
      }
  {
    hide Accepts, AllIn;
    AllAccepting(env, ts, i, AcceptingSchemas(env, ts, i));
    SomeAccepting(env, ts, i, AcceptingSchemas(env, ts, i));
  }

  lemma CombineRel(strict: bool, n: nat, env: Env, base: Resolver, schema: seq<Member>, how: Combination, arg: Json,
        ts: seq<Node>, i: Json)
    requires n > 0 && arg.Arr? && (how == OneOf ==> strict)
    requires RelAll(strict, n - 1, env, base, arg.items, ts)
    ensures EntryRel(strict, n, env, base, schema, Combine(how), arg, Some(CombineAll(how, ts)), i)
  {
    hide Eval, Accepts, Satisfies, CombineAll, AcceptingSchemas;
    PositionsRel(strict, n - 1, env, base, arg.items, ts, i);
    CombineMeans(env, how, ts, i);
    hide MatchingSchemas;
  }

  lemma PrefixItemsRel(strict: bool, n: nat, env: Env, base: Resolver, schema: seq<Member>, arg: Json, ts: seq<Node>,
        i: Json)
    requires n > 0 && arg.Arr?
    requires RelAll(strict, n - 1, env, base, arg.items, ts)
    ensures EntryRel(strict, n, env, base, schema, PrefixItems, arg, Some(PrefixItemsV(ts)), i)
  {
    hide Eval, Accepts;
    var subs := arg.items;
    if i.Arr? {
      forall x | 0 <= x < |i.items| && x < |subs| ensures RelAt(strict, n - 1, env, base, subs[x], ts[x], i.items[x]) {
        AtAll(strict, n - 1, env, base, subs, ts, i.items[x]);
      }
    }
  }

  lemma NotRel(n: nat, env: Env, base: Resolver, schema: seq<Member>, arg: Json, t: Node, i: Json)
    requires n > 0
    requires IsSchema(arg) && Rel(true, n - 1, env, base, arg, t)
    ensures EntryRel(true, n, env, base, schema, Not, arg, Some(NotV(t)), i)
  {
    hide Eval, Accepts;
    assert RelAt(true, n - 1, env, base, arg, t, i);
  }

  lemma IfMeans(n: nat, env: Env, base: Resolver, schema: seq<Member>, arg: Json, i: Json)
    requires n > 0
    ensures Holds(n, env, base, schema, If, arg, i) <==>
      EvalOptional(n - 1, env, base, Get(schema, if Eval(n - 1, env, base, arg, i) then "then" else "else"), i)
  {
    hide Get;
  }

  lemma IfAccepts(env: Env, c: Node, thn: Option<Node>, els: Option<Node>, i: Json)
    ensures Satisfies(env, IfThenElse(c, thn, els), i) <==>
      AcceptsOptional(env, if Accepts(env, c, i) then thn else els, i)
  {
  }

  /** The conditional is compiled once for each of `if`, `then` and `else`, but means one thing: what the `if`
      entry says. */
  lemma ConditionalRel(n: nat, env: Env, base: Resolver, schema: seq<Member>, arg: Json, c: Node, thn: Option<Node>,
        els: Option<Node>, thnArg: Option<Json>, elsArg: Option<Json>, i: Json)
    requires n > 0 && thnArg == Get(schema, "then") && elsArg == Get(schema, "else")
    requires Rel(true, n - 1, env, base, arg, c)
    requires OptionRel(true, n - 1, env, base, thnArg, thn)
    requires OptionRel(true, n - 1, env, base, elsArg, els)
    ensures Holds(n, env, base, schema, If, arg, i) <==> Satisfies(env, IfThenElse(c, thn, els), i)
  {
    hide Eval, Accepts, Get, Holds, Satisfies, EvalOptional, AcceptsOptional;
    IfMeans(n, env, base, schema, arg, i);
    IfAccepts(env, c, thn, els, i);
    assert RelAt(true, n - 1, env, base, arg, c, i);
    OptionAt(n - 1, env, base, thnArg, thn, i);
    OptionAt(n - 1, env, base, elsArg, els, i);
  }

  lemma OptionAt(n: nat, env: Env, base: Resolver, sub: Option<Json>, t: Option<Node>, i: Json)
    requires OptionRel(true, n, env, base, sub, t)
    ensures EvalOptional(n, env, base, sub, i) <==> AcceptsOptional(env, t, i)
  {
    hide Eval, Accepts;
    if sub.Some? {
      assert RelAt(true, n, env, base, sub.value, t.value, i);
    }
  }

  lemma PropertiesRel(strict: bool, n: nat, env: Env, base: Resolver, schema: seq<Member>, arg: Json, ts: seq<Node>,
        i: Json)
    requires n > 0 && arg.Obj?
    requires RelAll(strict, n - 1, env, base, Values(arg.members), ts)
    ensures EntryRel(strict, n, env, base, schema, Properties, arg, Some(PropertiesV(Name(arg.members, ts))), i)
  {
    hide Eval, Accepts;
    var ms := arg.members;
    var props := Name(ms, ts);
    if i.Obj? {
      forall x | 0 <= x < |i.members|
        ensures Get(ms, i.members[x].key).Some? == Find(props, i.members[x].key).Some?
        ensures var found := Find(props, i.members[x].key);
          found.Some? ==>
            var sub, t := Get(ms, i.members[x].key).value, props[found.value].node;
            RelAt(strict, n - 1, env, base, sub, t, i.members[x].value)
      {
        FindIsIndex(ms, ts, i.members[x].key, 0);
        AtAll(strict, n - 1, env, base, Values(ms), ts, i.members[x].value);
      }
    }
  }

  /** The property table is read as the object it was compiled from. */
  lemma FindIsIndex(ms: seq<Member>, ts: seq<Node>, name: string, from: nat)
    requires |ms| == |ts| && from <= |ms|
    ensures FindFrom(Name(ms, ts), name, from) == IndexFrom(ms, name, from)
    decreases |ms| - from
  {
    if from < |ms| {
      FindIsIndex(ms, ts, name, from + 1);
    }
  }

  lemma PatternPropertiesRel(strict: bool, n: nat, env: Env, base: Resolver, schema: seq<Member>, arg: Json,
        ts: seq<Node>, i: Json)
    requires n > 0 && arg.Obj?
    requires RelAll(strict, n - 1, env, base, Values(arg.members), ts)
    ensures var v := PatternPropertiesV(Name(arg.members, ts));
      EntryRel(strict, n, env, base, schema, PatternProperties, arg, Some(v), i)
  {
    hide Eval, Accepts;
    var ms := arg.members;
    if i.Obj? {
      forall x, p | 0 <= x < |i.members| && 0 <= p < |ms|
        ensures RelAt(strict, n - 1, env, base, ms[p].value, ts[p], i.members[x].value)
      {
        AtAll(strict, n - 1, env, base, Values(ms), ts, i.members[x].value);
      }
    }
  }

  lemma UncoveredIsAdditional(env: Env, schema: seq<Member>, v: Validator, name: string)
    requires v.AdditionalPropertiesV? && v.defined == Keys(MembersOf(Get(schema, "properties")))
    requires v.patterns == ValidPatterns(env, MembersOf(Get(schema, "patternProperties")))
    ensures IsAdditional(env, v, name) <==> Uncovered(env, schema, name)
  {
    var ps := MembersOf(Get(schema, "patternProperties"));
    var ms := MembersOf(Get(schema, "properties"));
    assert name in Keys(ms) <==> Has(ms, name);
    if Uncovered(env, schema, name) {
      forall x | 0 <= x < |v.patterns| ensures !env.Matches(v.patterns[x], name) {
        assert v.patterns[x] in v.patterns;
        assert v.patterns[x] in Keys(ps);
      }
    } else if name !in v.defined {
      var p :| 0 <= p < |ps| && env.Matches(ps[p].key, name);
      assert ps[p].key in Keys(ps);
      assert ps[p].key in v.patterns;
    }
  }

  /** What a compiled `additionalProperties` asks, and what the keyword says, about one member. */
  lemma AdditionalPropertiesMean(n: nat, env: Env, base: Resolver, schema: seq<Member>, arg: Json, v: Validator,
        t: Node, i: Json)
    requires n > 0 && i.Obj? && v.AdditionalPropertiesV? && v.others.Some?
    requires t == if v.others.value.ExtraSchema? then v.others.value.node else AlwaysInvalid
    ensures Satisfies(env, v, i)
      <==> forall x :: 0 <= x < |i.members| && IsAdditional(env, v, i.members[x].key) ==>
        Accepts(env, t, i.members[x].value)
    ensures Holds(n, env, base, schema, AdditionalProperties, arg, i) <==>
      forall x :: 0 <= x < |i.members| && Uncovered(env, schema, i.members[x].key) ==>
        Eval(n - 1, env, base, arg, i.members[x].value)
  {
    hide IsAdditional, Uncovered;
  }

  lemma AdditionalPropertiesRel(strict: bool, n: nat, env: Env, base: Resolver, schema: seq<Member>, arg: Json,
        v: Validator, i: Json)
    requires n > 0
    requires v.AdditionalPropertiesV? && v.defined == Keys(MembersOf(Get(schema, "properties")))
    requires v.patterns == ValidPatterns(env, MembersOf(Get(schema, "patternProperties")))
    requires v.others.Some? ==>
      Rel(strict, n - 1, env, base, arg, if v.others.value.ExtraSchema? then v.others.value.node else AlwaysInvalid)
    requires strict ==> v.others.Some?
    ensures EntryRel(strict, n, env, base, schema, AdditionalProperties, arg, Some(v), i)
  {
    hide Eval, Accepts, Satisfies, Holds, Get, Keys, MembersOf, ValidPatterns, Uncovered, IsAdditional;
    if i.Obj? && v.others.Some? {
      var t := if v.others.value.ExtraSchema? then v.others.value.node else AlwaysInvalid;
      AdditionalPropertiesMean(n, env, base, schema, arg, v, t, i);
      forall x | 0 <= x < |i.members|
        ensures IsAdditional(env, v, i.members[x].key) <==> Uncovered(env, schema, i.members[x].key)
        ensures RelAt(strict, n - 1, env, base, arg, t, i.members[x].value)
      {
        UncoveredIsAdditional(env, schema, v, i.members[x].key);
      }
    } else {
      NothingAdditional(n, env, base, schema, arg, v, i);
    }
  }

  lemma NothingAdditional(n: nat, env: Env, base: Resolver, schema: seq<Member>, arg: Json, v: Validator, i: Json)
    requires n > 0 && v.AdditionalPropertiesV? && (!i.Obj? || v.others.None?)
    ensures Satisfies(env, v, i) && (!i.Obj? ==> Holds(n, env, base, schema, AdditionalProperties, arg, i))
  {
  }

  lemma PropertyNamesRel(strict: bool, n: nat, env: Env, base: Resolver, schema: seq<Member>, arg: Json, t: Node,
        i: Json)
    requires n > 0
    requires Rel(strict, n - 1, env, base, arg, t)
    ensures EntryRel(strict, n, env, base, schema, PropertyNames, arg, Some(PropertyNamesV(t)), i)
  {
    hide Eval, Accepts;
    if i.Obj? {
      forall x | 0 <= x < |i.members| ensures RelAt(strict, n - 1, env, base, arg, t, Str(i.members[x].key)) {
      }
    }
  }

  lemma DependentSchemasRel(strict: bool, n: nat, env: Env, base: Resolver, schema: seq<Member>, arg: Json,
        deps: seq<Member>, ts: seq<Node>, i: Json)
    requires n > 0 && arg.Obj?
    requires forall m :: m in deps <==> m in arg.members && IsSchema(m.value)
    requires RelAll(strict, n - 1, env, base, Values(deps), ts)
    ensures EntryRel(strict, n, env, base, schema, DependentSchemas, arg, Some(DependentSchemasV(Name(deps, ts))), i)
  {
    hide Eval, Accepts, Has;
    var ms := arg.members;
    if i.Obj? {
      AtAll(strict, n - 1, env, base, Values(deps), ts, i);
      forall p | 0 <= p < |deps|
        ensures deps[p] in ms && RelAt(strict, n - 1, env, base, deps[p].value, ts[p], i)
      {
        assert Values(deps)[p] == deps[p].value && deps[p] in deps;
      }
      forall q | 0 <= q < |ms| ensures ms[q] in deps || Eval(n - 1, env, base, ms[q].value, i) {
        assert ms[q] in ms;
        if !IsSchema(ms[q].value) {
          NoSchemaNoMeaning(n - 1, env, base, ms[q].value, i);
        }
      }
    }
  }

  lemma NoSchemaNoMeaning(n: nat, env: Env, base: Resolver, s: Json, i: Json)
    requires !IsSchema(s)
    ensures Eval(n, env, base, s, i)
  {
  }

  lemma IndexOfMember(deps: seq<Member>, m: Member) returns (p: nat)
    requires m in deps
    ensures p < |deps| && deps[p] == m
  {
    p :| p < |deps| && deps[p] == m;
  }

  lemma ContainsRel(strict: bool, n: nat, env: Env, base: Resolver, schema: seq<Member>, arg: Json, t: Node, i: Json)
    requires n > 0
    requires IsSchema(arg) && Rel(strict, n - 1, env, base, arg, t)
    requires strict || MaxContains(env.draft, schema).None?
    ensures var v := ContainsV(t, MinContains(env.draft, schema), MaxContains(env.draft, schema));
      EntryRel(strict, n, env, base, schema, Contains, arg, Some(v), i)
  {
    hide Eval, Accepts;
    if i.Arr? {
      forall x | 0 <= x < |i.items| ensures RelAt(strict, n - 1, env, base, arg, t, i.items[x]) {
      }
      CountsAgree(MatchingItems(n - 1, env, base, arg, i.items), AcceptedItems(env, t, i.items), strict);
    }
  }

  lemma ItemsRel(strict: bool, n: nat, env: Env, base: Resolver, schema: seq<Member>, arg: Json, t: Node, i: Json)
    requires n > 0 && !arg.Arr?
    requires Rel(strict, n - 1, env, base, arg, t)
    ensures EntryRel(strict, n, env, base, schema, Items, arg, Some(ItemsV(t, PrefixLength(env.draft, schema))), i)
  {
    hide Eval, Accepts;
    if i.Arr? {
      forall x: nat | x < |i.items|
        ensures PrefixCovers(env.draft, schema, x) <==> x < PrefixLength(env.draft, schema)
        ensures ItemHolds(n, env, base, schema, arg, x, i.items[x])
          <==> PrefixCovers(env.draft, schema, x) || Eval(n - 1, env, base, arg, i.items[x])
        ensures RelAt(strict, n - 1, env, base, arg, t, i.items[x])
      {
      }
    }
  }

  /** `items: true` and `items: false` before draft 2020-12. */
  lemma OldBooleanItemsRel(strict: bool, n: nat, env: Env, base: Resolver, schema: seq<Member>, arg: Json, i: Json)
    requires n > 0 && arg.Bool? && env.draft != Draft202012
    ensures var v := if arg.b then None else Some(TupleItems([], RejectAll));
      EntryRel(strict, n, env, base, schema, Items, arg, v, i)
  {
    if i.Arr? {
      forall x: nat | x < |i.items|
        ensures ItemHolds(n, env, base, schema, arg, x, i.items[x]) == arg.b
        ensures !TupleItemAccepted(env, TupleItems([], RejectAll), x, i.items[x])
      {
      }
    }
  }

  ghost predicate ExtraRel(strict: bool, n: nat, env: Env, base: Resolver, arg: Option<Json>, extra: ExtraItems) {
    match extra
    case AllowAny => strict && arg.Some? ==> arg.value != Bool(false) && !arg.value.Obj?
    case RejectAll => arg == Some(Bool(false))
    case ValidateExtra(t) => arg.Some? && Rel(strict, n, env, base, arg.value, t)
  }

  /** What the array form asks of one item, and what the compiled validator does. */
  lemma TupleItemRel(strict: bool, n: nat, env: Env, base: Resolver, schema: seq<Member>, arg: Json, ts: seq<Node>,
        extra: ExtraItems, x: nat, item: Json)
    requires n > 0 && arg.Arr? && env.draft != Draft202012
    requires RelAll(strict, n - 1, env, base, arg.items, ts)
    requires ExtraRel(strict, n - 1, env, base, Get(schema, "additionalItems"), extra)
    ensures var accepted := TupleItemAccepted(env, TupleItems(ts, extra), x, item);
      && (ItemHolds(n, env, base, schema, arg, x, item) ==> accepted)
      && (strict && accepted ==> ItemHolds(n, env, base, schema, arg, x, item))
  {
    var subs, extraArg := arg.items, Get(schema, "additionalItems");
    if x < |subs| {
      AtAll(strict, n - 1, env, base, subs, ts, item);
    } else if extra.ValidateExtra? {
      assert RelAt(strict, n - 1, env, base, extraArg.value, extra.node, item);
    } else if extra.RejectAll? {
      assert !Eval(n - 1, env, base, extraArg.value, item);
    }
    assert ItemHolds(n, env, base, schema, arg, x, item) <==>
      if x < |subs| then Eval(n - 1, env, base, subs[x], item) else EvalOptional(n - 1, env, base, extraArg, item);
  }

  lemma TupleItemsRel(strict: bool, n: nat, env: Env, base: Resolver, schema: seq<Member>, arg: Json, ts: seq<Node>,
        extra: ExtraItems, i: Json)
    requires n > 0 && arg.Arr? && env.draft != Draft202012
    requires RelAll(strict, n - 1, env, base, arg.items, ts)
    requires ExtraRel(strict, n - 1, env, base, Get(schema, "additionalItems"), extra)
    ensures EntryRel(strict, n, env, base, schema, Items, arg, Some(TupleItems(ts, extra)), i)
  {
    hide Eval, Accepts, Get, RelAll, ExtraRel, ItemHolds, TupleItemAccepted;
    if i.Arr? {
      forall x: nat | x < |i.items|
        ensures ItemHolds(n, env, base, schema, arg, x, i.items[x]) ==>
          TupleItemAccepted(env, TupleItems(ts, extra), x, i.items[x])
        ensures strict && TupleItemAccepted(env, TupleItems(ts, extra), x, i.items[x]) ==>
          ItemHolds(n, env, base, schema, arg, x, i.items[x])
      {
        TupleItemRel(strict, n, env, base, schema, arg, ts, extra, x, i.items[x]);
      }
    }
  }

  lemma ReferenceMeans(n: nat, env: Env, base: Resolver, schema: seq<Member>, kind: RefKind, arg: Json,
        target: Option<Target>, i: Json)
    requires n > 0 && arg.Str? && target == env.lookup(kind, base, arg.s) && target.Some?
    ensures Holds(n, env, base, schema, Reference(kind), arg, i)
      <==> Eval(n - 1, env, target.value.base, target.value.schema, i)
  {
    assert EvalTarget(n - 1, env, target, i) <==> Eval(n - 1, env, target.value.base, target.value.schema, i);
  }

  lemma ReferenceAccepts(env: Env, t: Node, i: Json)
    ensures Satisfies(env, RefV(t), i) <==> Accepts(env, t, i)
  {
  }

  lemma RefRel(strict: bool, n: nat, env: Env, base: Resolver, schema: seq<Member>, kind: RefKind, arg: Json, t: Node,
        i: Json)
    requires n > 0 && arg.Str? && env.lookup(kind, base, arg.s).Some?
    requires var target := env.lookup(kind, base, arg.s).value;
      Rel(strict, n - 1, env, target.base, target.schema, t)
    ensures EntryRel(strict, n, env, base, schema, Reference(kind), arg, Some(RefV(t)), i)
  {
    hide Eval, Accepts, Satisfies, Holds, EvalTarget;
    var target := env.lookup(kind, base, arg.s);
    ReferenceMeans(n, env, base, schema, kind, arg, target, i);
    ReferenceAccepts(env, t, i);
    assert RelAt(strict, n - 1, env, target.value.base, target.value.schema, t, i);
  }

  // ----- leaf keywords -----

  predicate AllPresent(names: seq<string>, members: seq<Member>) {
    forall x :: 0 <= x < |names| ==> Has(members, names[x])
  }

  lemma NamesPresentMeansAll(names: seq<Json>, i: Json)
    requires i.Obj?
    ensures NamesPresent(names, i) <==> AllPresent(NamesIn(names), i.members)
  {
    hide Has;
    var found := NamesIn(names);
    if NamesPresent(names, i) {
      forall x | 0 <= x < |found| ensures Has(i.members, found[x]) {
        assert found[x] in found;
        assert Str(found[x]) in names;
      }
    } else {
      var x :| 0 <= x < |names| && names[x].Str? && !Has(i.members, names[x].s);
      assert names[x] == Str(names[x].s) && Str(names[x].s) in names;
      assert names[x].s in found;
      var y :| 0 <= y < |found| && found[y] == names[x].s;
      assert !Has(i.members, found[y]);
    }
  }

  lemma TypeNameMeansType(name: Json, i: Json)
    ensures HasTypeNamed(name, i) <==>
      name.Str? && (
        TypeOf(i) in ParseTypeName(name.s) || (TypeOf(i) == IntegerType && NumberType in ParseTypeName(name.s)))
  {
  }

  lemma {:induction false} TypesNamedMeansTypes(env: Env, names: seq<Json>, i: Json)
    ensures TestPasses(env, TypeIn(TypesNamed(names)), i) <==> exists x :: 0 <= x < |names| && HasTypeNamed(names[x], i)
  {
    if names != [] {
      TypeNameMeansType(names[0], i);
      TypesNamedMeansTypes(env, names[1..], i);
      assert forall x :: 0 < x < |names| ==> names[x] == names[1..][x - 1];
      assert forall x :: 0 <= x < |names[1..]| ==> names[1..][x] == names[x + 1];
    }
  }

  lemma TypeCompiles(env: Env, schema: seq<Member>, arg: Json, i: Json)
    ensures var test := CompileLeaf(env, schema, Type, arg);
      LeafMeans(env, schema, Type, arg, i) <==> (test.Some? ==> TestPasses(env, test.value, i))
  {
    hide HasTypeNamed, TypesNamed, TestPasses;
    var names := if arg.Arr? then arg.items else [arg];
    TypesNamedMeansTypes(env, names, i);
    assert arg.Str? ==> ((exists x :: 0 <= x < |names| && HasTypeNamed(names[x], i)) <==> HasTypeNamed(names[0], i));
  }

  lemma RequiredCompiles(env: Env, schema: seq<Member>, arg: Json, i: Json)
    ensures var test := CompileLeaf(env, schema, Required, arg);
      LeafMeans(env, schema, Required, arg, i) <==> (test.Some? ==> TestPasses(env, test.value, i))
  {
    hide NamesIn, NamesPresent, Has;
    if i.Obj? && arg.Arr? {
      NamesPresentMeansAll(arg.items, i);
      var names := NamesIn(arg.items);
      assert CompileLeaf(env, schema, Required, arg) == Some(RequiresNames(names));
      assert TestPasses(env, RequiresNames(names), i) <==> AllPresent(names, i.members);
    }
  }

  predicate NeedsMet(needs: seq<Needs>, members: seq<Member>) {
    forall k :: 0 <= k < |needs| ==> NeedMet(needs[k], members)
  }

  predicate RequirementsHold(deps: seq<Member>, i: Json)
    requires i.Obj?
  {
    forall p :: 0 <= p < |deps| ==> RequirementHolds(deps[p], i)
  }

  lemma RequirementsSplit(deps: seq<Member>, i: Json)
    requires i.Obj? && deps != []
    ensures RequirementsHold(deps, i) <==> RequirementHolds(deps[0], i) && RequirementsHold(deps[1..], i)
  {
    hide RequirementHolds;
    assert forall p :: 0 < p < |deps| ==> deps[p] == deps[1..][p - 1];
    assert forall p :: 0 <= p < |deps[1..]| ==> deps[1..][p] == deps[p + 1];
  }

  lemma NeedsSplit(first: Needs, rest: seq<Needs>, members: seq<Member>)
    ensures NeedsMet([first] + rest, members) <==> NeedMet(first, members) && NeedsMet(rest, members)
  {
    hide NeedMet;
    var needs := [first] + rest;
    assert needs[0] == first;
    assert forall k :: 0 < k < |needs| ==> needs[k] == rest[k - 1];
    assert forall k :: 0 <= k < |rest| ==> rest[k] == needs[k + 1];
  }

  lemma {:induction false} NeedsMeanRequirements(deps: seq<Member>, i: Json)
    requires i.Obj?
    ensures NeedsMet(NeedsIn(deps), i.members) <==> RequirementsHold(deps, i)
  {
    if deps == [] {
      assert NeedsIn(deps) == [];
    } else {
      hide NeedMet, RequirementHolds, NeedsMet, RequirementsHold, NamesIn;
      NeedsMeanRequirements(deps[1..], i);
      RequirementsSplit(deps, i);
      FirstNeed(deps[0], i);
      var names := if deps[0].value.Arr? then NamesIn(deps[0].value.items) else [];
      NeedsSplit(Needs(deps[0].key, names), NeedsIn(deps[1..]), i.members);
      assert [] + NeedsIn(deps[1..]) == NeedsIn(deps[1..]);
    }
  }

  lemma FirstNeed(dep: Member, i: Json)
    requires i.Obj?
    ensures var names := if dep.value.Arr? then NamesIn(dep.value.items) else [];
      RequirementHolds(dep, i) <==> NeedMet(Needs(dep.key, names), i.members)
    ensures !dep.value.Arr? || NamesIn(dep.value.items) == [] ==> RequirementHolds(dep, i)
  {
    hide NamesIn, NamesPresent, Has;
    if dep.value.Arr? {
      NamesPresentMeansAll(dep.value.items, i);
    }
  }

  lemma DependentRequiredCompiles(env: Env, schema: seq<Member>, arg: Json, i: Json)
    ensures var test := CompileLeaf(env, schema, DependentRequired, arg);
      LeafMeans(env, schema, DependentRequired, arg, i) <==> (test.Some? ==> TestPasses(env, test.value, i))
  {
    hide NeedMet, RequirementHolds, NeedsIn;
    if i.Obj? {
      var deps := MembersOf(Some(arg));
      NeedsMeanRequirements(deps, i);
      assert TestPasses(env, RequiresWith(NeedsIn(deps)), i) <==> NeedsMet(NeedsIn(deps), i.members);
    }
  }

  predicate IsBound(plain: Plain) {
    plain == Minimum || plain == Maximum || plain == ExclusiveMinimum || plain == ExclusiveMaximum
  }

  lemma BoundCompiles(env: Env, schema: seq<Member>, plain: Plain, arg: Json, i: Json)
    requires IsBound(plain)
    ensures var test := CompileLeaf(env, schema, plain, arg);
      LeafMeans(env, schema, plain, arg, i) <==> (test.Some? ==> TestPasses(env, test.value, i))
  {
    hide Draft4Exclusive, RealOr;
  }

  predicate IsCount(plain: Plain) {
    plain == MinLength || plain == MaxLength || plain == MinItems || plain == MaxItems
      || plain == MinProperties || plain == MaxProperties
  }

  lemma CountCompiles(env: Env, schema: seq<Member>, plain: Plain, arg: Json, i: Json)
    requires IsCount(plain)
    ensures var test := CompileLeaf(env, schema, plain, arg);
      LeafMeans(env, schema, plain, arg, i) <==> (test.Some? ==> TestPasses(env, test.value, i))
  {
    hide NatOr;
  }

  lemma LeafCompiles(env: Env, schema: seq<Member>, plain: Plain, arg: Json, i: Json)
    ensures var test := CompileLeaf(env, schema, plain, arg);
      LeafMeans(env, schema, plain, arg, i) <==> (test.Some? ==> TestPasses(env, test.value, i))
  {
    if IsBound(plain) {
      BoundCompiles(env, schema, plain, arg, i);
    } else if IsCount(plain) {
      CountCompiles(env, schema, plain, arg, i);
    } else if plain == Type {
      TypeCompiles(env, schema, arg, i);
    } else if plain == Required {
      RequiredCompiles(env, schema, arg, i);
    } else if plain == DependentRequired {
      DependentRequiredCompiles(env, schema, arg, i);
    }
  }

  lemma LeafRel(strict: bool, n: nat, env: Env, base: Resolver, schema: seq<Member>, plain: Plain, arg: Json,
        v: Option<Validator>, i: Json)
    requires n > 0
    requires var test := CompileLeaf(env, schema, plain, arg);
      v == if test.Some? then Some(Assertion(test.value)) else None
    ensures EntryRel(strict, n, env, base, schema, Leaf(plain), arg, v, i)
  {
    hide Eval, Accepts, CompileLeaf, LeafMeans, TestPasses;
    LeafCompiles(env, schema, plain, arg, i);
  }
}
