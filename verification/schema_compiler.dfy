/** The compiler as it runs: contexts that share one mutable in-progress set, loops that push into vectors, early
    returns. Every method is proved against the state-passing function of the same name in `Compiler`. */
module SchemaCompiler {
  import opened JsonValues
  import opened Keywords
  import opened SchemaTree
  import opened SchemaMeaning
  import C = Compiler

  /** The set of references being compiled, shared by every sub-context. The ghost fields record what the results
      about compilation speak of. */
  class InProgress {
    var keys: set<string>
    ghost var inFlight: seq<string>
    ghost var stacks: seq<seq<string>>
    ghost var tooDeep: nat
    ghost var broken: nat
    ghost var cuts: nat

    constructor ()
      ensures State() == C.START
    {
      keys := {};
      inFlight, stacks, tooDeep, broken, cuts := [], [], 0, 0, 0;
    }

    ghost function State(): C.State
      reads this
    {
      C.State(keys, inFlight, stacks, tooDeep, broken, cuts)
    }

    method Mark(key: string)
      modifies this
      ensures State() == old(State()).Mark(key)
    {
      keys := keys + {key};
      inFlight := inFlight + [key];
      stacks := stacks + [inFlight];
    }

    method Done(key: string, ghost outer: seq<string>)
      modifies this
      ensures State() == old(State()).Done(key, outer)
    {
      keys := keys - {key};
      inFlight := outer;
    }

    ghost method Abandon(outer: seq<string>)
      modifies this`inFlight, this`broken
      ensures State() == old(State()).Abandon(outer)
    {
      inFlight := outer;
      broken := broken + 1;
    }

    ghost method Cut()
      modifies this`cuts
      ensures State() == old(State()).Cut()
    {
      cuts := cuts + 1;
    }

    ghost method RejectDepth()
      modifies this`tooDeep
      ensures State() == old(State()).(tooDeep := old(tooDeep) + 1)
    {
      tooDeep := tooDeep + 1;
    }
  }

  /** `CompilerContext` */
  datatype Context = Context(env: Env, base: Resolver, depth: nat, progress: InProgress)
  {
    function PushKeyword(): Context {
      this.(depth := depth + 1)
    }

    function WithResolver(newBase: Resolver): Context {
      this.(base := newBase, depth := depth + 1)
    }
  }

  /** A loop that has pushed `done` and has `rest` ahead of it. */
  ghost predicate Ahead<T>(whole: (seq<T>, C.State), done: seq<T>, rest: (seq<T>, C.State)) {
    whole.0 == done + rest.0 && whole.1 == rest.1
  }

  ghost predicate AheadUnlessFailed<T>(whole: (Option<seq<T>>, C.State), done: seq<T>, rest: (Option<seq<T>>,
        C.State)) {
    && (whole.0.Some? <==> rest.0.Some?)
    && (whole.0.Some? ==> whole.0.value == done + rest.0.value)
    && whole.1 == rest.1
  }

  /** `compile`: the root schema's own identifier is the base URI. */
  method Compile(env: Env, s: Json) returns (r: C.Result<Node>)
    ensures r == C.Compile(env, C.Root(env.draft, s), s).0
  {
    var uri := "";
    if s.Obj? {
      var id := Get(s.members, C.IdKeyword(env.draft));
      if id.Some? && id.value.Str? {
        uri := id.value.s;
        if uri != [] && uri[|uri| - 1] == '#' {
          uri := uri[..|uri| - 1];
        }
      }
    }
    var progress := new InProgress();
    r := CompileNode(Context(env, Resolver(uri, []), 0, progress), s);
  }

  method CompileNode(ctx: Context, s: Json) returns (r: C.Result<Node>)
    modifies ctx.progress
    ensures (r, ctx.progress.State()) == C.CompileNode(ctx.env, ctx.base, s, ctx.depth, old(ctx.progress.State()))
    decreases C.Remaining(ctx.depth), 4
  {
    if ctx.depth > C.MAX_DEPTH {
      ctx.progress.RejectDepth();
      return C.Err(C.TooDeep);
    }
    match s
    case Bool(b) =>
      return C.Ok(if b then AlwaysValid else AlwaysInvalid);
    case Obj(schema) =>
      var validators := CompileEntries(ctx, schema);
      return C.Ok(Validators(validators));
    case _ =>
      return C.Err(C.NotASchema);
  }

  lemma NextEntry(env: Env, base: Resolver, schema: seq<Member>, k: nat, depth: nat, st: C.State, v: Option<Validator>,
        st1: C.State)
    requires k < |schema| && depth <= C.MAX_DEPTH
    requires (v, st1)
      == C.CompileKeyword(env, base, schema, Active(env.draft, schema, schema[k].key), schema[k].value, depth, st)
    ensures Ahead(C.CompileEntries(env, base, schema, k, depth, st), if v.Some? then [v.value] else [],
      C.CompileEntries(env, base, schema, k + 1, depth, st1))
  {
    hide C.CompileKeyword, Active;
  }

  lemma SuppressedEntry(env: Env, base: Resolver, schema: seq<Member>, key: string, arg: Json, depth: nat, st: C.State)
    requires Suppressed(env.draft, schema, key) && depth <= C.MAX_DEPTH
    ensures C.CompileKeyword(env, base, schema, Active(env.draft, schema, key), arg, depth, st) == (None, st)
  {
  }

  lemma AheadTwice<T>(whole: (seq<T>, C.State), done: seq<T>, middle: (seq<T>, C.State), more: seq<T>, rest: (seq<T>,
        C.State))
    requires Ahead(whole, done, middle) && Ahead(middle, more, rest)
    ensures Ahead(whole, done + more, rest)
  {
  }

  /** The keyword loop of `compile_node`. */
  method CompileEntries(ctx: Context, schema: seq<Member>) returns (validators: seq<Validator>)
    requires ctx.depth <= C.MAX_DEPTH
    modifies ctx.progress
    ensures (validators, ctx.progress.State()) ==
      C.CompileEntries(ctx.env, ctx.base, schema, 0, ctx.depth, old(ctx.progress.State()))
    decreases C.Remaining(ctx.depth), 3
  {
    hide C.CompileKeyword, Active;
    ghost var whole := C.CompileEntries(ctx.env, ctx.base, schema, 0, ctx.depth, ctx.progress.State());
    validators := [];
    var hasRef := Has(schema, "$ref");
    for k := 0 to |schema|
      invariant Ahead(whole, validators,
        C.CompileEntries(ctx.env, ctx.base, schema, k, ctx.depth, ctx.progress.State()))
    {
      ghost var st := ctx.progress.State();
      var key, value := schema[k].key, schema[k].value;
      var result: Option<Validator> := None;
      if ctx.env.draft == Draft202012 || !hasRef || key == "$ref" {
        result := CompileKeyword(ctx.PushKeyword(), schema, key, value);
      } else {
        SuppressedEntry(ctx.env, ctx.base, schema, key, value, ctx.depth, st);
      }
      NextEntry(ctx.env, ctx.base, schema, k, ctx.depth, st, result, ctx.progress.State());
      AheadTwice(whole, validators, C.CompileEntries(ctx.env, ctx.base, schema, k, ctx.depth, st),
        if result.Some? then [result.value] else [],
        C.CompileEntries(ctx.env, ctx.base, schema, k + 1, ctx.depth, ctx.progress.State()));
      if result.Some? {
        validators := validators + [result.value];
      } else {
        assert validators + [] == validators;
      }
    }
    assert validators + [] == validators;
  }

  /** Skips a keyword outside the vocabulary, and dispatches on the others. The context is already one deeper than
      the schema object. */
  method CompileKeyword(ctx: Context, schema: seq<Member>, key: string, arg: Json) returns (v: Option<Validator>)
    requires 0 < ctx.depth <= C.MAX_DEPTH + 1 && !Suppressed(ctx.env.draft, schema, key)
    modifies ctx.progress
    ensures (v, ctx.progress.State()) ==
      C.CompileKeyword(ctx.env, ctx.base, schema, Active(ctx.env.draft, schema, key), arg, ctx.depth - 1,
        old(ctx.progress.State()))
    decreases C.Remaining(ctx.depth - 1), 2
  {
    hide C.CompileCombination, C.CompileNot, C.CompileConditional, C.CompileProperties, C.CompilePatternProperties,
      C.CompileAdditionalProperties, C.CompileDependentSchemas, C.CompileDependencies, C.CompileItems,
      C.CompilePrefixItems,
      C.CompileContains, C.CompilePropertyNames, C.CompileRef, C.CompileLeaf, InVocabulary, Parse;
    var kw := Parse(key);
    if !InVocabulary(ctx.env.draft, kw) {
      return None;
    }
    match kw
    case Combine(how) => v := CompileCombination(ctx, how, arg);
    case Not => v := CompileNot(ctx, arg);
    case If => v := CompileConditional(ctx, schema);
    case Branch => v := CompileConditional(ctx, schema);
    case Properties => v := CompileProperties(ctx, arg);
    case PatternProperties => v := CompilePatternProperties(ctx, arg);
    case AdditionalProperties => v := CompileAdditionalProperties(ctx, schema, arg);
    case DependentSchemas => v := CompileDependentSchemas(ctx, arg);
    case Dependencies => v := CompileDependencies(ctx, arg);
    case Items => v := CompileItems(ctx, schema, arg);
    case PrefixItems => v := CompilePrefixItems(ctx, arg);
    case Contains => v := CompileContains(ctx, schema, arg);
    case PropertyNames => v := CompilePropertyNames(ctx, arg);
    case Reference(kind) => v := CompileRef(ctx, kind, arg);
    case Leaf(plain) =>
      var test := C.CompileLeaf(ctx.env, schema, plain, arg);
      v := if test.Some? then Some(Assertion(test.value)) else None;
    case Unmodelled => v := None;
  }

  method CompileOne(ctx: Context, sub: Json) returns (r: Option<Node>)
    modifies ctx.progress
    ensures (r, ctx.progress.State()) == C.CompileOne(ctx.env, ctx.base, sub, ctx.depth + 1, old(ctx.progress.State()))
    decreases C.Remaining(ctx.depth + 1), 5
  {
    var node := CompileNode(ctx.PushKeyword(), sub);
    r := if node.Ok? then Some(node.value) else None;
  }

  /** The loop of the keyword compilers over a list: it gives up at the first subschema that fails. */
  method CompileEach(ctx: Context, subs: seq<Json>) returns (nodes: Option<seq<Node>>)
    modifies ctx.progress
    ensures (nodes, ctx.progress.State())
      == C.CompileAll(ctx.env, ctx.base, subs, ctx.depth + 1, old(ctx.progress.State()))
    decreases C.Remaining(ctx.depth + 1), 6
  {
    ghost var st := ctx.progress.State();
    var schemas: seq<Node> := [];
    for k := 0 to |subs|
      invariant AheadUnlessFailed(C.CompileAll(ctx.env, ctx.base, subs, ctx.depth + 1, st), schemas,
        C.CompileAll(ctx.env, ctx.base, subs[k..], ctx.depth + 1, ctx.progress.State()))
    {
      var node := CompileNode(ctx.PushKeyword(), subs[k]);
      assert subs[k..] == [subs[k]] + subs[k + 1..];
      if node.Err? {
        return None;
      }
      schemas := schemas + [node.value];
    }
    assert subs[|subs|..] == [] && schemas + [] == schemas;
    nodes := Some(schemas);
  }

  method CompileCombination(ctx: Context, how: Combination, arg: Json) returns (v: Option<Validator>)
    modifies ctx.progress
    ensures (v, ctx.progress.State())
      == C.CompileCombination(ctx.env, ctx.base, how, arg, ctx.depth + 1, old(ctx.progress.State()))
    decreases C.Remaining(ctx.depth + 1), 7
  {
    if !arg.Arr? {
      return None;
    }
    var nodes := CompileEach(ctx, arg.items);
    v := if nodes.Some? then Some(C.CombineAll(how, nodes.value)) else None;
  }

  method CompilePrefixItems(ctx: Context, arg: Json) returns (v: Option<Validator>)
    modifies ctx.progress
    ensures (v, ctx.progress.State())
      == C.CompilePrefixItems(ctx.env, ctx.base, arg, ctx.depth + 1, old(ctx.progress.State()))
    decreases C.Remaining(ctx.depth + 1), 7
  {
    if !arg.Arr? {
      return None;
    }
    var nodes := CompileEach(ctx, arg.items);
    v := if nodes.Some? then Some(PrefixItemsV(nodes.value)) else None;
  }

  method CompileProperties(ctx: Context, arg: Json) returns (v: Option<Validator>)
    modifies ctx.progress
    ensures (v, ctx.progress.State())
      == C.CompileProperties(ctx.env, ctx.base, arg, ctx.depth + 1, old(ctx.progress.State()))
    decreases C.Remaining(ctx.depth + 1), 7
  {
    if !arg.Obj? {
      return None;
    }
    var nodes := CompileEach(ctx, Values(arg.members));
    v := if nodes.Some? then Some(PropertiesV(C.Name(arg.members, nodes.value))) else None;
  }

  method CompileDependentSchemas(ctx: Context, arg: Json) returns (v: Option<Validator>)
    modifies ctx.progress
    ensures (v, ctx.progress.State())
      == C.CompileDependentSchemas(ctx.env, ctx.base, arg, ctx.depth + 1, old(ctx.progress.State()))
    decreases C.Remaining(ctx.depth + 1), 7
  {
    if !arg.Obj? {
      return None;
    }
    var deps := C.SchemaMembers(arg.members);
    var nodes := CompileEach(ctx, Values(deps));
    v := if nodes.Some? && deps != [] then Some(DependentSchemasV(C.Name(deps, nodes.value))) else None;
  }

  method CompileNot(ctx: Context, arg: Json) returns (v: Option<Validator>)
    modifies ctx.progress
    ensures (v, ctx.progress.State()) == C.CompileNot(ctx.env, ctx.base, arg, ctx.depth + 1, old(ctx.progress.State()))
    decreases C.Remaining(ctx.depth + 1), 7
  {
    var node := CompileOne(ctx, arg);
    v := if node.Some? then Some(NotV(node.value)) else None;
  }

  method CompileContains(ctx: Context, schema: seq<Member>, arg: Json) returns (v: Option<Validator>)
    modifies ctx.progress
    ensures (v, ctx.progress.State())
      == C.CompileContains(ctx.env, ctx.base, schema, arg, ctx.depth + 1, old(ctx.progress.State()))
    decreases C.Remaining(ctx.depth + 1), 7
  {
    var node := CompileOne(ctx, arg);
    if node.None? {
      return None;
    }
    var min, max := 1, None;
    if CountsContains(ctx.env.draft) {
      var minArg, maxArg := Get(schema, "minContains"), Get(schema, "maxContains");
      if minArg.Some? && ToU64(minArg.value).Some? {
        min := ToU64(minArg.value).value;
      }
      if maxArg.Some? {
        max := ToU64(maxArg.value);
      }
    }
    v := Some(ContainsV(node.value, min, max));
  }

  method CompilePropertyNames(ctx: Context, arg: Json) returns (v: Option<Validator>)
    modifies ctx.progress
    ensures (v, ctx.progress.State())
      == C.CompilePropertyNames(ctx.env, ctx.base, arg, ctx.depth + 1, old(ctx.progress.State()))
    decreases C.Remaining(ctx.depth + 1), 7
  {
    var node := CompileOne(ctx, arg);
    v := Some(PropertyNamesV(if node.Some? then node.value else AlwaysValid));
  }

  method CompilePatternProperties(ctx: Context, arg: Json) returns (v: Option<Validator>)
    modifies ctx.progress
    ensures (v, ctx.progress.State())
      == C.CompilePatternProperties(ctx.env, ctx.base, arg, ctx.depth + 1, old(ctx.progress.State()))
    decreases C.Remaining(ctx.depth + 1), 7
  {
    if !arg.Obj? {
      return None;
    }
    var nodes := CompilePatterns(ctx, arg.members);
    v := if nodes.Some? then Some(PatternPropertiesV(C.Name(arg.members, nodes.value))) else None;
  }

  method CompilePatterns(ctx: Context, members: seq<Member>) returns (nodes: Option<seq<Node>>)
    modifies ctx.progress
    ensures (nodes, ctx.progress.State())
      == C.CompilePatterns(ctx.env, ctx.base, members, ctx.depth + 1, old(ctx.progress.State()))
    decreases C.Remaining(ctx.depth + 1), 6
  {
    hide C.CompileOne;
    ghost var whole := C.CompilePatterns(ctx.env, ctx.base, members, ctx.depth + 1, ctx.progress.State());
    var schemas: seq<Node> := [];
    assert members[0..] == members;
    for k := 0 to |members|
      invariant AheadUnlessFailed(whole, schemas,
        C.CompilePatterns(ctx.env, ctx.base, members[k..], ctx.depth + 1, ctx.progress.State()))
    {
      assert members[k..] == [members[k]] + members[k + 1..];
      if !ctx.env.regexOk(members[k].key) {
        return None;
      }
      var node := CompileOne(ctx, members[k].value);
      if node.None? {
        return None;
      }
      schemas := schemas + [node.value];
    }
    assert members[|members|..] == [] && schemas + [] == schemas;
    nodes := Some(schemas);
  }

  method CompileDependencies(ctx: Context, arg: Json) returns (v: Option<Validator>)
    modifies ctx.progress
    ensures (v, ctx.progress.State())
      == C.CompileDependencies(ctx.env, ctx.base, arg, ctx.depth + 1, old(ctx.progress.State()))
    decreases C.Remaining(ctx.depth + 1), 7
  {
    if !arg.Obj? {
      return None;
    }
    var deps := CompileDependencyList(ctx, arg.members);
    v := if deps == [] then None else Some(DependenciesV(deps));
  }

  method CompileDependencyList(ctx: Context, members: seq<Member>) returns (deps: seq<Dependency>)
    modifies ctx.progress
    ensures (deps, ctx.progress.State())
      == C.CompileDependencyList(ctx.env, ctx.base, members, ctx.depth + 1, old(ctx.progress.State()))
    decreases C.Remaining(ctx.depth + 1), 6
  {
    hide C.CompileOne;
    ghost var whole := C.CompileDependencyList(ctx.env, ctx.base, members, ctx.depth + 1, ctx.progress.State());
    deps := [];
    assert members[0..] == members;
    for k := 0 to |members|
      invariant Ahead(whole, deps,
        C.CompileDependencyList(ctx.env, ctx.base, members[k..], ctx.depth + 1, ctx.progress.State()))
    {
      assert members[k..] == [members[k]] + members[k + 1..];
      var name, dep := members[k].key, members[k].value;
      if dep.Arr? {
        var names := C.NamesIn(dep.items);
        if names != [] {
          deps := deps + [NeedsNames(name, names)];
        }
      } else if IsSchema(dep) {
        var node := CompileOne(ctx, dep);
        if node.Some? {
          deps := deps + [NeedsSchema(name, node.value)];
        }
      }
    }
    assert members[|members|..] == [] && deps + [] == deps;
  }

  method CompileOptional(ctx: Context, sub: Option<Json>) returns (r: Option<Option<Node>>)
    modifies ctx.progress
    ensures (r, ctx.progress.State())
      == C.CompileOptional(ctx.env, ctx.base, sub, ctx.depth + 1, old(ctx.progress.State()))
    decreases C.Remaining(ctx.depth + 1), 6
  {
    if sub.None? {
      return Some(None);
    }
    var node := CompileOne(ctx, sub.value);
    r := if node.Some? then Some(node) else None;
  }

  method CompileConditional(ctx: Context, schema: seq<Member>) returns (v: Option<Validator>)
    modifies ctx.progress
    ensures (v, ctx.progress.State())
      == C.CompileConditional(ctx.env, ctx.base, schema, ctx.depth + 1, old(ctx.progress.State()))
    decreases C.Remaining(ctx.depth + 1), 7
  {
    var ifArg := Get(schema, "if");
    if ifArg.None? {
      return None;
    }
    var cond := CompileOne(ctx, ifArg.value);
    if cond.None? {
      return None;
    }
    var thn := CompileOptional(ctx, Get(schema, "then"));
    if thn.None? {
      return None;
    }
    var els := CompileOptional(ctx, Get(schema, "else"));
    v := if els.Some? then Some(IfThenElse(cond.value, thn.value, els.value)) else None;
  }

  method CompileAdditionalProperties(ctx: Context, schema: seq<Member>, arg: Json) returns (v: Option<Validator>)
    modifies ctx.progress
    ensures (v, ctx.progress.State()) ==
      C.CompileAdditionalProperties(ctx.env, ctx.base, schema, arg, ctx.depth + 1, old(ctx.progress.State()))
    decreases C.Remaining(ctx.depth + 1), 7
  {
    var defined := Keys(MembersOf(Get(schema, "properties")));
    var patterns := C.ValidPatterns(ctx.env, MembersOf(Get(schema, "patternProperties")));
    var others: Option<ExtraProperties> := None;
    if arg.Bool? {
      others := Some(if arg.b then ExtraSchema(AlwaysValid) else RejectExtra);
    } else if arg.Obj? || arg.Arr? {
      var node := CompileOne(ctx, arg);
      if node.None? {
        return None;
      }
      others := Some(ExtraSchema(node.value));
    }
    v := Some(AdditionalPropertiesV(others, defined, patterns));
  }

  method CompileItems(ctx: Context, schema: seq<Member>, arg: Json) returns (v: Option<Validator>)
    modifies ctx.progress
    ensures (v, ctx.progress.State())
      == C.CompileItems(ctx.env, ctx.base, schema, arg, ctx.depth + 1, old(ctx.progress.State()))
    decreases C.Remaining(ctx.depth + 1), 7
  {
    if arg.Arr? {
      if ctx.env.draft == Draft202012 {
        return None;
      }
      var nodes := CompileEach(ctx, arg.items);
      if nodes.None? {
        return None;
      }
      var extra := CompileAdditionalSchema(ctx, Get(schema, "additionalItems"));
      v := Some(TupleItems(nodes.value, extra));
    } else if arg.Bool? && ctx.env.draft != Draft202012 {
      v := if arg.b then None else Some(TupleItems([], RejectAll));
    } else if IsSchema(arg) {
      var node := CompileOne(ctx, arg);
      v := if node.Some? then Some(ItemsV(node.value, C.PrefixLength(ctx.env.draft, schema))) else None;
    } else {
      v := None;
    }
  }

  method CompileAdditionalSchema(ctx: Context, arg: Option<Json>) returns (extra: ExtraItems)
    modifies ctx.progress
    ensures (extra, ctx.progress.State())
      == C.CompileExtraItems(ctx.env, ctx.base, arg, ctx.depth + 1, old(ctx.progress.State()))
    decreases C.Remaining(ctx.depth + 1), 6
  {
    if arg == Some(Bool(false)) {
      return RejectAll;
    }
    if arg.None? || !arg.value.Obj? {
      return AllowAny;
    }
    var node := CompileOne(ctx, arg.value);
    extra := if node.Some? then ValidateExtra(node.value) else AllowAny;
  }

  /** A reference already in progress is cut; otherwise its key is marked while its target is compiled, and unmarked
      only if that succeeds. */
  method CompileRef(ctx: Context, kind: RefKind, arg: Json) returns (v: Option<Validator>)
    modifies ctx.progress
    ensures (v, ctx.progress.State())
      == C.CompileRef(ctx.env, ctx.base, kind, arg, ctx.depth + 1, old(ctx.progress.State()))
    decreases C.Remaining(ctx.depth + 1), 5
  {
    if !arg.Str? {
      return None;
    }
    var resolved := ctx.env.lookup(kind, ctx.base, arg.s);
    if resolved.None? {
      return None;
    }
    var target := resolved.value;
    var key := CycleKey(target.base, arg.s);
    if key in ctx.progress.keys {
      ctx.progress.Cut();
      return Some(RefV(AlwaysValid));
    }
    ghost var outer := ctx.progress.inFlight;
    ctx.progress.Mark(key);
    var node := CompileNode(ctx.WithResolver(target.base), target.schema);
    if node.Err? {
      ctx.progress.Abandon(outer);
      return None;
    }
    ctx.progress.Done(key, outer);
    v := Some(RefV(node.value));
  }
}
