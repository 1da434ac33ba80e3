/** Compilation introduces no feature: the tree of a schema that avoids some features lacks them. */
module CompilerFeatures {
  import opened JsonValues
  import opened Keywords
  import opened SchemaTree
  import opened TreeFeatures
  import opened SchemaMeaning
  import opened Compiler

  /** The schema avoids the features as deep as the depth allowance reaches. */
  ghost predicate Clear(env: Env, base: Resolver, s: Json, depth: nat, h: int, ban: set<Feature>) {
    depth <= MAX_DEPTH ==> h >= 0 && 2 * h + depth >= MAX_DEPTH && Avoids(env, base, s, h, ban)
  }

  ghost predicate AllClear(env: Env, base: Resolver, subs: seq<Json>, depth: nat, h: int, ban: set<Feature>) {
    forall x :: 0 <= x < |subs| ==> Clear(env, base, subs[x], depth, h, ban)
  }

  ghost predicate EntryClear(env: Env, base: Resolver, schema: seq<Member>, kw: Keyword, arg: Json, depth: nat, h: int,
        ban: set<Feature>) {
    depth <= MAX_DEPTH && h >= 0 && 2 * h + depth >= MAX_DEPTH && EntryAvoids(env, base, schema, kw, arg, h, ban)
  }

  ghost predicate NodeClear(t: Node, ban: set<Feature>) {
    Lacks(t, ban)
  }

  ghost predicate ValidatorClear(v: Validator, ban: set<Feature>) {
    LacksV(v, ban)
  }

  ghost predicate AllClearV(vs: seq<Validator>, ban: set<Feature>) {
    forall x :: 0 <= x < |vs| ==> ValidatorClear(vs[x], ban)
  }

  ghost predicate AllLack(ts: seq<Node>, ban: set<Feature>) {
    forall x :: 0 <= x < |ts| ==> NodeClear(ts[x], ban)
  }

  ghost predicate OptionLacks(v: Option<Validator>, ban: set<Feature>) {
    v.Some? ==> ValidatorClear(v.value, ban)
  }

  lemma SubschemasClear(env: Env, base: Resolver, schema: seq<Member>, kw: Keyword, arg: Json, depth: nat, h: int,
        ban: set<Feature>)
    requires EntryClear(env, base, schema, kw, arg, depth, h, ban)
    ensures AllClear(env, base, Subschemas(env.draft, schema, kw, arg), depth + 2, h - 1, ban)
    ensures EntryFeatures(env.draft, schema, kw) !! ban
  {
  }

  lemma ValidatorsClear(vs: seq<Validator>, ban: set<Feature>)
    requires AllClearV(vs, ban)
    ensures NodeClear(Validators(vs), ban)
  {
  }

  lemma BooleanClear(b: bool, ban: set<Feature>)
    ensures NodeClear(if b then AlwaysValid else AlwaysInvalid, ban)
  {
  }

  lemma {:induction false} NodeLacks(env: Env, base: Resolver, s: Json, depth: nat, st: State, h: int,
        ban: set<Feature>)
    requires Clear(env, base, s, depth, h, ban)
    ensures var r := CompileNode(env, base, s, depth, st).0; r.Ok? ==> NodeClear(r.value, ban)
    decreases Remaining(depth), 4
  {
    hide NodeClear, ValidatorClear, Clear, CompileKeyword;
    if depth <= MAX_DEPTH {
      match s
      case Obj(schema) =>
        EntriesLack(env, base, schema, 0, depth, st, h, ban);
        var (vs, _) := CompileEntries(env, base, schema, 0, depth, st);
        ValidatorsClear(vs, ban);
      case Bool(b) => BooleanClear(b, ban);
      case _ =>
    }
  }

  lemma EntryOfClear(env: Env, base: Resolver, schema: seq<Member>, k: nat, depth: nat, h: int, ban: set<Feature>)
    requires k < |schema| && depth <= MAX_DEPTH && Clear(env, base, Obj(schema), depth, h, ban)
    ensures EntryClear(env, base, schema, Active(env.draft, schema, schema[k].key), schema[k].value, depth, h, ban)
  {
    hide EntryAvoids, Active;
  }

  lemma {:induction false} EntriesLack(env: Env, base: Resolver, schema: seq<Member>, k: nat, depth: nat, st: State,
        h: int, ban: set<Feature>)
    requires k <= |schema| && depth <= MAX_DEPTH && Clear(env, base, Obj(schema), depth, h, ban)
    ensures AllClearV(CompileEntries(env, base, schema, k, depth, st).0, ban)
    decreases Remaining(depth), 3, |schema| - k
  {
    hide ValidatorClear, Clear, EntryClear, CompileKeyword, Active;
    if k < |schema| {
      var kw, arg := Active(env.draft, schema, schema[k].key), schema[k].value;
      EntryOfClear(env, base, schema, k, depth, h, ban);
      KeywordLacks(env, base, schema, kw, arg, depth, st, h, ban);
      var (v, st1) := CompileKeyword(env, base, schema, kw, arg, depth, st);
      EntriesLack(env, base, schema, k + 1, depth, st1, h, ban);
    }
  }

  lemma {:induction false} ListLacks(env: Env, base: Resolver, subs: seq<Json>, depth: nat, st: State, h: int,
        ban: set<Feature>)
    requires AllClear(env, base, subs, depth, h, ban)
    ensures var r := CompileAll(env, base, subs, depth, st).0; r.Some? ==> AllLack(r.value, ban)
    decreases Remaining(depth), 5, |subs|
  {
    hide NodeClear, Clear, CompileNode;
    if subs != [] {
      NodeLacks(env, base, subs[0], depth, st, h, ban);
      var (r, st1) := CompileNode(env, base, subs[0], depth, st);
      if r.Ok? {
        ListLacks(env, base, subs[1..], depth, st1, h, ban);
      }
    }
  }

  lemma {:induction false} PatternsLack(env: Env, base: Resolver, members: seq<Member>, depth: nat, st: State, h: int,
        ban: set<Feature>)
    requires AllClear(env, base, Values(members), depth, h, ban)
    ensures var r := CompilePatterns(env, base, members, depth, st).0; r.Some? ==> AllLack(r.value, ban)
    decreases Remaining(depth), 6, |members|
  {
    hide NodeClear, Clear, CompileNode;
    if members != [] {
      assert Values(members)[0] == members[0].value;
      NodeLacks(env, base, members[0].value, depth, st, h, ban);
      var (r, st1) := CompileOne(env, base, members[0].value, depth, st);
      assert Values(members[1..]) == Values(members)[1..];
      PatternsLack(env, base, members[1..], depth, st1, h, ban);
    }
  }

  lemma {:induction false} DependenciesLack(env: Env, base: Resolver, members: seq<Member>, depth: nat, st: State,
        h: int, ban: set<Feature>)
    requires forall p :: 0 <= p < |members| && IsSchema(members[p].value) ==>
      Clear(env, base, members[p].value, depth, h, ban)
    ensures var deps := CompileDependencyList(env, base, members, depth, st).0;
      forall d :: d in deps && d.NeedsSchema? ==> NodeClear(d.node, ban)
    decreases Remaining(depth), 6, |members|
  {
    hide NodeClear, Clear, CompileNode;
    if members != [] {
      var s := members[0].value;
      if IsSchema(s) {
        NodeLacks(env, base, s, depth, st, h, ban);
      }
      var st1 := if IsSchema(s) then CompileOne(env, base, s, depth, st).1 else st;
      DependenciesLack(env, base, members[1..], depth, st1, h, ban);
    }
  }

  /** Subschemas that lack the features make a validator that does, unless it has one of its own. */
  lemma ChildrenLack(v: Validator, ban: set<Feature>)
    requires FeaturesOf(v) !! ban && AllLack(Children(v), ban)
    ensures ValidatorClear(v, ban)
  {
  }

  lemma {:induction false} KeywordLacks(env: Env, base: Resolver, schema: seq<Member>, kw: Keyword, arg: Json,
        depth: nat, st: State, h: int, ban: set<Feature>)
    requires depth <= MAX_DEPTH
    requires EntryClear(env, base, schema, kw, arg, depth, h, ban)
    ensures OptionLacks(CompileKeyword(env, base, schema, kw, arg, depth, st).0, ban)
    decreases Remaining(depth), 2
  {
    hide ValidatorClear, EntryClear, CompileLeaf;
    match kw
    case Combine(_) => ListKeywordLacks(env, base, schema, kw, arg, depth, st, h, ban);
    case PrefixItems => ListKeywordLacks(env, base, schema, kw, arg, depth, st, h, ban);
    case Properties => ListKeywordLacks(env, base, schema, kw, arg, depth, st, h, ban);
    case DependentSchemas => ListKeywordLacks(env, base, schema, kw, arg, depth, st, h, ban);
    case PatternProperties => PatternKeywordLacks(env, base, schema, arg, depth, st, h, ban);
    case Dependencies => DependenciesKeywordLacks(env, base, schema, arg, depth, st, h, ban);
    case Not => NotLacks(env, base, schema, arg, depth, st, h, ban);
    case Contains => ContainsLacks(env, base, schema, arg, depth, st, h, ban);
    case PropertyNames => PropertyNamesLack(env, base, schema, arg, depth, st, h, ban);
    case AdditionalProperties => AdditionalLacks(env, base, schema, arg, depth, st, h, ban);
    case Items => ItemsLack(env, base, schema, arg, depth, st, h, ban);
    case If => ConditionalLacks(env, base, schema, kw, arg, depth, st, h, ban);
    case Branch => ConditionalLacks(env, base, schema, kw, arg, depth, st, h, ban);
    case Reference(kind) => ReferenceLacks(env, base, schema, kind, arg, depth, st, h, ban);
    case Leaf(_) => LeavesLack(ban);
    case Unmodelled =>
  }

  lemma LeavesLack(ban: set<Feature>)
    ensures forall test :: ValidatorClear(Assertion(test), ban)
  {
  }

  lemma TargetClear(env: Env, base: Resolver, schema: seq<Member>, kind: RefKind, arg: Json, depth: nat, h: int,
        ban: set<Feature>)
    requires EntryClear(env, base, schema, Reference(kind), arg, depth, h, ban)
    ensures var target := Referred(env, base, Reference(kind), arg);
      target.Some? ==> Clear(env, target.value.base, target.value.schema, depth + 2, h - 1, ban)
  {
  }

  lemma {:induction false} ReferenceLacks(env: Env, base: Resolver, schema: seq<Member>, kind: RefKind, arg: Json,
        depth: nat, st: State, h: int, ban: set<Feature>)
    requires depth <= MAX_DEPTH
    requires EntryClear(env, base, schema, Reference(kind), arg, depth, h, ban)
    ensures OptionLacks(CompileRef(env, base, kind, arg, depth + 2, st).0, ban)
    decreases Remaining(depth), 1
  {
    hide CompileNode, NodeClear, ValidatorClear, EntryClear, Clear;
    SubschemasClear(env, base, schema, Reference(kind), arg, depth, h, ban);
    TargetClear(env, base, schema, kind, arg, depth, h, ban);
    if arg.Str? && env.lookup(kind, base, arg.s).Some? {
      var target := env.lookup(kind, base, arg.s).value;
      var marked := st.Mark(CycleKey(target.base, arg.s));
      NodeLacks(env, target.base, target.schema, depth + 2, marked, h - 1, ban);
      WrappedLacks(AlwaysValid, ban) by {
        AlwaysValidLacks(ban);
      }
      var (r, _) := CompileNode(env, target.base, target.schema, depth + 2, marked);
      if r.Ok? {
        WrappedLacks(r.value, ban);
      }
    }
  }

  lemma AlwaysValidLacks(ban: set<Feature>)
    ensures NodeClear(AlwaysValid, ban)
  {
  }

  lemma WrappedLacks(t: Node, ban: set<Feature>)
    requires NodeClear(t, ban) && Linked !in ban
    ensures ValidatorClear(RefV(t), ban)
  {
  }

  lemma {:induction false} NotLacks(env: Env, base: Resolver, schema: seq<Member>, arg: Json, depth: nat, st: State,
        h: int, ban: set<Feature>)
    requires depth <= MAX_DEPTH
    requires EntryClear(env, base, schema, Not, arg, depth, h, ban)
    ensures OptionLacks(CompileNot(env, base, arg, depth + 2, st).0, ban)
    decreases Remaining(depth), 1
  {
    hide CompileNode, NodeClear, ValidatorClear, EntryClear, Clear;
    SubschemasClear(env, base, schema, Not, arg, depth, h, ban);
    assert Subschemas(env.draft, schema, Not, arg)[0] == arg;
    NodeLacks(env, base, arg, depth + 2, st, h - 1, ban);
    var (r, _) := CompileOne(env, base, arg, depth + 2, st);
    if r.Some? {
      ChildrenLack(NotV(r.value), ban);
    }
  }

  lemma {:induction false} ContainsLacks(env: Env, base: Resolver, schema: seq<Member>, arg: Json, depth: nat,
        st: State, h: int, ban: set<Feature>)
    requires depth <= MAX_DEPTH
    requires EntryClear(env, base, schema, Contains, arg, depth, h, ban)
    ensures OptionLacks(CompileContains(env, base, schema, arg, depth + 2, st).0, ban)
    decreases Remaining(depth), 1
  {
    hide CompileNode, NodeClear, ValidatorClear, EntryClear, Clear;
    SubschemasClear(env, base, schema, Contains, arg, depth, h, ban);
    assert Subschemas(env.draft, schema, Contains, arg)[0] == arg;
    NodeLacks(env, base, arg, depth + 2, st, h - 1, ban);
    var (r, _) := CompileOne(env, base, arg, depth + 2, st);
    if r.Some? {
      ChildrenLack(ContainsV(r.value, MinContains(env.draft, schema), MaxContains(env.draft, schema)), ban);
    }
  }

  lemma {:induction false} PropertyNamesLack(env: Env, base: Resolver, schema: seq<Member>, arg: Json, depth: nat,
        st: State, h: int, ban: set<Feature>)
    requires depth <= MAX_DEPTH
    requires EntryClear(env, base, schema, PropertyNames, arg, depth, h, ban)
    ensures OptionLacks(CompilePropertyNames(env, base, arg, depth + 2, st).0, ban)
    decreases Remaining(depth), 1
  {
    hide CompileNode, NodeClear, ValidatorClear, EntryClear, Clear;
    SubschemasClear(env, base, schema, PropertyNames, arg, depth, h, ban);
    assert Subschemas(env.draft, schema, PropertyNames, arg)[0] == arg;
    NodeLacks(env, base, arg, depth + 2, st, h - 1, ban);
    var (r, _) := CompileOne(env, base, arg, depth + 2, st);
    AlwaysValidLacks(ban);
    ChildrenLack(PropertyNamesV(if r.Some? then r.value else AlwaysValid), ban);
  }

  lemma {:induction false} AdditionalLacks(env: Env, base: Resolver, schema: seq<Member>, arg: Json, depth: nat,
        st: State, h: int, ban: set<Feature>)
    requires depth <= MAX_DEPTH
    requires EntryClear(env, base, schema, AdditionalProperties, arg, depth, h, ban)
    ensures OptionLacks(CompileAdditionalProperties(env, base, schema, arg, depth + 2, st).0, ban)
    decreases Remaining(depth), 1
  {
    hide CompileNode, NodeClear, ValidatorClear, EntryClear, Clear;
    SubschemasClear(env, base, schema, AdditionalProperties, arg, depth, h, ban);
    AlwaysValidLacks(ban);
    if arg.Obj? || arg.Arr? {
      assert Subschemas(env.draft, schema, AdditionalProperties, arg)[0] == arg;
      NodeLacks(env, base, arg, depth + 2, st, h - 1, ban);
      var (r, _) := CompileOne(env, base, arg, depth + 2, st);
      var (v, _) := CompileAdditionalProperties(env, base, schema, arg, depth + 2, st);
      if v.Some? {
        assert Children(v.value) == [r.value];
        ChildrenLack(v.value, ban);
      }
    } else {
      var (v, _) := CompileAdditionalProperties(env, base, schema, arg, depth + 2, st);
      assert Children(v.value) == if arg == Bool(true) then [AlwaysValid] else [];
      ChildrenLack(v.value, ban);
    }
  }

  /** The keywords whose validator is a list of compiled subschemas. */
  lemma ListKeyword(env: Env, base: Resolver, schema: seq<Member>, kw: Keyword, arg: Json, depth: nat, st: State)
    requires kw.Combine? || kw == PrefixItems || kw == Properties || kw == DependentSchemas
    requires depth <= MAX_DEPTH
    ensures var v := CompileKeyword(env, base, schema, kw, arg, depth, st).0;
      var rs := CompileAll(env, base, Subschemas(env.draft, schema, kw, arg), depth + 2, st).0;
      v.Some? ==>
        rs.Some? && Children(v.value) == rs.value && FeaturesOf(v.value) == EntryFeatures(env.draft, schema, kw)
  {
    hide CompileNode, Children, FeaturesOf;
    var (rs, _) := CompileAll(env, base, Subschemas(env.draft, schema, kw, arg), depth + 2, st);
    if rs.Some? {
      match kw
      case Combine(how) => CombinedList(how, rs.value);
      case PrefixItems => PrefixList(rs.value);
      case Properties =>
        if arg.Obj? {
          NamedLists(arg.members, rs.value);
        }
      case DependentSchemas =>
        if arg.Obj? {
          NamedLists(SchemaMembers(arg.members), rs.value);
        }
    }
  }

  lemma CombinedList(how: Combination, ts: seq<Node>)
    ensures var v := CombineAll(how, ts);
      Children(v) == ts && forall draft, schema :: FeaturesOf(v) == EntryFeatures(draft, schema, Combine(how))
  {
  }

  lemma PrefixList(ts: seq<Node>)
    ensures Children(PrefixItemsV(ts)) == ts && FeaturesOf(PrefixItemsV(ts)) == {}
  {
  }

  lemma NamedLists(members: seq<Member>, ts: seq<Node>)
    requires |members| == |ts|
    ensures var v := PropertiesV(Name(members, ts)); Children(v) == ts && FeaturesOf(v) == {ByName}
    ensures var v := DependentSchemasV(Name(members, ts)); Children(v) == ts && FeaturesOf(v) == {}
  {
    assert Nodes(Name(members, ts)) == ts;
  }

  lemma {:induction false} ListKeywordLacks(env: Env, base: Resolver, schema: seq<Member>, kw: Keyword, arg: Json,
        depth: nat, st: State, h: int, ban: set<Feature>)
    requires depth <= MAX_DEPTH
    requires EntryClear(env, base, schema, kw, arg, depth, h, ban)
    requires kw.Combine? || kw == PrefixItems || kw == Properties || kw == DependentSchemas
    ensures OptionLacks(CompileKeyword(env, base, schema, kw, arg, depth, st).0, ban)
    decreases Remaining(depth), 1
  {
    hide CompileKeyword, CompileAll, NodeClear, ValidatorClear, EntryClear, Clear;
    SubschemasClear(env, base, schema, kw, arg, depth, h, ban);
    ListLacks(env, base, Subschemas(env.draft, schema, kw, arg), depth + 2, st, h - 1, ban);
    ListKeyword(env, base, schema, kw, arg, depth, st);
    var (v, _) := CompileKeyword(env, base, schema, kw, arg, depth, st);
    if v.Some? {
      ChildrenLack(v.value, ban);
    }
  }

  lemma {:induction false} PatternKeywordLacks(env: Env, base: Resolver, schema: seq<Member>, arg: Json, depth: nat,
        st: State, h: int, ban: set<Feature>)
    requires depth <= MAX_DEPTH
    requires EntryClear(env, base, schema, PatternProperties, arg, depth, h, ban)
    ensures OptionLacks(CompilePatternProperties(env, base, arg, depth + 2, st).0, ban)
    decreases Remaining(depth), 1
  {
    hide CompilePatterns, NodeClear, ValidatorClear, EntryClear, Clear;
    if arg.Obj? {
      SubschemasClear(env, base, schema, PatternProperties, arg, depth, h, ban);
      PatternsLack(env, base, arg.members, depth + 2, st, h - 1, ban);
      var (rs, _) := CompilePatterns(env, base, arg.members, depth + 2, st);
      if rs.Some? {
        var v := PatternPropertiesV(Name(arg.members, rs.value));
        assert Children(v) == rs.value;
        ChildrenLack(v, ban);
      }
    }
  }

  lemma {:induction false} DependenciesKeywordLacks(env: Env, base: Resolver, schema: seq<Member>, arg: Json,
        depth: nat, st: State, h: int, ban: set<Feature>)
    requires depth <= MAX_DEPTH
    requires EntryClear(env, base, schema, Dependencies, arg, depth, h, ban)
    ensures OptionLacks(CompileDependencies(env, base, arg, depth + 2, st).0, ban)
    decreases Remaining(depth), 1
  {
    hide CompileDependencyList, NodeClear, ValidatorClear, EntryClear, Clear;
    SubschemasClear(env, base, schema, Dependencies, arg, depth, h, ban);
    if arg.Obj? {
      var ms := arg.members;
      forall p | 0 <= p < |ms| && IsSchema(ms[p].value) ensures Clear(env, base, ms[p].value, depth + 2, h - 1, ban) {
        assert Values(ms)[p] in Values(ms);
        assert ms[p].value in SchemasAmong(Values(ms));
      }
      DependenciesLack(env, base, ms, depth + 2, st, h - 1, ban);
      var (deps, _) := CompileDependencyList(env, base, ms, depth + 2, st);
      assert forall c :: c in Children(DependenciesV(deps)) ==> NodeClear(c, ban);
      ChildrenLack(DependenciesV(deps), ban);
    }
  }

  lemma {:induction false} ConditionalLacks(env: Env, base: Resolver, schema: seq<Member>, kw: Keyword, arg: Json,
        depth: nat, st: State, h: int, ban: set<Feature>)
    requires depth <= MAX_DEPTH
    requires EntryClear(env, base, schema, kw, arg, depth, h, ban) && (kw == If || kw == Branch)
    ensures OptionLacks(CompileConditional(env, base, schema, depth + 2, st).0, ban)
    decreases Remaining(depth), 1
  {
    hide CompileNode, NodeClear, ValidatorClear, EntryClear, Clear, Get;
    if Has(schema, "if") {
      SubschemasClear(env, base, schema, kw, arg, depth, h, ban);
      var c, thn, els := Get(schema, "if").value, Get(schema, "then"), Get(schema, "else");
      var subs := Subschemas(env.draft, schema, kw, arg);
      assert subs == [c] + OptionAsSeq(thn) + OptionAsSeq(els);
      assert subs[0] == c && (thn.Some? ==> subs[1] == thn.value) && (els.Some? ==> subs[|subs| - 1] == els.value);
      NodeLacks(env, base, c, depth + 2, st, h - 1, ban);
      var (cond, st1) := CompileOne(env, base, c, depth + 2, st);
      OptionalLacks(env, base, thn, depth + 2, st1, h - 1, ban);
      var (t, st2) := CompileOptional(env, base, thn, depth + 2, st1);
      OptionalLacks(env, base, els, depth + 2, st2, h - 1, ban);
      var (e, _) := CompileOptional(env, base, els, depth + 2, st2);
      if cond.Some? && t.Some? && e.Some? {
        ConditionalOf(cond.value, t.value, e.value, ban);
      }
    }
  }

  lemma {:induction false} OptionalLacks(env: Env, base: Resolver, sub: Option<Json>, depth: nat, st: State, h: int,
        ban: set<Feature>)
    requires sub.Some? ==> Clear(env, base, sub.value, depth, h, ban)
    ensures var r := CompileOptional(env, base, sub, depth, st).0; r.Some? && r.value.Some? ==>
      NodeClear(r.value.value, ban)
    decreases Remaining(depth), 6
  {
    hide CompileNode, NodeClear, Clear;
    if sub.Some? {
      NodeLacks(env, base, sub.value, depth, st, h, ban);
    }
  }

  lemma {:induction false} ExtraItemsLack(env: Env, base: Resolver, arg: Option<Json>, depth: nat, st: State, h: int,
        ban: set<Feature>)
    requires arg.Some? && arg.value.Obj? ==> Clear(env, base, arg.value, depth, h, ban)
    ensures var extra := CompileExtraItems(env, base, arg, depth, st).0; extra.ValidateExtra? ==>
      NodeClear(extra.node, ban)
    decreases Remaining(depth), 6
  {
    hide CompileNode, NodeClear, Clear;
    if arg.Some? && arg.value.Obj? {
      NodeLacks(env, base, arg.value, depth, st, h, ban);
    }
  }

  lemma ConditionalOf(c: Node, thn: Option<Node>, els: Option<Node>, ban: set<Feature>)
    requires Conditional !in ban && NodeClear(c, ban) && (thn.Some? ==> NodeClear(thn.value, ban))
    requires (els.Some? ==> NodeClear(els.value, ban))
    ensures ValidatorClear(IfThenElse(c, thn, els), ban)
  {
    var v := IfThenElse(c, thn, els);
    forall x | 0 <= x < |Children(v)| ensures Lacks(Children(v)[x], ban) {
      assert NodeClear(Children(v)[x], ban);
    }
  }

  lemma {:induction false} ItemsLack(env: Env, base: Resolver, schema: seq<Member>, arg: Json, depth: nat, st: State,
        h: int, ban: set<Feature>)
    requires depth <= MAX_DEPTH
    requires EntryClear(env, base, schema, Items, arg, depth, h, ban)
    ensures OptionLacks(CompileItems(env, base, schema, arg, depth + 2, st).0, ban)
    decreases Remaining(depth), 1
  {
    hide CompileNode, CompileAll, NodeClear, ValidatorClear, EntryClear, Clear, Get;
    SubschemasClear(env, base, schema, Items, arg, depth, h, ban);
    var subs := Subschemas(env.draft, schema, Items, arg);
    var (v, _) := CompileItems(env, base, schema, arg, depth + 2, st);
    if arg.Arr? && env.draft != Draft202012 {
      var extra := Get(schema, "additionalItems");
      assert forall x :: 0 <= x < |arg.items| ==> subs[x] == arg.items[x];
      assert extra.Some? && extra.value.Obj? ==> subs[|arg.items|] == extra.value;
      ListLacks(env, base, arg.items, depth + 2, st, h - 1, ban);
      var (rs, st1) := CompileAll(env, base, arg.items, depth + 2, st);
      ExtraItemsLack(env, base, extra, depth + 2, st1, h - 1, ban);
      var (policy, _) := CompileExtraItems(env, base, extra, depth + 2, st1);
      if rs.Some? {
        TupleOf(rs.value, policy, ban);
      }
    } else if arg.Bool? && env.draft != Draft202012 {
      TupleOf([], RejectAll, ban);
    } else if IsSchema(arg) {
      assert subs[0] == arg;
      NodeLacks(env, base, arg, depth + 2, st, h - 1, ban);
      var (r, _) := CompileOne(env, base, arg, depth + 2, st);
      if r.Some? {
        ChildrenLack(ItemsV(r.value, PrefixLength(env.draft, schema)), ban);
      }
    }
  }

  lemma TupleOf(ts: seq<Node>, extra: ExtraItems, ban: set<Feature>)
    requires AllLack(ts, ban) && (extra.ValidateExtra? ==> NodeClear(extra.node, ban))
    ensures ValidatorClear(TupleItems(ts, extra), ban)
  {
    hide NodeClear, ValidatorClear;
    ChildrenLack(TupleItems(ts, extra), ban);
  }

  /** The tree of a schema that avoids some features lacks them, for every reference graph. */
  lemma CompiledTreeLacks(env: Env, base: Resolver, s: Json, ban: set<Feature>)
    requires Avoids(env, base, s, 64, ban)
    ensures var r := Compile(env, base, s).0; r.Ok? ==> Lacks(r.value, ban)
  {
    NodeLacks(env, base, s, 0, START, 64, ban);
  }

  // ----- what it takes to avoid a feature at every depth -----

  /** A universe of schemas, each with its resolver, that contains every subschema and every reference target of its
      members and no active entry with a banned feature. */
  ghost predicate Sealed(env: Env, universe: iset<Target>, ban: set<Feature>) {
    forall t :: t in universe && t.schema.Obj? ==> SchemaSealed(env, universe, t.base, t.schema.members, ban)
  }

  ghost predicate SchemaSealed(env: Env, universe: iset<Target>, base: Resolver, schema: seq<Member>,
        ban: set<Feature>) {
    forall k :: 0 <= k < |schema| ==>
      EntrySealed(env, universe, base, schema, Active(env.draft, schema, schema[k].key), schema[k].value, ban)
  }

  ghost predicate EntrySealed(env: Env, universe: iset<Target>, base: Resolver, schema: seq<Member>, kw: Keyword,
        arg: Json, ban: set<Feature>) {
    && EntryFeatures(env.draft, schema, kw) !! ban
    && (var subs := Subschemas(env.draft, schema, kw, arg);
        forall x :: 0 <= x < |subs| ==> Target(subs[x], base) in universe)
    && (var target := Referred(env, base, kw, arg); target.Some? ==> target.value in universe)
  }

  lemma {:induction false} SealedAvoids(env: Env, universe: iset<Target>, t: Target, h: nat, ban: set<Feature>)
    requires Sealed(env, universe, ban) && t in universe
    ensures Avoids(env, t.base, t.schema, h, ban)
    decreases h
  {
    if t.schema.Obj? {
      var schema := t.schema.members;
      assert SchemaSealed(env, universe, t.base, schema, ban);
      forall k | 0 <= k < |schema|
        ensures var kw := Active(env.draft, schema, schema[k].key);
          EntryAvoids(env, t.base, schema, kw, schema[k].value, h, ban)
      {
        SealedEntryAvoids(env, universe, t.base, schema, Active(env.draft, schema, schema[k].key), schema[k].value, h,
            ban);
      }
    }
  }

  lemma {:induction false} SealedEntryAvoids(env: Env, universe: iset<Target>, base: Resolver, schema: seq<Member>,
        kw: Keyword, arg: Json, h: nat, ban: set<Feature>)
    requires Sealed(env, universe, ban) && EntrySealed(env, universe, base, schema, kw, arg, ban)
    ensures EntryAvoids(env, base, schema, kw, arg, h, ban)
    decreases h, 0
  {
    if h > 0 {
      var subs := Subschemas(env.draft, schema, kw, arg);
      forall x | 0 <= x < |subs| ensures Avoids(env, base, subs[x], h - 1, ban) {
        SealedAvoids(env, universe, Target(subs[x], base), h - 1, ban);
      }
      var target := Referred(env, base, kw, arg);
      if target.Some? {
        SealedAvoids(env, universe, target.value, h - 1, ban);
      }
    }
  }

  /** The schema avoids the features however deep one looks. */
  ghost predicate NeverUses(env: Env, base: Resolver, s: Json, ban: set<Feature>) {
    forall h: nat :: Avoids(env, base, s, h, ban)
  }

  ghost function Avoiding(env: Env, ban: set<Feature>): iset<Target> {
    iset t: Target | NeverUses(env, t.base, t.schema, ban)
  }

  lemma AvoidingSealed(env: Env, ban: set<Feature>)
    ensures Sealed(env, Avoiding(env, ban), ban)
  {
    hide Subschemas, EntryFeatures;
    var universe := Avoiding(env, ban);
    forall t | t in universe && t.schema.Obj? ensures SchemaSealed(env, universe, t.base, t.schema.members, ban) {
      var schema := t.schema.members;
      forall k | 0 <= k < |schema|
        ensures var kw := Active(env.draft, schema, schema[k].key);
          EntrySealed(env, universe, t.base, schema, kw, schema[k].value, ban)
      {
        var kw, arg := Active(env.draft, schema, schema[k].key), schema[k].value;
        forall h: nat ensures EntryAvoids(env, t.base, schema, kw, arg, h, ban) {
          assert Avoids(env, t.base, t.schema, h, ban);
        }
        EntryAvoidingSealed(env, t.base, schema, kw, arg, ban);
      }
    }
  }

  lemma ReachedAvoid(env: Env, base: Resolver, schema: seq<Member>, kw: Keyword, arg: Json, ban: set<Feature>)
    requires forall h: nat :: EntryAvoids(env, base, schema, kw, arg, h, ban)
    ensures var subs := Subschemas(env.draft, schema, kw, arg);
      forall x :: 0 <= x < |subs| ==> NeverUses(env, base, subs[x], ban)
    ensures var target := Referred(env, base, kw, arg);
      target.Some? ==> NeverUses(env, target.value.base, target.value.schema, ban)
  {
    hide Subschemas;
    var subs := Subschemas(env.draft, schema, kw, arg);
    forall x, h: nat | 0 <= x < |subs| ensures Avoids(env, base, subs[x], h, ban) {
      assert EntryAvoids(env, base, schema, kw, arg, h + 1, ban);
    }
    var target := Referred(env, base, kw, arg);
    forall h: nat | target.Some? ensures Avoids(env, target.value.base, target.value.schema, h, ban) {
      assert EntryAvoids(env, base, schema, kw, arg, h + 1, ban);
    }
  }

  lemma EntryAvoidingSealed(env: Env, base: Resolver, schema: seq<Member>, kw: Keyword, arg: Json, ban: set<Feature>)
    requires forall h: nat :: EntryAvoids(env, base, schema, kw, arg, h, ban)
    ensures EntrySealed(env, Avoiding(env, ban), base, schema, kw, arg, ban)
  {
    assert EntryAvoids(env, base, schema, kw, arg, 0, ban);
    assert EntryFeatures(env.draft, schema, kw) !! ban;
    hide Subschemas, EntryFeatures, NeverUses;
    ReachedAvoid(env, base, schema, kw, arg, ban);
  }

  /** A schema avoids some features at every depth iff it lies in a sealed universe: it is enough to look at the
      subschemas and targets it can reach, each once. */
  lemma AvoidsIffSealed(env: Env, base: Resolver, s: Json, ban: set<Feature>)
    ensures NeverUses(env, base, s, ban) <==>
      exists universe: iset<Target> :: Sealed(env, universe, ban) && Target(s, base) in universe
  {
    hide Sealed;
    if NeverUses(env, base, s, ban) {
      AvoidingSealed(env, ban);
      assert Target(s, base) in Avoiding(env, ban);
    }
    if exists universe: iset<Target> :: Sealed(env, universe, ban) && Target(s, base) in universe {
      var universe: iset<Target> :| Sealed(env, universe, ban) && Target(s, base) in universe;
      forall h: nat ensures Avoids(env, base, s, h, ban) {
        SealedAvoids(env, universe, Target(s, base), h, ban);
      }
    }
  }
}
