/** What compilation does to the shared in-progress set and to the depth allowance. */
module CompilerState {
  import opened JsonValues
  import opened Keywords
  import opened SchemaTree
  import opened SchemaMeaning
  import opened Compiler

  // ----- which subschemas an entry compiles -----

  /** The subschemas an entry other than a reference or `dependencies` hands to `compile_node`, one after the other
      until one fails. */
  function Visited(env: Env, schema: seq<Member>, kw: Keyword, arg: Json): seq<Json> {
    match kw
    case PatternProperties => if arg.Obj? then Values(arg.members[..LeadingPatterns(env, arg.members)]) else []
    case AdditionalProperties => if arg.Obj? || arg.Arr? then [arg] else []
    case Items => if IsSchema(arg) || arg.Arr? then ItemSubschemas(env.draft, schema, arg) else []
    case Reference(_) => []
    case Dependencies => []
    case _ => Subschemas(env.draft, schema, kw, arg)
  }

  /** The number of patterns before the first that is no regex. */
  function LeadingPatterns(env: Env, members: seq<Member>): (r: nat)
    ensures r <= |members|
  {
    if members == [] || !env.regexOk(members[0].key) then 0 else 1 + LeadingPatterns(env, members[1..])
  }

  lemma {:induction false} PatternsVisit(env: Env, base: Resolver, members: seq<Member>, depth: nat, st: State)
    ensures CompilePatterns(env, base, members, depth, st).1
      == CompileAll(env, base, Values(members[..LeadingPatterns(env, members)]), depth, st).1
    decreases |members|
  {
    var k := LeadingPatterns(env, members);
    if k > 0 {
      var (r, st1) := CompileOne(env, base, members[0].value, depth, st);
      PatternsVisit(env, base, members[1..], depth, st1);
      assert members[..k][1..] == members[1..][..k - 1];
      assert Values(members[..k])[1..] == Values(members[1..][..k - 1]);
    }
  }

  lemma OneVisit(env: Env, base: Resolver, sub: Json, depth: nat, st: State)
    ensures CompileAll(env, base, [sub], depth, st).1 == CompileOne(env, base, sub, depth, st).1
  {
    hide CompileNode;
    var (r, st1) := CompileNode(env, base, sub, depth, st);
    assert CompileAll(env, base, [], depth, st1) == (Some([]), st1);
    assert [sub][1..] == [];
  }

  /** Compiling a list is compiling its first part and, if nothing failed, the rest. */
  lemma {:induction false} AllSplits(env: Env, base: Resolver, a: seq<Json>, b: seq<Json>, depth: nat, st: State)
    ensures var first := CompileAll(env, base, a, depth, st);
      CompileAll(env, base, a + b, depth, st).1
        == if first.0.Some? then CompileAll(env, base, b, depth, first.1).1 else first.1
    decreases |a|
  {
    hide CompileNode;
    if a == [] {
      assert a + b == b;
    } else {
      assert (a + b)[1..] == a[1..] + b;
      var (r, st1) := CompileNode(env, base, a[0], depth, st);
      AllSplits(env, base, a[1..], b, depth, st1);
    }
  }

  lemma OptionalVisit(env: Env, base: Resolver, sub: Option<Json>, depth: nat, st: State)
    ensures CompileAll(env, base, OptionAsSeq(sub), depth, st).1 == CompileOptional(env, base, sub, depth, st).1
    ensures CompileAll(env, base, OptionAsSeq(sub), depth, st).0.Some?
      == CompileOptional(env, base, sub, depth, st).0.Some?
  {
    hide CompileNode;
    if sub.Some? {
      OneVisit(env, base, sub.value, depth, st);
      var (r, st1) := CompileNode(env, base, sub.value, depth, st);
      assert [sub.value][1..] == [];
      assert CompileAll(env, base, [], depth, st1).0.Some?;
    }
  }

  lemma ConditionalVisit(env: Env, base: Resolver, schema: seq<Member>, depth: nat, st: State)
    ensures CompileConditional(env, base, schema, depth, st).1
      == CompileAll(env, base, ConditionalSubschemas(schema), depth, st).1
  {
    if Has(schema, "if") {
      var c, thn, els := Get(schema, "if").value, Get(schema, "then"), Get(schema, "else");
      hide CompileNode, Get;
      var (r0, st0) := CompileOptional(env, base, Some(c), depth, st);
      OptionalVisit(env, base, Some(c), depth, st);
      var (r1, st1) := CompileOptional(env, base, thn, depth, st0);
      OptionalVisit(env, base, thn, depth, st0);
      OptionalVisit(env, base, els, depth, st1);
      AllSplits(env, base, [c] + OptionAsSeq(thn), OptionAsSeq(els), depth, st);
      AllSplits(env, base, [c], OptionAsSeq(thn), depth, st);
    }
  }

  lemma KeywordVisits(env: Env, base: Resolver, schema: seq<Member>, kw: Keyword, arg: Json, depth: nat, st: State)
    requires depth <= MAX_DEPTH && !kw.Reference? && kw != Dependencies
    ensures CompileKeyword(env, base, schema, kw, arg, depth, st).1
      == CompileAll(env, base, Visited(env, schema, kw, arg), depth + 2, st).1
  {
    hide CompileNode, CompileConditional, CompileLeaf, ConditionalSubschemas;
    match kw
    case If => ConditionalVisit(env, base, schema, depth + 2, st);
    case Branch => ConditionalVisit(env, base, schema, depth + 2, st);
    case Not => OneVisit(env, base, arg, depth + 2, st);
    case Contains => OneVisit(env, base, arg, depth + 2, st);
    case PropertyNames => OneVisit(env, base, arg, depth + 2, st);
    case AdditionalProperties => OneVisit(env, base, arg, depth + 2, st);
    case PatternProperties =>
      if arg.Obj? {
        PatternsVisit(env, base, arg.members, depth + 2, st);
      }
    case Items => ItemsVisit(env, base, schema, arg, depth + 2, st);
    case _ =>
  }

  lemma DependenciesVisit(env: Env, base: Resolver, schema: seq<Member>, arg: Json, depth: nat, st: State)
    requires depth <= MAX_DEPTH && arg.Obj?
    ensures CompileKeyword(env, base, schema, Dependencies, arg, depth, st).1
      == CompileDependencyList(env, base, arg.members, depth + 2, st).1
  {
  }

  lemma ItemsVisit(env: Env, base: Resolver, schema: seq<Member>, arg: Json, depth: nat, st: State)
    ensures CompileItems(env, base, schema, arg, depth, st).1
      == CompileAll(env, base, Visited(env, schema, Items, arg), depth, st).1
  {
    hide CompileNode;
    if arg.Arr? && env.draft != Draft202012 {
      var (rs, st1) := CompileAll(env, base, arg.items, depth, st);
      var extra := Get(schema, "additionalItems");
      var last := if extra.Some? && extra.value.Obj? then [extra.value] else [];
      assert Visited(env, schema, Items, arg) == arg.items + last;
      AllSplits(env, base, arg.items, last, depth, st);
      if last != [] {
        OneVisit(env, base, extra.value, depth, st1);
      }
    } else {
      OneVisit(env, base, arg, depth, st);
    }
  }

  // ----- the in-progress set -----

  ghost predicate Distinct(s: seq<string>) {
    forall a, b :: 0 <= a < b < |s| ==> s[a] != s[b]
  }

  /** The references in flight are pairwise distinct and all marked, now and at every reference taken so far. */
  ghost predicate Sound(st: State) {
    && Distinct(st.inFlight)
    && (forall x :: 0 <= x < |st.inFlight| ==> st.inFlight[x] in st.keys)
    && (forall x :: 0 <= x < |st.stacks| ==> Distinct(st.stacks[x]))
  }

  /** From the call of a compiling function to its return: no key is removed, one key is left behind for each
      reference target that failed, and the stack of references in flight is back where it was. */
  ghost predicate Advanced(st: State, st': State) {
    && st.keys <= st'.keys
    && |st'.keys| - |st.keys| == st'.broken - st.broken
    && (st'.broken == st.broken ==> st'.keys == st.keys)
    && st'.inFlight == st.inFlight
    && st.stacks <= st'.stacks
    && st.tooDeep <= st'.tooDeep
    && st.cuts <= st'.cuts
    && Sound(st')
  }

  lemma AdvancedTwice(a: State, b: State, c: State)
    requires Advanced(a, b) && Advanced(b, c)
    ensures Advanced(a, c)
  {
    Growth(a.keys, b.keys);
    Growth(b.keys, c.keys);
  }

  lemma Growth<T>(a: set<T>, b: set<T>)
    requires a <= b
    ensures |a| <= |b|
    ensures |a| == |b| ==> a == b
  {
    assert b == a + (b - a);
  }

  lemma {:induction false} NodeAdvances(env: Env, base: Resolver, s: Json, depth: nat, st: State)
    requires Sound(st)
    ensures Advanced(st, CompileNode(env, base, s, depth, st).1)
    decreases Remaining(depth), 4
  {
    if depth <= MAX_DEPTH && s.Obj? {
      EntriesAdvance(env, base, s.members, 0, depth, st);
    }
  }

  lemma {:induction false} EntriesAdvance(env: Env, base: Resolver, schema: seq<Member>, k: nat, depth: nat, st: State)
    requires k <= |schema| && depth <= MAX_DEPTH && Sound(st)
    ensures Advanced(st, CompileEntries(env, base, schema, k, depth, st).1)
    decreases Remaining(depth), 3, |schema| - k
  {
    hide Advanced, CompileKeyword, Active, Sound;
    if k < |schema| {
      var kw, arg := Active(env.draft, schema, schema[k].key), schema[k].value;
      KeywordAdvances(env, base, schema, kw, arg, depth, st);
      var (_, st1) := CompileKeyword(env, base, schema, kw, arg, depth, st);
      StaysSound(st, st1);
      EntriesAdvance(env, base, schema, k + 1, depth, st1);
      AdvancedTwice(st, st1, CompileEntries(env, base, schema, k + 1, depth, st1).1);
    } else {
      StandsStill(st);
    }
  }

  lemma StaysSound(st: State, st': State)
    requires Advanced(st, st')
    ensures Sound(st')
  {
  }

  lemma StandsStill(st: State)
    requires Sound(st)
    ensures Advanced(st, st)
  {
  }

  lemma {:induction false} AllAdvance(env: Env, base: Resolver, subs: seq<Json>, depth: nat, st: State)
    requires Sound(st)
    ensures Advanced(st, CompileAll(env, base, subs, depth, st).1)
    decreases Remaining(depth), 5, |subs|
  {
    hide CompileNode;
    if subs == [] {
      StandsStill(st);
    } else {
      NodeAdvances(env, base, subs[0], depth, st);
      var (r, st1) := CompileNode(env, base, subs[0], depth, st);
      if r.Ok? {
        AllAdvance(env, base, subs[1..], depth, st1);
        AdvancedTwice(st, st1, CompileAll(env, base, subs[1..], depth, st1).1);
      }
    }
  }

  lemma {:induction false} DependenciesAdvance(env: Env, base: Resolver, members: seq<Member>, depth: nat, st: State)
    requires Sound(st)
    ensures Advanced(st, CompileDependencyList(env, base, members, depth, st).1)
    decreases Remaining(depth), 6, |members|
  {
    hide CompileNode;
    if members == [] {
      StandsStill(st);
    } else if IsSchema(members[0].value) {
      NodeAdvances(env, base, members[0].value, depth, st);
      var (_, st1) := CompileOne(env, base, members[0].value, depth, st);
      DependenciesAdvance(env, base, members[1..], depth, st1);
      AdvancedTwice(st, st1, CompileDependencyList(env, base, members[1..], depth, st1).1);
    } else {
      DependenciesAdvance(env, base, members[1..], depth, st);
    }
  }

  lemma {:induction false} ReferenceAdvances(env: Env, base: Resolver, kind: RefKind, arg: Json, depth: nat, st: State)
    requires Sound(st)
    ensures Advanced(st, CompileRef(env, base, kind, arg, depth, st).1)
    decreases Remaining(depth), 5
  {
    hide CompileNode;
    if arg.Str? && env.lookup(kind, base, arg.s).Some? {
      var target := env.lookup(kind, base, arg.s).value;
      var key := CycleKey(target.base, arg.s);
      if key !in st.keys {
        MarkedSound(st, key);
        NodeAdvances(env, target.base, target.schema, depth, st.Mark(key));
        var (r, st1) := CompileNode(env, target.base, target.schema, depth, st.Mark(key));
        ReferenceReturns(st, key, st1);
      }
    }
  }

  lemma MarkedSound(st: State, key: string)
    requires Sound(st) && key !in st.keys
    ensures Sound(st.Mark(key))
  {
  }

  lemma ReferenceReturns(st: State, key: string, st1: State)
    requires Sound(st) && key !in st.keys && Advanced(st.Mark(key), st1)
    ensures Advanced(st, st1.Done(key, st.inFlight))
    ensures Advanced(st, st1.Abandon(st.inFlight))
  {
    var marked := st.Mark(key);
    assert marked.keys - {key} == st.keys;
    assert marked.stacks[..|st.stacks|] == st.stacks;
    Growth(marked.keys, st1.keys);
  }

  lemma {:induction false} KeywordAdvances(env: Env, base: Resolver, schema: seq<Member>, kw: Keyword, arg: Json,
        depth: nat, st: State)
    requires depth <= MAX_DEPTH && Sound(st)
    ensures Advanced(st, CompileKeyword(env, base, schema, kw, arg, depth, st).1)
    decreases Remaining(depth), 2
  {
    if kw.Reference? {
      ReferenceAdvances(env, base, kw.kind, arg, depth + 2, st);
    } else if kw == Dependencies {
      if arg.Obj? {
        DependenciesAdvance(env, base, arg.members, depth + 2, st);
      }
    } else {
      KeywordVisits(env, base, schema, kw, arg, depth, st);
      AllAdvance(env, base, Visited(env, schema, kw, arg), depth + 2, st);
    }
  }

  /** A `compile_node` call never removes a key that was in progress when it was entered, and it restores the set
      exactly when every reference target it reached compiled: each one that failed leaves one key behind. */
  lemma InProgressRestoredIffNothingBroke(env: Env, base: Resolver, s: Json, depth: nat, st: State)
    requires Sound(st)
    ensures var st' := CompileNode(env, base, s, depth, st).1;
      && st.keys <= st'.keys
      && |st'.keys| == |st.keys| + (st'.broken - st.broken)
      && (st'.keys == st.keys <==> st'.broken == st.broken)
  {
    NodeAdvances(env, base, s, depth, st);
  }

  /** Whatever the reference graph, the references in flight on any compile call stack are pairwise distinct. */
  lemma ReferencesInFlightDistinct(env: Env, base: Resolver, s: Json, k: nat)
    requires k < |Compile(env, base, s).1.stacks|
    ensures Distinct(Compile(env, base, s).1.stacks[k])
  {
    NodeAdvances(env, base, s, 0, START);
  }
}
