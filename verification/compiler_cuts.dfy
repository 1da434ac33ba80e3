/** When a reference is cut. */
module CompilerCuts {
  import opened JsonValues
  import opened Keywords
  import opened SchemaTree
  import opened SchemaMeaning
  import opened Compiler
  import opened CompilerState
  import opened CompilerDepth

  /** Some chain of references from the schema, within `h` edges, comes to a key it has passed before or one of the
      `open` ones. */
  predicate Repeats(env: Env, open: set<string>, base: Resolver, s: Json, h: nat)
    decreases h
  {
    s.Obj? && exists k ::
      0 <= k < |s.members| &&
      EntryRepeats(env, open, base, s.members, Active(env.draft, s.members, s.members[k].key), s.members[k].value, h)
  }

  predicate EntryRepeats(env: Env, open: set<string>, base: Resolver, schema: seq<Member>, kw: Keyword, arg: Json,
        h: nat)
    decreases h, 0
  {
    || (var subs := Subschemas(env.draft, schema, kw, arg);
        h > 0 && exists x :: 0 <= x < |subs| && Repeats(env, open, base, subs[x], h - 1))
    || (var target := Referred(env, base, kw, arg);
        target.Some? &&
        var key := CycleKey(target.value.base, arg.s);
        key in open || (h > 0 && Repeats(env, open + {key}, target.value.base, target.value.schema, h - 1)))
  }

  // ----- nothing is cut without cause -----

  /** Compiling cuts nothing, unless some reference target failed to compile and left its key behind. */
  ghost predicate Uncut(st: State, st': State) {
    st'.broken == st.broken ==> st'.cuts == st.cuts
  }

  /** No chain of references from the schema repeats a key as deep as the depth allowance reaches. */
  predicate Clean(env: Env, open: set<string>, base: Resolver, s: Json, depth: nat, h: int) {
    depth <= MAX_DEPTH ==> h >= 0 && 2 * h + depth >= MAX_DEPTH && !Repeats(env, open, base, s, h)
  }

  predicate AllClean(env: Env, open: set<string>, base: Resolver, subs: seq<Json>, depth: nat, h: int) {
    forall x :: 0 <= x < |subs| ==> Clean(env, open, base, subs[x], depth, h)
  }

  predicate EntryClean(env: Env, open: set<string>, base: Resolver, schema: seq<Member>, kw: Keyword, arg: Json,
        depth: nat, h: int) {
    depth <= MAX_DEPTH && h >= 0 && 2 * h + depth >= MAX_DEPTH && !EntryRepeats(env, open, base, schema, kw, arg, h)
  }

  lemma {:induction false} NodeUncut(env: Env, open: set<string>, base: Resolver, s: Json, depth: nat, st: State,
        h: int)
    requires Sound(st) && st.keys == open && Clean(env, open, base, s, depth, h)
    ensures Uncut(st, CompileNode(env, base, s, depth, st).1)
    decreases Remaining(depth), 4
  {
    if depth <= MAX_DEPTH && s.Obj? {
      EntriesUncut(env, open, base, s.members, 0, depth, st, h);
    }
  }

  lemma EntryOfClean(env: Env, open: set<string>, base: Resolver, schema: seq<Member>, k: nat, depth: nat, h: int)
    requires Clean(env, open, base, Obj(schema), depth, h) && depth <= MAX_DEPTH && k < |schema|
    ensures var kw := Active(env.draft, schema, schema[k].key);
      EntryClean(env, open, base, schema, kw, schema[k].value, depth, h)
  {
    hide EntryRepeats, Active;
  }

  lemma {:induction false} EntriesUncut(env: Env, open: set<string>, base: Resolver, schema: seq<Member>, k: nat,
        depth: nat, st: State, h: int)
    requires k <= |schema| && depth <= MAX_DEPTH && Sound(st) && st.keys == open
    requires Clean(env, open, base, Obj(schema), depth, h)
    ensures Uncut(st, CompileEntries(env, base, schema, k, depth, st).1)
    decreases Remaining(depth), 3, |schema| - k
  {
    hide Clean, EntryClean, CompileKeyword, Active;
    if k < |schema| {
      var kw, arg := Active(env.draft, schema, schema[k].key), schema[k].value;
      EntryOfClean(env, open, base, schema, k, depth, h);
      KeywordUncut(env, open, base, schema, kw, arg, depth, st, h);
      KeywordAdvances(env, base, schema, kw, arg, depth, st);
      var (_, st1) := CompileKeyword(env, base, schema, kw, arg, depth, st);
      EntriesAdvance(env, base, schema, k + 1, depth, st1);
      if st1.broken == st.broken {
        EntriesUncut(env, open, base, schema, k + 1, depth, st1, h);
      } else {
        BrokenStays(st, st1, CompileEntries(env, base, schema, k + 1, depth, st1).1);
      }
    }
  }

  lemma BrokenStays(a: State, b: State, c: State)
    requires Advanced(a, b) && Advanced(b, c) && b.broken != a.broken
    ensures c.broken > a.broken
  {
    Growth(a.keys, b.keys);
    Growth(b.keys, c.keys);
  }

  lemma {:induction false} AllUncut(env: Env, open: set<string>, base: Resolver, subs: seq<Json>, depth: nat,
        st: State, h: int)
    requires Sound(st) && st.keys == open && AllClean(env, open, base, subs, depth, h)
    ensures Uncut(st, CompileAll(env, base, subs, depth, st).1)
    decreases Remaining(depth), 5, |subs|
  {
    hide Clean, CompileNode;
    if subs != [] {
      NodeUncut(env, open, base, subs[0], depth, st, h);
      NodeAdvances(env, base, subs[0], depth, st);
      var (r, st1) := CompileNode(env, base, subs[0], depth, st);
      if r.Ok? {
        AllAdvance(env, base, subs[1..], depth, st1);
        if st1.broken == st.broken {
          AllUncut(env, open, base, subs[1..], depth, st1, h);
        } else {
          BrokenStays(st, st1, CompileAll(env, base, subs[1..], depth, st1).1);
        }
      }
    }
  }

  lemma {:induction false} DependenciesUncut(env: Env, open: set<string>, base: Resolver, members: seq<Member>,
        depth: nat, st: State, h: int)
    requires Sound(st) && st.keys == open
    requires forall p :: 0 <= p < |members| && IsSchema(members[p].value) ==>
      Clean(env, open, base, members[p].value, depth, h)
    ensures Uncut(st, CompileDependencyList(env, base, members, depth, st).1)
    decreases Remaining(depth), 6, |members|
  {
    hide Clean, CompileNode;
    if members != [] {
      var s := members[0].value;
      var st1 := if IsSchema(s) then CompileNode(env, base, s, depth, st).1 else st;
      NodeAdvances(env, base, s, depth, st);
      if IsSchema(s) {
        NodeUncut(env, open, base, s, depth, st, h);
      } else {
        StandsStill(st);
      }
      DependenciesAdvance(env, base, members[1..], depth, st1);
      if st1.broken == st.broken {
        DependenciesUncut(env, open, base, members[1..], depth, st1, h);
      } else {
        BrokenStays(st, st1, CompileDependencyList(env, base, members[1..], depth, st1).1);
      }
    }
  }

  lemma ReachedClean(env: Env, open: set<string>, base: Resolver, schema: seq<Member>, kw: Keyword, arg: Json,
        depth: nat, h: int)
    requires EntryClean(env, open, base, schema, kw, arg, depth, h)
    ensures AllClean(env, open, base, Subschemas(env.draft, schema, kw, arg), depth + 2, h - 1)
    ensures var target := Referred(env, base, kw, arg);
      target.Some? ==>
        var key := CycleKey(target.value.base, arg.s);
        key !in open && Clean(env, open + {key}, target.value.base, target.value.schema, depth + 2, h - 1)
  {
    hide Subschemas;
  }

  lemma VisitedClean(env: Env, open: set<string>, base: Resolver, schema: seq<Member>, kw: Keyword, arg: Json,
        depth: nat, h: int)
    requires AllClean(env, open, base, Subschemas(env.draft, schema, kw, arg), depth, h)
    ensures AllClean(env, open, base, Visited(env, schema, kw, arg), depth, h)
    ensures kw == Dependencies && arg.Obj? ==>
      forall p :: 0 <= p < |arg.members| && IsSchema(arg.members[p].value) ==>
        Clean(env, open, base, arg.members[p].value, depth, h)
  {
    VisitedAmong(env, schema, kw, arg);
    var visited, subs := Visited(env, schema, kw, arg), Subschemas(env.draft, schema, kw, arg);
    forall x | 0 <= x < |visited| ensures Clean(env, open, base, visited[x], depth, h) {
      hide Clean, Visited, Subschemas;
      assert visited[x] in subs;
    }
    if kw == Dependencies && arg.Obj? {
      var ms := arg.members;
      forall p | 0 <= p < |ms| && IsSchema(ms[p].value) ensures Clean(env, open, base, ms[p].value, depth, h) {
        hide Clean;
        assert Values(ms)[p] in Values(ms);
        assert ms[p].value in subs;
      }
    }
  }

  lemma {:induction false} KeywordUncut(env: Env, open: set<string>, base: Resolver, schema: seq<Member>, kw: Keyword,
        arg: Json, depth: nat, st: State, h: int)
    requires Sound(st) && st.keys == open && EntryClean(env, open, base, schema, kw, arg, depth, h)
    ensures Uncut(st, CompileKeyword(env, base, schema, kw, arg, depth, st).1)
    decreases Remaining(depth), 2
  {
    hide EntryRepeats, Repeats, Clean, AllClean, Subschemas, Visited, Uncut, CompileAll, CompileDependencyList,
      CompileRef, CompileKeyword;
    ReachedClean(env, open, base, schema, kw, arg, depth, h);
    VisitedClean(env, open, base, schema, kw, arg, depth + 2, h - 1);
    if kw.Reference? {
      ReferenceVisit(env, base, schema, kw.kind, arg, depth, st);
      ReferenceUncut(env, open, base, kw.kind, arg, depth, st, h);
    } else if kw == Dependencies {
      DependenciesElsewhere(env, base, schema, arg, depth, st);
      if arg.Obj? {
        DependenciesVisit(env, base, schema, arg, depth, st);
        DependenciesUncut(env, open, base, arg.members, depth + 2, st, h - 1);
      }
    } else {
      KeywordVisits(env, base, schema, kw, arg, depth, st);
      AllUncut(env, open, base, Visited(env, schema, kw, arg), depth + 2, st, h - 1);
    }
  }

  lemma ReferenceVisit(env: Env, base: Resolver, schema: seq<Member>, kind: RefKind, arg: Json, depth: nat, st: State)
    requires depth <= MAX_DEPTH
    ensures CompileKeyword(env, base, schema, Reference(kind), arg, depth, st)
      == CompileRef(env, base, kind, arg, depth + 2, st)
  {
  }

  lemma DependenciesElsewhere(env: Env, base: Resolver, schema: seq<Member>, arg: Json, depth: nat, st: State)
    requires depth <= MAX_DEPTH
    ensures !arg.Obj? ==> Uncut(st, CompileKeyword(env, base, schema, Dependencies, arg, depth, st).1)
  {
  }

  lemma {:induction false} ReferenceUncut(env: Env, open: set<string>, base: Resolver, kind: RefKind, arg: Json,
        depth: nat, st: State, h: int)
    requires Sound(st) && st.keys == open && depth <= MAX_DEPTH
    requires var target := Referred(env, base, Reference(kind), arg);
      target.Some? ==>
        var key := CycleKey(target.value.base, arg.s);
        key !in open && Clean(env, open + {key}, target.value.base, target.value.schema, depth + 2, h - 1)
    ensures Uncut(st, CompileRef(env, base, kind, arg, depth + 2, st).1)
    decreases Remaining(depth), 1
  {
    hide Clean, CompileNode;
    var target := Referred(env, base, Reference(kind), arg);
    if target.Some? {
      var key := CycleKey(target.value.base, arg.s);
      MarkedSound(st, key);
      NodeUncut(env, open + {key}, target.value.base, target.value.schema, depth + 2, st.Mark(key), h - 1);
      NodeAdvances(env, target.value.base, target.value.schema, depth + 2, st.Mark(key));
      var (_, st1) := CompileNode(env, target.value.base, target.value.schema, depth + 2, st.Mark(key));
      Growth(st.Mark(key).keys, st1.keys);
    }
  }

  // ----- and every repetition is cut -----

  /** Nothing is dropped for its shape, and every chain of references, followed to the first key it repeats, fits `h`
      edges. */
  predicate Shaped(env: Env, open: set<string>, base: Resolver, s: Json, h: nat)
    decreases h
  {
    s.Bool? || (s.Obj? && forall k :: 0 <= k < |s.members| ==>
      EntryShaped(env, open, base, s.members, Active(env.draft, s.members, s.members[k].key), s.members[k].value, h))
  }

  predicate EntryShaped(env: Env, open: set<string>, base: Resolver, schema: seq<Member>, kw: Keyword, arg: Json,
        h: nat)
    decreases h, 0
  {
    && ShapeOk(env, base, schema, kw, arg)
    && (var subs := Subschemas(env.draft, schema, kw, arg);
        forall x :: 0 <= x < |subs| ==> h > 0 && Shaped(env, open, base, subs[x], h - 1))
    && (kw.Reference? ==>
          var target := Referred(env, base, kw, arg).value;
          var key := CycleKey(target.base, arg.s);
          key in open || (h > 0 && Shaped(env, open + {key}, target.base, target.schema, h - 1)))
  }

  /** Compiling leaves the state as it was but for its records, and cuts something iff there is a repetition. */
  ghost predicate Traced(st: State, st': State, repeats: bool) {
    && st' == st.(stacks := st'.stacks, cuts := st'.cuts)
    && st.cuts <= st'.cuts
    && (st'.cuts > st.cuts <==> repeats)
  }

  lemma TracedTwice(a: State, b: State, c: State, first: bool, rest: bool)
    requires Traced(a, b, first) && Traced(b, c, rest)
    ensures Traced(a, c, first || rest)
  {
  }

  lemma {:induction false} NodeCuts(env: Env, open: set<string>, base: Resolver, s: Json, depth: nat, st: State, h: nat)
    requires st.keys == open && depth + 2 * h <= MAX_DEPTH && Shaped(env, open, base, s, h)
    ensures var (r, st') := CompileNode(env, base, s, depth, st);
      r.Ok? && Traced(st, st', Repeats(env, open, base, s, h))
    decreases Remaining(depth), 4
  {
    if s.Obj? {
      hide EntryShaped, EntryRepeats, CompileEntries;
      EntriesCut(env, open, base, s.members, 0, depth, st, h);
      RepeatsFromStart(env, open, base, s.members, h);
    }
  }

  predicate EntryRepeatsAt(env: Env, open: set<string>, base: Resolver, schema: seq<Member>, k: nat, h: nat)
    requires k < |schema|
  {
    EntryRepeats(env, open, base, schema, Active(env.draft, schema, schema[k].key), schema[k].value, h)
  }

  predicate RepeatsFrom(env: Env, open: set<string>, base: Resolver, schema: seq<Member>, k: nat, h: nat) {
    exists j: nat :: k <= j < |schema| && EntryRepeatsAt(env, open, base, schema, j, h)
  }

  lemma RepeatsFromStart(env: Env, open: set<string>, base: Resolver, schema: seq<Member>, h: nat)
    ensures RepeatsFrom(env, open, base, schema, 0, h) <==> Repeats(env, open, base, Obj(schema), h)
  {
    hide EntryRepeats, Active;
    if RepeatsFrom(env, open, base, schema, 0, h) {
      var j: nat :| j < |schema| && EntryRepeatsAt(env, open, base, schema, j, h);
    }
    if Repeats(env, open, base, Obj(schema), h) {
      var j :| 0 <= j < |schema| &&
        EntryRepeats(env, open, base, schema, Active(env.draft, schema, schema[j].key), schema[j].value, h);
      assert EntryRepeatsAt(env, open, base, schema, j, h);
    }
  }

  lemma RepeatsNext(env: Env, open: set<string>, base: Resolver, schema: seq<Member>, k: nat, h: nat)
    requires k < |schema|
    ensures RepeatsFrom(env, open, base, schema, k, h)
      <==> EntryRepeatsAt(env, open, base, schema, k, h) || RepeatsFrom(env, open, base, schema, k + 1, h)
  {
    hide EntryRepeatsAt;
  }

  lemma EntryOfShaped(env: Env, open: set<string>, base: Resolver, schema: seq<Member>, k: nat, h: nat)
    requires Shaped(env, open, base, Obj(schema), h) && k < |schema|
    ensures EntryShaped(env, open, base, schema, Active(env.draft, schema, schema[k].key), schema[k].value, h)
  {
  }

  lemma {:induction false} EntriesCut(env: Env, open: set<string>, base: Resolver, schema: seq<Member>, k: nat,
        depth: nat, st: State, h: nat)
    requires k <= |schema| && st.keys == open && depth + 2 * h <= MAX_DEPTH && Shaped(env, open, base, Obj(schema), h)
    ensures var st' := CompileEntries(env, base, schema, k, depth, st).1;
      Traced(st, st', RepeatsFrom(env, open, base, schema, k, h))
    decreases Remaining(depth), 3, |schema| - k
  {
    hide Shaped, EntryShaped, EntryRepeats, CompileKeyword, Active;
    if k < |schema| {
      var kw, arg := Active(env.draft, schema, schema[k].key), schema[k].value;
      EntryOfShaped(env, open, base, schema, k, h);
      KeywordCuts(env, open, base, schema, kw, arg, depth, st, h);
      var (_, st1) := CompileKeyword(env, base, schema, kw, arg, depth, st);
      EntriesCut(env, open, base, schema, k + 1, depth, st1, h);
      RepeatsNext(env, open, base, schema, k, h);
    }
  }

  predicate SomeRepeats(env: Env, open: set<string>, base: Resolver, subs: seq<Json>, h: int) {
    h >= 0 && exists x :: 0 <= x < |subs| && Repeats(env, open, base, subs[x], h)
  }

  lemma SomeNext(env: Env, open: set<string>, base: Resolver, subs: seq<Json>, h: nat)
    requires subs != []
    ensures SomeRepeats(env, open, base, subs, h)
      <==> Repeats(env, open, base, subs[0], h) || SomeRepeats(env, open, base, subs[1..], h)
  {
    hide Repeats;
    assert forall x :: 0 <= x < |subs[1..]| ==> subs[1..][x] == subs[x + 1];
    assert forall x :: 0 < x < |subs| ==> subs[x] == subs[1..][x - 1];
  }

  predicate AllShaped(env: Env, open: set<string>, base: Resolver, subs: seq<Json>, depth: nat, h: int) {
    forall x :: 0 <= x < |subs| ==> FitsShaped(env, open, base, subs[x], depth, h)
  }

  predicate FitsShaped(env: Env, open: set<string>, base: Resolver, s: Json, depth: nat, h: int) {
    h >= 0 && depth + 2 * h <= MAX_DEPTH && Shaped(env, open, base, s, h)
  }

  lemma {:induction false} AllCut(env: Env, open: set<string>, base: Resolver, subs: seq<Json>, depth: nat, st: State,
        h: int)
    requires st.keys == open && AllShaped(env, open, base, subs, depth, h)
    ensures Traced(st, CompileAll(env, base, subs, depth, st).1, SomeRepeats(env, open, base, subs, h))
    decreases Remaining(depth), 5, |subs|
  {
    hide Shaped, Repeats, CompileNode;
    if subs != [] {
      assert FitsShaped(env, open, base, subs[0], depth, h);
      NodeCuts(env, open, base, subs[0], depth, st, h);
      var (r, st1) := CompileNode(env, base, subs[0], depth, st);
      AllCut(env, open, base, subs[1..], depth, st1, h);
      SomeNext(env, open, base, subs, h);
    }
  }

  lemma {:induction false} DependenciesCut(env: Env, open: set<string>, base: Resolver, members: seq<Member>,
        depth: nat, st: State, h: int)
    requires st.keys == open
    requires AllShaped(env, open, base, SchemasAmong(Values(members)), depth, h)
    ensures var st' := CompileDependencyList(env, base, members, depth, st).1;
      Traced(st, st', SomeRepeats(env, open, base, SchemasAmong(Values(members)), h))
    decreases Remaining(depth), 6, |members|
  {
    hide Shaped, Repeats, CompileNode;
    if members != [] {
      var subs, s := SchemasAmong(Values(members)), members[0].value;
      assert Values(members)[1..] == Values(members[1..]);
      if IsSchema(s) {
        assert subs[0] == s && subs[1..] == SchemasAmong(Values(members[1..]));
        assert FitsShaped(env, open, base, s, depth, h);
        NodeCuts(env, open, base, s, depth, st, h);
        var (_, st1) := CompileNode(env, base, s, depth, st);
        DependenciesCut(env, open, base, members[1..], depth, st1, h);
        SomeNext(env, open, base, subs, h);
      } else {
        assert subs == SchemasAmong(Values(members[1..]));
        DependenciesCut(env, open, base, members[1..], depth, st, h);
      }
    }
  }

  lemma SubschemasShaped(env: Env, open: set<string>, base: Resolver, schema: seq<Member>, kw: Keyword, arg: Json,
        depth: nat, h: nat)
    requires depth + 2 * h <= MAX_DEPTH && EntryShaped(env, open, base, schema, kw, arg, h)
    ensures var subs := Subschemas(env.draft, schema, kw, arg);
      && AllShaped(env, open, base, subs, depth + 2, h - 1)
      && (!kw.Reference? ==>
            (EntryRepeats(env, open, base, schema, kw, arg, h) <==> SomeRepeats(env, open, base, subs, h - 1)))
  {
    hide ShapeOk, Subschemas;
  }

  /** Nothing stops a shaped entry short of its subschemas. */
  lemma VisitedShaped(env: Env, open: set<string>, base: Resolver, schema: seq<Member>, kw: Keyword, arg: Json, h: nat)
    requires EntryShaped(env, open, base, schema, kw, arg, h)
    ensures kw != Dependencies && !kw.Reference? ==>
      Visited(env, schema, kw, arg) == Subschemas(env.draft, schema, kw, arg)
    ensures kw == Dependencies ==>
      arg.Obj? && Subschemas(env.draft, schema, kw, arg) == SchemasAmong(Values(arg.members))
  {
    hide ConditionalSubschemas, ItemSubschemas;
    if kw == PatternProperties {
      AllPatternsLead(env, arg.members);
      assert arg.members[..|arg.members|] == arg.members;
    } else if kw == AdditionalProperties {
      var subs := Subschemas(env.draft, schema, kw, arg);
      assert !arg.Bool? ==> Shaped(env, open, base, subs[0], h - 1);
    }
  }

  lemma {:induction false} KeywordCuts(env: Env, open: set<string>, base: Resolver, schema: seq<Member>, kw: Keyword,
        arg: Json, depth: nat, st: State, h: nat)
    requires st.keys == open && depth + 2 * h <= MAX_DEPTH && EntryShaped(env, open, base, schema, kw, arg, h)
    ensures Traced(st, CompileKeyword(env, base, schema, kw, arg, depth, st).1,
      EntryRepeats(env, open, base, schema, kw, arg, h))
    decreases Remaining(depth), 2
  {
    hide EntryShaped, EntryRepeats, AllShaped, SomeRepeats, Traced, Subschemas, Visited, CompileAll,
      CompileDependencyList, CompileKeyword;
    if kw.Reference? {
      ReferenceCuts(env, open, base, schema, kw.kind, arg, depth, st, h);
    } else {
      SubschemasShaped(env, open, base, schema, kw, arg, depth, h);
      VisitedShaped(env, open, base, schema, kw, arg, h);
      if kw == Dependencies {
        DependenciesVisit(env, base, schema, arg, depth, st);
        DependenciesCut(env, open, base, arg.members, depth + 2, st, h - 1);
      } else {
        KeywordVisits(env, base, schema, kw, arg, depth, st);
        AllCut(env, open, base, Subschemas(env.draft, schema, kw, arg), depth + 2, st, h - 1);
      }
    }
  }

  lemma {:induction false} ReferenceCuts(env: Env, open: set<string>, base: Resolver, schema: seq<Member>,
        kind: RefKind, arg: Json, depth: nat, st: State, h: nat)
    requires st.keys == open && depth + 2 * h <= MAX_DEPTH
    requires EntryShaped(env, open, base, schema, Reference(kind), arg, h)
    ensures Traced(st, CompileKeyword(env, base, schema, Reference(kind), arg, depth, st).1,
      EntryRepeats(env, open, base, schema, Reference(kind), arg, h))
    decreases Remaining(depth), 1
  {
    hide Shaped, Repeats, CompileNode;
    var target := env.lookup(kind, base, arg.s).value;
    var key := CycleKey(target.base, arg.s);
    ReferenceVisit(env, base, schema, kind, arg, depth, st);
    if key !in open {
      NodeCuts(env, open + {key}, target.base, target.schema, depth + 2, st.Mark(key), h - 1);
      assert open + {key} - {key} == open;
    }
  }

  // ----- repetitions and well-formedness -----

  /** A schema is well formed iff it is shaped and no chain of references repeats a key. */
  lemma {:induction false} WellFormedIff(env: Env, open: set<string>, base: Resolver, s: Json, h: nat)
    ensures WellFormed(env, open, base, s, h) <==> Shaped(env, open, base, s, h) && !Repeats(env, open, base, s, h)
    decreases h
  {
    hide ShapeOk, Subschemas;
    if s.Obj? {
      forall k | 0 <= k < |s.members|
        ensures var kw, arg := Active(env.draft, s.members, s.members[k].key), s.members[k].value;
          EntryWellFormed(env, open, base, s.members, kw, arg, h) <==>
            EntryShaped(env, open, base, s.members, kw, arg, h) && !EntryRepeats(env, open, base, s.members, kw, arg, h)
      {
        var kw, arg := Active(env.draft, s.members, s.members[k].key), s.members[k].value;
        EntryWellFormedIff(env, open, base, s.members, kw, arg, h);
      }
    }
  }

  predicate AllWellFormed(env: Env, open: set<string>, base: Resolver, subs: seq<Json>, h: int) {
    forall x :: 0 <= x < |subs| ==> Fits(env, open, base, subs[x], h)
  }

  predicate IsShaped(env: Env, open: set<string>, base: Resolver, s: Json, h: int) {
    h >= 0 && Shaped(env, open, base, s, h)
  }

  predicate EachShaped(env: Env, open: set<string>, base: Resolver, subs: seq<Json>, h: int) {
    forall x :: 0 <= x < |subs| ==> IsShaped(env, open, base, subs[x], h)
  }

  lemma {:induction false} AllWellFormedIff(env: Env, open: set<string>, base: Resolver, subs: seq<Json>, h: int)
    ensures AllWellFormed(env, open, base, subs, h)
      <==> EachShaped(env, open, base, subs, h) && !SomeRepeats(env, open, base, subs, h)
    decreases h + 1, 0
  {
    if h >= 0 {
      hide WellFormed, Shaped, Repeats;
      forall x | 0 <= x < |subs|
        ensures Fits(env, open, base, subs[x], h) <==>
          IsShaped(env, open, base, subs[x], h) && !Repeats(env, open, base, subs[x], h)
      {
        WellFormedIff(env, open, base, subs[x], h);
      }
    }
  }

  lemma WellFormedBySubschemas(env: Env, open: set<string>, base: Resolver, schema: seq<Member>, kw: Keyword,
        arg: Json, h: nat)
    requires !kw.Reference?
    ensures EntryWellFormed(env, open, base, schema, kw, arg, h) <==>
      ShapeOk(env, base, schema, kw, arg)
      && AllWellFormed(env, open, base, Subschemas(env.draft, schema, kw, arg), h - 1)
  {
    hide ShapeOk, Subschemas;
    var subs := Subschemas(env.draft, schema, kw, arg);
    if EntryWellFormed(env, open, base, schema, kw, arg, h) {
      forall x | 0 <= x < |subs| ensures Fits(env, open, base, subs[x], h - 1) {
      }
    } else if ShapeOk(env, base, schema, kw, arg) {
      var x :| 0 <= x < |subs| && (h == 0 || !WellFormed(env, open, base, subs[x], h - 1));
      assert !Fits(env, open, base, subs[x], h - 1);
    }
  }

  lemma ShapedBySubschemas(env: Env, open: set<string>, base: Resolver, schema: seq<Member>, kw: Keyword, arg: Json,
        h: nat)
    requires !kw.Reference?
    ensures EntryShaped(env, open, base, schema, kw, arg, h) <==>
      ShapeOk(env, base, schema, kw, arg)
      && EachShaped(env, open, base, Subschemas(env.draft, schema, kw, arg), h - 1)
  {
    hide ShapeOk, Subschemas;
    var subs := Subschemas(env.draft, schema, kw, arg);
    if EntryShaped(env, open, base, schema, kw, arg, h) {
      forall x | 0 <= x < |subs| ensures IsShaped(env, open, base, subs[x], h - 1) {
      }
    } else if ShapeOk(env, base, schema, kw, arg) {
      var x :| 0 <= x < |subs| && (h == 0 || !Shaped(env, open, base, subs[x], h - 1));
      assert !IsShaped(env, open, base, subs[x], h - 1);
    }
  }

  lemma RepeatsBySubschemas(env: Env, open: set<string>, base: Resolver, schema: seq<Member>, kw: Keyword, arg: Json,
        h: nat)
    requires !kw.Reference?
    ensures EntryRepeats(env, open, base, schema, kw, arg, h)
      <==> SomeRepeats(env, open, base, Subschemas(env.draft, schema, kw, arg), h - 1)
  {
    hide ShapeOk, Subschemas;
  }

  lemma ReferenceWellFormedIff(env: Env, open: set<string>, base: Resolver, schema: seq<Member>, kind: RefKind,
        arg: Json, h: nat)
    requires var target := Referred(env, base, Reference(kind), arg);
      target.Some? && h > 0 ==>
        var key := CycleKey(target.value.base, arg.s);
        WellFormed(env, open + {key}, target.value.base, target.value.schema, h - 1) <==>
          Shaped(env, open + {key}, target.value.base, target.value.schema, h - 1)
          && !Repeats(env, open + {key}, target.value.base, target.value.schema, h - 1)
    ensures EntryWellFormed(env, open, base, schema, Reference(kind), arg, h) <==>
      EntryShaped(env, open, base, schema, Reference(kind), arg, h)
      && !EntryRepeats(env, open, base, schema, Reference(kind), arg, h)
  {
  }

  lemma {:induction false} EntryWellFormedIff(env: Env, open: set<string>, base: Resolver, schema: seq<Member>,
        kw: Keyword, arg: Json, h: nat)
    ensures EntryWellFormed(env, open, base, schema, kw, arg, h) <==>
      EntryShaped(env, open, base, schema, kw, arg, h) && !EntryRepeats(env, open, base, schema, kw, arg, h)
    decreases h, 1
  {
    hide EntryWellFormed, EntryShaped, EntryRepeats, ShapeOk, Subschemas, AllWellFormed, EachShaped, SomeRepeats;
    if !kw.Reference? {
      WellFormedBySubschemas(env, open, base, schema, kw, arg, h);
      ShapedBySubschemas(env, open, base, schema, kw, arg, h);
      RepeatsBySubschemas(env, open, base, schema, kw, arg, h);
      AllWellFormedIff(env, open, base, Subschemas(env.draft, schema, kw, arg), h - 1);
    } else {
      var target := Referred(env, base, kw, arg);
      if target.Some? && h > 0 {
        var key := CycleKey(target.value.base, arg.s);
        WellFormedIff(env, open + {key}, target.value.base, target.value.schema, h - 1);
      }
      ReferenceWellFormedIff(env, open, base, schema, kw.kind, arg, h);
    }
  }

  // ----- results -----

  /** For every schema and reference graph: a reference is cut only if some chain of references within the depth
      allowance repeats a key, or some reference target failed to compile and left its key behind. */
  lemma CutOnlyIfKeyRepeats(env: Env, base: Resolver, s: Json)
    ensures var st := Compile(env, base, s).1;
      st.cuts > 0 ==> st.broken > 0 || Repeats(env, {}, base, s, 64)
  {
    if !Repeats(env, {}, base, s, 64) {
      NodeUncut(env, {}, base, s, 0, START, 64);
    }
  }

  /** For a schema on which nothing is dropped and whose chains of references, followed to the first key they repeat,
      fit the allowance: a reference is cut iff some chain repeats a key. */
  lemma CutIffKeyRepeats(env: Env, base: Resolver, s: Json)
    requires Shaped(env, {}, base, s, 64)
    ensures var (r, st) := Compile(env, base, s);
      && r.Ok? && st.keys == {} && st.tooDeep == 0 && st.broken == 0
      && (st.cuts > 0 <==> Repeats(env, {}, base, s, 64))
  {
    NodeCuts(env, {}, base, s, 0, START, 64);
  }
}
