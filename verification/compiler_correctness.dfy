/** The induction over the compiler. */
module CompilerCorrectness {
  import opened JsonValues
  import opened Keywords
  import opened SchemaTree
  import opened SchemaMeaning
  import opened Compiler
  import opened CompilerMeaning

  /** What compiling one entry yields. `then` and `else` beside `if` get the whole conditional again. */
  ghost predicate EntryResult(strict: bool, n: nat, env: Env, base: Resolver, schema: seq<Member>, kw: Keyword,
        arg: Json, v: Option<Validator>)
    requires n > 0
  {
    if kw == Branch && Has(schema, "if")
    then strict && v.Some? && forall i :: RepeatsConditional(n, env, base, schema, v.value, i)
    else forall i :: EntryRel(strict, n, env, base, schema, kw, arg, v, i)
  }

  ghost predicate RepeatsConditional(n: nat, env: Env, base: Resolver, schema: seq<Member>, v: Validator, i: Json)
    requires n > 0
  {
    Has(schema, "if") && (Holds(n, env, base, schema, If, Get(schema, "if").value, i) <==> Satisfies(env, v, i))
  }

  // ----- from entries to schema objects -----

  /** The validators of the entries from `k` on, against those entries. */
  ghost predicate EntriesRel(strict: bool, n: nat, env: Env, base: Resolver, schema: seq<Member>, k: nat,
        vs: seq<Validator>, i: Json)
    requires n > 0 && k <= |schema|
  {
    && (Eval(n, env, base, Obj(schema), i) ==> AllSatisfied(env, vs, i))
    && (strict && AllSatisfied(env, vs, i) ==> HoldsFrom(n, env, base, schema, k, i))
  }

  predicate AllSatisfied(env: Env, vs: seq<Validator>, i: Json) {
    forall x :: 0 <= x < |vs| ==> Satisfies(env, vs[x], i)
  }

  predicate HoldsEntry(n: nat, env: Env, base: Resolver, schema: seq<Member>, k: nat, i: Json)
    requires n > 0 && k < |schema|
  {
    Holds(n, env, base, schema, Active(env.draft, schema, schema[k].key), schema[k].value, i)
  }

  predicate HoldsFrom(n: nat, env: Env, base: Resolver, schema: seq<Member>, k: nat, i: Json)
    requires n > 0
  {
    forall j: nat :: k <= j < |schema| ==> HoldsEntry(n, env, base, schema, j, i)
  }

  lemma EvalIsHoldsFrom(n: nat, env: Env, base: Resolver, schema: seq<Member>, i: Json)
    requires n > 0
    ensures Eval(n, env, base, Obj(schema), i) <==> HoldsFrom(n, env, base, schema, 0, i)
  {
    if HoldsFrom(n, env, base, schema, 0, i) {
      forall j: nat | j < |schema|
        ensures Holds(n, env, base, schema, Active(env.draft, schema, schema[j].key), schema[j].value, i)
      {
        hide Holds, Active;
        assert HoldsEntry(n, env, base, schema, j, i);
      }
    } else {
      hide Holds, Active;
      var j: nat :| j < |schema| && !HoldsEntry(n, env, base, schema, j, i);
    }
  }

  lemma EntriesMeanSchema(strict: bool, n: nat, env: Env, base: Resolver, schema: seq<Member>, vs: seq<Validator>,
        i: Json)
    requires n > 0 && EntriesRel(strict, n, env, base, schema, 0, vs, i)
    ensures RelAt(strict, n, env, base, Obj(schema), Validators(vs), i)
  {
    EvalIsHoldsFrom(n, env, base, schema, i);
    assert Accepts(env, Validators(vs), i) <==> AllSatisfied(env, vs, i);
  }

  lemma EntriesStep(strict: bool, n: nat, env: Env, base: Resolver, schema: seq<Member>, k: nat, v: Option<Validator>,
        rest: seq<Validator>, i: Json)
    requires k < |schema| && n > 0
    requires Eval(n, env, base, Obj(schema), i) ==> Passes(env, v, i)
    requires strict && Passes(env, v, i) ==> HoldsEntry(n, env, base, schema, k, i)
    requires EntriesRel(strict, n, env, base, schema, k + 1, rest, i)
    ensures EntriesRel(strict, n, env, base, schema, k, if v.Some? then [v.value] + rest else rest, i)
  {
    hide Eval, Satisfies, HoldsEntry;
    var vs := if v.Some? then [v.value] + rest else rest;
    if v.Some? {
      assert forall x :: 0 <= x < |rest| ==> vs[x + 1] == rest[x];
      assert forall x :: 0 < x < |vs| ==> vs[x] == rest[x - 1];
      assert vs[0] == v.value;
    }
    assert AllSatisfied(env, vs, i) <==> Passes(env, v, i) && AllSatisfied(env, rest, i);
  }

  /** Beside an active `then` or `else`, an `if` is an active entry too. */
  lemma ConditionalEntry(env: Env, schema: seq<Member>, k: nat) returns (j: nat)
    requires k < |schema| && Active(env.draft, schema, schema[k].key) == Branch && Has(schema, "if")
    ensures j < |schema| && Active(env.draft, schema, schema[j].key) == If && Get(schema, "if") == Some(schema[j].value)
  {
    j := IndexFrom(schema, "if", 0).value;
    ConditionalNames();
    assert Parse(schema[k].key) != Reference(Static);
    assert !Suppressed(env.draft, schema, "if");
  }

  lemma EntryAgainstSchema(strict: bool, n: nat, env: Env, base: Resolver, schema: seq<Member>, k: nat,
        v: Option<Validator>, i: Json)
    requires k < |schema| && n > 0
    requires EntryResult(strict, n, env, base, schema, Active(env.draft, schema, schema[k].key), schema[k].value, v)
    ensures Eval(n, env, base, Obj(schema), i) ==> Passes(env, v, i)
    ensures strict && Passes(env, v, i) ==> HoldsEntry(n, env, base, schema, k, i)
  {
    var kw, arg := Active(env.draft, schema, schema[k].key), schema[k].value;
    assert Holds(n, env, base, schema, Branch, arg, i);
    hide Eval, Holds, Satisfies, Active, Has, Get;
    EvalIsHoldsFrom(n, env, base, schema, i);
    if kw == Branch && Has(schema, "if") {
      var j := ConditionalEntry(env, schema, k);
      assert RepeatsConditional(n, env, base, schema, v.value, i);
      assert Eval(n, env, base, Obj(schema), i) ==> HoldsEntry(n, env, base, schema, j, i);
    } else {
      assert EntryRel(strict, n, env, base, schema, kw, arg, v, i);
      assert Eval(n, env, base, Obj(schema), i) ==> HoldsEntry(n, env, base, schema, k, i);
    }
  }

  lemma EntryOfReady(strict: bool, n: nat, env: Env, open: set<string>, base: Resolver, schema: seq<Member>, k: nat,
        depth: nat, h: int)
    requires Ready(strict, n, env, open, base, Obj(schema), depth, h) && k < |schema| && depth <= MAX_DEPTH
    ensures var kw := Active(env.draft, schema, schema[k].key);
      EntryReady(strict, n, env, open, base, schema, kw, schema[k].value, depth, h)
  {
  }

  // ----- the induction -----

  /** When strict, compilation leaves the state as it was, but for the record of references taken. */
  predicate Restored(strict: bool, st: State, st': State) {
    strict ==> st' == st.(stacks := st'.stacks)
  }

  lemma {:induction false} NodeCompiles(strict: bool, n: nat, env: Env, open: set<string>, base: Resolver, s: Json,
        depth: nat, st: State,
        h: int)
    requires Ready(strict, n, env, open, base, s, depth, h)
    requires strict ==> st.keys == open
    ensures var (r, st') := CompileNode(env, base, s, depth, st);
      && (strict ==> r.Ok?) && Restored(strict, st, st')
      && (r.Ok? ==> Rel(strict, n, env, base, s, r.value))
    decreases Remaining(depth), 4
  {
    var (r, st') := CompileNode(env, base, s, depth, st);
    if depth <= MAX_DEPTH && s.Obj? {
      hide Eval, Accepts, Satisfies, Holds, WellFormed, Positive;
      var (vs, st2) := CompileEntries(env, base, s.members, 0, depth, st);
      assert (r, st') == (Ok(Validators(vs)), st2);
      EntriesCompile(strict, n, env, open, base, s.members, 0, depth, st, h);
      forall i ensures RelAt(strict, n, env, base, s, r.value, i) {
        EntriesMeanSchema(strict, n, env, base, s.members, vs, i);
      }
    } else if r.Ok? {
      BooleanRel(strict, n, env, base, s.b);
    }
  }

  lemma {:induction false} EntriesCompile(strict: bool, n: nat, env: Env, open: set<string>, base: Resolver,
        schema: seq<Member>, k: nat,
        depth: nat, st: State, h: int)
    requires k <= |schema| && depth <= MAX_DEPTH && n > 0
    requires Ready(strict, n, env, open, base, Obj(schema), depth, h)
    requires strict ==> st.keys == open
    ensures var (vs, st') := CompileEntries(env, base, schema, k, depth, st);
      Restored(strict, st, st')
    ensures forall i ::
      EntriesRel(strict, n, env, base, schema, k, CompileEntries(env, base, schema, k, depth, st).0, i)
    decreases Remaining(depth), 3, |schema| - k
  {
    hide Eval, Accepts, Satisfies, Holds, Ready, EntryResult, Active, CompileKeyword;
    var (vs, st') := CompileEntries(env, base, schema, k, depth, st);
    if k < |schema| {
      var kw, arg := Active(env.draft, schema, schema[k].key), schema[k].value;
      EntryOfReady(strict, n, env, open, base, schema, k, depth, h);
      KeywordCompiles(strict, n, env, open, base, schema, kw, arg, depth, st, h);
      var (v, st1) := CompileKeyword(env, base, schema, kw, arg, depth, st);
      assert EntryResult(strict, n, env, base, schema, kw, arg, v);
      EntriesCompile(strict, n, env, open, base, schema, k + 1, depth, st1, h);
      var (rest, st2) := CompileEntries(env, base, schema, k + 1, depth, st1);
      assert vs == (if v.Some? then [v.value] + rest else rest) && st' == st2;
      forall i ensures EntriesRel(strict, n, env, base, schema, k, vs, i) {
        EntryAgainstSchema(strict, n, env, base, schema, k, v, i);
        EntriesStep(strict, n, env, base, schema, k, v, rest, i);
      }
    }
  }

  lemma {:induction false} AllCompile(strict: bool, n: nat, env: Env, open: set<string>, base: Resolver,
        subs: seq<Json>, depth: nat,
        st: State, h: int)
    requires AllReady(strict, n, env, open, base, subs, depth, h)
    requires strict ==> st.keys == open
    ensures var (rs, st') := CompileAll(env, base, subs, depth, st);
      && (strict ==> rs.Some?) && Restored(strict, st, st')
      && (rs.Some? ==> RelAll(strict, n, env, base, subs, rs.value))
    decreases Remaining(depth), 5, |subs|
  {
    hide Accepts, Satisfies, Eval, Holds, Ready, Rel, CompileNode;
    if subs != [] {
      NodeCompiles(strict, n, env, open, base, subs[0], depth, st, h);
      var (r, st1) := CompileNode(env, base, subs[0], depth, st);
      if r.Ok? {
        AllCompile(strict, n, env, open, base, subs[1..], depth, st1, h);
      }
    }
  }

  lemma {:induction false} PatternsCompile(strict: bool, n: nat, env: Env, open: set<string>, base: Resolver,
        members: seq<Member>,
        depth: nat, st: State, h: int)
    requires AllReady(strict, n, env, open, base, Values(members), depth, h)
    requires strict ==> forall p :: 0 <= p < |members| ==> env.regexOk(members[p].key)
    requires strict ==> st.keys == open
    ensures var (rs, st') := CompilePatterns(env, base, members, depth, st);
      && (strict ==> rs.Some?) && Restored(strict, st, st')
      && (rs.Some? ==> RelAll(strict, n, env, base, Values(members), rs.value))
    decreases Remaining(depth), 6, |members|
  {
    hide Accepts, Satisfies, Eval, Holds, Ready, Rel, CompileNode;
    if members != [] && env.regexOk(members[0].key) {
      assert Values(members)[0] == members[0].value;
      NodeCompiles(strict, n, env, open, base, members[0].value, depth, st, h);
      var (r, st1) := CompileOne(env, base, members[0].value, depth, st);
      if r.Some? {
        assert Values(members[1..]) == Values(members)[1..];
        PatternsCompile(strict, n, env, open, base, members[1..], depth, st1, h);
      }
    }
  }

  // ----- `dependencies` -----

  predicate AllHold(n: nat, env: Env, base: Resolver, members: seq<Member>, i: Json)
    requires n > 0 && i.Obj?
  {
    forall p :: 0 <= p < |members| ==> DependencyHolds(n, env, base, members[p], i)
  }

  predicate AllMet(env: Env, deps: seq<Dependency>, i: Json)
    requires i.Obj?
  {
    forall k :: 0 <= k < |deps| ==> DependencyMet(env, deps[k], i)
  }

  ghost predicate DependenciesRel(strict: bool, n: nat, env: Env, base: Resolver, members: seq<Member>,
        deps: seq<Dependency>, i: Json)
    requires n > 0 && i.Obj?
  {
    && (AllHold(n, env, base, members, i) ==> AllMet(env, deps, i))
    && (strict && AllMet(env, deps, i) ==> AllHold(n, env, base, members, i))
  }

  lemma AllHoldSplits(n: nat, env: Env, base: Resolver, members: seq<Member>, i: Json)
    requires n > 0 && i.Obj? && members != []
    ensures AllHold(n, env, base, members, i)
      <==> DependencyHolds(n, env, base, members[0], i) && AllHold(n, env, base, members[1..], i)
  {
    hide DependencyHolds;
    assert forall p :: 0 <= p < |members[1..]| ==> members[1..][p] == members[p + 1];
    assert forall p :: 0 < p < |members| ==> members[p] == members[1..][p - 1];
  }

  lemma AllMetSplits(env: Env, d: Dependency, rest: seq<Dependency>, i: Json)
    requires i.Obj?
    ensures AllMet(env, [d] + rest, i) <==> DependencyMet(env, d, i) && AllMet(env, rest, i)
  {
    hide DependencyMet;
    var deps := [d] + rest;
    assert deps[0] == d;
    assert forall k :: 0 <= k < |rest| ==> deps[k + 1] == rest[k];
    assert forall k :: 0 < k < |deps| ==> deps[k] == rest[k - 1];
  }

  lemma DependenciesStep(strict: bool, n: nat, env: Env, base: Resolver, members: seq<Member>, d: Option<Dependency>,
        rest: seq<Dependency>, i: Json)
    requires n > 0 && i.Obj? && members != []
    requires FirstRel(strict, n, env, base, members[0], d, i)
    requires DependenciesRel(strict, n, env, base, members[1..], rest, i)
    ensures DependenciesRel(strict, n, env, base, members, if d.Some? then [d.value] + rest else rest, i)
  {
    hide AllHold, AllMet, DependencyHolds, DependencyMet;
    AllHoldSplits(n, env, base, members, i);
    if d.Some? {
      AllMetSplits(env, d.value, rest, i);
    }
  }

  lemma {:induction false} DependenciesCompile(strict: bool, n: nat, env: Env, open: set<string>, base: Resolver,
        members: seq<Member>,
        depth: nat, st: State, h: int)
    requires n > 0
    requires forall p :: 0 <= p < |members| && IsSchema(members[p].value) ==>
      Ready(strict, n - 1, env, open, base, members[p].value, depth, h)
    requires strict ==> forall p :: 0 <= p < |members| ==> members[p].value.Arr? || IsSchema(members[p].value)
    requires strict ==> st.keys == open
    ensures var (deps, st') := CompileDependencyList(env, base, members, depth, st);
      && Restored(strict, st, st')
      && forall i: Json | i.Obj? :: DependenciesRel(strict, n, env, base, members, deps, i)
    decreases Remaining(depth), 6, |members|
  {
    hide Accepts, Satisfies, Eval, Holds, FirstRel, DependenciesRel;
    if members != [] {
      var (deps, _) := CompileDependencyList(env, base, members, depth, st);
      var first := FirstDependency(strict, n, env, open, base, members, depth, st, h);
      var d, st1 := first.0, first.1;
      DependenciesCompile(strict, n, env, open, base, members[1..], depth, st1, h);
      var (rest, _) := CompileDependencyList(env, base, members[1..], depth, st1);
      forall i: Json | i.Obj? ensures DependenciesRel(strict, n, env, base, members, deps, i) {
        assert FirstRel(strict, n, env, base, members[0], d, i);
        DependenciesStep(strict, n, env, base, members, d, rest, i);
      }
    } else {
      forall i: Json | i.Obj? ensures DependenciesRel(strict, n, env, base, members, [], i) {
        NoDependencies(strict, n, env, base, i);
      }
    }
  }

  lemma NoDependencies(strict: bool, n: nat, env: Env, base: Resolver, i: Json)
    requires n > 0 && i.Obj?
    ensures DependenciesRel(strict, n, env, base, [], [], i)
  {
  }

  ghost predicate FirstRel(strict: bool, n: nat, env: Env, base: Resolver, m: Member, d: Option<Dependency>, i: Json)
    requires n > 0 && i.Obj?
  {
    && (DependencyHolds(n, env, base, m, i) && d.Some? ==> DependencyMet(env, d.value, i))
    && (strict && (d.Some? ==> DependencyMet(env, d.value, i)) ==> DependencyHolds(n, env, base, m, i))
  }

  lemma NamesRel(strict: bool, n: nat, env: Env, base: Resolver, m: Member, i: Json)
    requires n > 0 && m.value.Arr? && i.Obj?
    ensures var names := NamesIn(m.value.items);
      FirstRel(strict, n, env, base, m, if names != [] then Some(NeedsNames(m.key, names)) else None, i)
  {
    var names := NamesIn(m.value.items);
    NamesPresentMeansAll(m.value.items, i);
    assert DependencyHolds(n, env, base, m, i) <==> (Has(i.members, m.key) ==> NamesPresent(m.value.items, i));
  }

  lemma NestedRel(strict: bool, n: nat, env: Env, base: Resolver, m: Member, t: Node, i: Json)
    requires n > 0 && !m.value.Arr? && i.Obj?
    requires Rel(strict, n - 1, env, base, m.value, t)
    ensures FirstRel(strict, n, env, base, m, Some(NeedsSchema(m.key, t)), i)
  {
    assert RelAt(strict, n - 1, env, base, m.value, t, i);
    assert DependencyHolds(n, env, base, m, i) <==> (Has(i.members, m.key) ==> Eval(n - 1, env, base, m.value, i));
  }

  lemma {:induction false} FirstDependency(strict: bool, n: nat, env: Env, open: set<string>, base: Resolver,
        members: seq<Member>,
        depth: nat, st: State, h: int)
      returns (r: (Option<Dependency>, State))
    requires n > 0 && members != []
    requires IsSchema(members[0].value) ==> Ready(strict, n - 1, env, open, base, members[0].value, depth, h)
    requires strict ==> members[0].value.Arr? || IsSchema(members[0].value)
    requires strict ==> st.keys == open
    ensures var (deps, st') := CompileDependencyList(env, base, members, depth, st);
      var (rest, st2) := CompileDependencyList(env, base, members[1..], depth, r.1);
      deps == (if r.0.Some? then [r.0.value] + rest else rest) && st' == st2
    ensures Restored(strict, st, r.1)
    ensures forall i: Json | i.Obj? :: FirstRel(strict, n, env, base, members[0], r.0, i)
    decreases Remaining(depth), 5
  {
    hide Eval, Accepts, Satisfies, Holds, DependencyHolds, DependencyMet, Ready;
    var m := members[0];
    if m.value.Arr? {
      var names := NamesIn(m.value.items);
      r := (if names != [] then Some(NeedsNames(m.key, names)) else None, st);
      forall i: Json | i.Obj? ensures FirstRel(strict, n, env, base, m, r.0, i) {
        NamesRel(strict, n, env, base, m, i);
      }
    } else if IsSchema(m.value) {
      NodeCompiles(strict, n - 1, env, open, base, m.value, depth, st, h);
      var (t, st1) := CompileOne(env, base, m.value, depth, st);
      r := (if t.Some? then Some(NeedsSchema(m.key, t.value)) else None, st1);
      forall i: Json | i.Obj? ensures FirstRel(strict, n, env, base, m, r.0, i) {
        if t.Some? {
          NestedRel(strict, n, env, base, m, t.value, i);
        }
      }
    } else {
      r := (None, st);
    }
  }

  // ----- one lemma for each keyword compiler -----

  lemma ShapeOfReady(strict: bool, n: nat, env: Env, open: set<string>, base: Resolver, schema: seq<Member>,
        kw: Keyword, arg: Json, depth: nat, h: int)
    requires EntryReady(strict, n, env, open, base, schema, kw, arg, depth, h)
    ensures n > 0 && depth <= MAX_DEPTH
    ensures if strict then ShapeOk(env, base, schema, kw, arg)
      else h >= 0 && EntryPositive(env, base, schema, kw, arg, h)
  {
  }

  /** A keyword with one subschema. */
  lemma SoleReady(strict: bool, n: nat, env: Env, open: set<string>, base: Resolver, schema: seq<Member>, kw: Keyword,
        arg: Json, depth: nat, h: int)
    requires EntryReady(strict, n, env, open, base, schema, kw, arg, depth, h)
    requires (kw == Not || kw == Contains || kw == PropertyNames)
    ensures n > 0 && depth <= MAX_DEPTH && Ready(strict, n - 1, env, open, base, arg, depth + 2, h - 1)
    ensures (strict ==> IsSchema(arg)) && (kw == Not ==> strict)
    ensures kw == Contains && !strict ==> MaxContains(env.draft, schema).None?
  {
    hide EntryReady, Ready;
    ShapeOfReady(strict, n, env, open, base, schema, kw, arg, depth, h);
    SubschemasReady(strict, n, env, open, base, schema, kw, arg, depth, h);
    assert Subschemas(env.draft, schema, kw, arg)[0] == arg;
    ReadyIsSchema(strict, n - 1, env, open, base, arg, depth + 2, h - 1);
  }

  lemma ReadyIsSchema(strict: bool, n: nat, env: Env, open: set<string>, base: Resolver, s: Json, depth: nat, h: int)
    requires Ready(strict, n, env, open, base, s, depth, h)
    ensures strict ==> IsSchema(s)
  {
  }

  /** A keyword with a list of subschemas. */
  lemma ListReady(strict: bool, n: nat, env: Env, open: set<string>, base: Resolver, schema: seq<Member>, kw: Keyword,
        arg: Json, depth: nat, h: int)
    requires EntryReady(strict, n, env, open, base, schema, kw, arg, depth, h) && (kw.Combine? || kw == PrefixItems)
    ensures n > 0 && depth <= MAX_DEPTH && (strict ==> arg.Arr?) && (kw == Combine(OneOf) ==> strict)
    ensures arg.Arr? ==> AllReady(strict, n - 1, env, open, base, arg.items, depth + 2, h - 1)
  {
    hide EntryReady, Ready, WellFormed;
    ShapeOfReady(strict, n, env, open, base, schema, kw, arg, depth, h);
    SubschemasReady(strict, n, env, open, base, schema, kw, arg, depth, h);
  }

  /** A keyword with an object of subschemas. */
  lemma MembersReady(strict: bool, n: nat, env: Env, open: set<string>, base: Resolver, schema: seq<Member>,
        kw: Keyword, arg: Json, depth: nat, h: int)
    requires EntryReady(strict, n, env, open, base, schema, kw, arg, depth, h)
    requires (kw == Properties || kw == PatternProperties)
    ensures n > 0 && depth <= MAX_DEPTH && (strict ==> arg.Obj?)
    ensures arg.Obj? ==> AllReady(strict, n - 1, env, open, base, Values(arg.members), depth + 2, h - 1)
    ensures strict && kw == PatternProperties ==> forall p :: 0 <= p < |arg.members| ==> env.regexOk(arg.members[p].key)
  {
    hide EntryReady, Ready, WellFormed;
    ShapeOfReady(strict, n, env, open, base, schema, kw, arg, depth, h);
    SubschemasReady(strict, n, env, open, base, schema, kw, arg, depth, h);
  }

  lemma DependentReady(strict: bool, n: nat, env: Env, open: set<string>, base: Resolver, schema: seq<Member>,
        arg: Json, depth: nat, h: int)
    requires EntryReady(strict, n, env, open, base, schema, DependentSchemas, arg, depth, h)
    ensures n > 0 && depth <= MAX_DEPTH && (strict ==> arg.Obj?)
    ensures arg.Obj? ==> AllReady(strict, n - 1, env, open, base, Values(SchemaMembers(arg.members)), depth + 2, h - 1)
  {
    hide EntryReady, Ready, WellFormed;
    ShapeOfReady(strict, n, env, open, base, schema, DependentSchemas, arg, depth, h);
    SubschemasReady(strict, n, env, open, base, schema, DependentSchemas, arg, depth, h);
  }

  lemma DependenciesReady(strict: bool, n: nat, env: Env, open: set<string>, base: Resolver, schema: seq<Member>,
        arg: Json, depth: nat, h: int)
    requires EntryReady(strict, n, env, open, base, schema, Dependencies, arg, depth, h)
    ensures n > 0 && depth <= MAX_DEPTH && (strict ==> arg.Obj?)
    ensures arg.Obj? ==> forall p :: 0 <= p < |arg.members| && IsSchema(arg.members[p].value) ==>
      Ready(strict, n - 1, env, open, base, arg.members[p].value, depth + 2, h - 1)
    ensures strict ==> forall p :: 0 <= p < |arg.members| ==>
      arg.members[p].value.Arr? || IsSchema(arg.members[p].value)
  {
    hide EntryReady, Ready, WellFormed;
    ShapeOfReady(strict, n, env, open, base, schema, Dependencies, arg, depth, h);
    SubschemasReady(strict, n, env, open, base, schema, Dependencies, arg, depth, h);
    if arg.Obj? {
      var ms := arg.members;
      forall p | 0 <= p < |ms| && IsSchema(ms[p].value)
        ensures Ready(strict, n - 1, env, open, base, ms[p].value, depth + 2, h - 1)
      {
        assert Values(ms)[p] in Values(ms);
        assert ms[p].value in SchemasAmong(Values(ms));
      }
    }
  }

  lemma {:induction false} CombinationCompiles(strict: bool, n: nat, env: Env, open: set<string>, base: Resolver,
        schema: seq<Member>,
        how: Combination, arg: Json, depth: nat, st: State, h: int)
    requires EntryReady(strict, n, env, open, base, schema, Combine(how), arg, depth, h)
    requires strict ==> st.keys == open
    ensures var (v, st') := CompileCombination(env, base, how, arg, depth + 2, st);
      Restored(strict, st, st') && EntryResult(strict, n, env, base, schema, Combine(how), arg, v)
    decreases Remaining(depth), 1
  {
    hide Eval, Accepts, Satisfies, Holds, EntryReady, Ready, AllReady, Rel, RelAll, CompileAll, CompileNode;
    ListReady(strict, n, env, open, base, schema, Combine(how), arg, depth, h);
    var (v, _) := CompileCombination(env, base, how, arg, depth + 2, st);
    if arg.Arr? {
      AllCompile(strict, n - 1, env, open, base, arg.items, depth + 2, st, h - 1);
      var (rs, _) := CompileAll(env, base, arg.items, depth + 2, st);
      forall i ensures EntryRel(strict, n, env, base, schema, Combine(how), arg, v, i) {
        if rs.Some? {
          CombineRel(strict, n, env, base, schema, how, arg, rs.value, i);
        }
      }
    }
  }

  lemma {:induction false} PrefixItemsCompile(strict: bool, n: nat, env: Env, open: set<string>, base: Resolver,
        schema: seq<Member>,
        arg: Json, depth: nat, st: State, h: int)
    requires EntryReady(strict, n, env, open, base, schema, PrefixItems, arg, depth, h)
    requires strict ==> st.keys == open
    ensures var (v, st') := CompilePrefixItems(env, base, arg, depth + 2, st);
      Restored(strict, st, st') && EntryResult(strict, n, env, base, schema, PrefixItems, arg, v)
    decreases Remaining(depth), 1
  {
    hide Eval, Accepts, Satisfies, Holds, EntryReady, Ready, AllReady, Rel, RelAll, CompileAll, CompileNode;
    ListReady(strict, n, env, open, base, schema, PrefixItems, arg, depth, h);
    var (v, _) := CompilePrefixItems(env, base, arg, depth + 2, st);
    if arg.Arr? {
      AllCompile(strict, n - 1, env, open, base, arg.items, depth + 2, st, h - 1);
      var (rs, _) := CompileAll(env, base, arg.items, depth + 2, st);
      forall i ensures EntryRel(strict, n, env, base, schema, PrefixItems, arg, v, i) {
        if rs.Some? {
          PrefixItemsRel(strict, n, env, base, schema, arg, rs.value, i);
        }
      }
    }
  }

  lemma {:induction false} NotCompiles(strict: bool, n: nat, env: Env, open: set<string>, base: Resolver,
        schema: seq<Member>, arg: Json,
        depth: nat, st: State, h: int)
    requires EntryReady(strict, n, env, open, base, schema, Not, arg, depth, h)
    requires strict ==> st.keys == open
    ensures var (v, st') := CompileNot(env, base, arg, depth + 2, st);
      Restored(strict, st, st') && EntryResult(strict, n, env, base, schema, Not, arg, v)
    decreases Remaining(depth), 1
  {
    hide Eval, Accepts, Satisfies, Holds, EntryReady, Ready, Rel, CompileNode;
    SoleReady(strict, n, env, open, base, schema, Not, arg, depth, h);
    var (v, _) := CompileNot(env, base, arg, depth + 2, st);
    NodeCompiles(strict, n - 1, env, open, base, arg, depth + 2, st, h - 1);
    var (r, _) := CompileOne(env, base, arg, depth + 2, st);
    forall i ensures EntryRel(strict, n, env, base, schema, Not, arg, v, i) {
      if r.Some? {
        NotRel(n, env, base, schema, arg, r.value, i);
      }
    }
  }

  lemma {:induction false} ContainsCompiles(strict: bool, n: nat, env: Env, open: set<string>, base: Resolver,
        schema: seq<Member>,
        arg: Json, depth: nat, st: State, h: int)
    requires EntryReady(strict, n, env, open, base, schema, Contains, arg, depth, h)
    requires strict ==> st.keys == open
    ensures var (v, st') := CompileContains(env, base, schema, arg, depth + 2, st);
      Restored(strict, st, st') && EntryResult(strict, n, env, base, schema, Contains, arg, v)
    decreases Remaining(depth), 1
  {
    hide Eval, Accepts, Satisfies, Holds, EntryReady, Ready, Rel, CompileNode;
    SoleReady(strict, n, env, open, base, schema, Contains, arg, depth, h);
    var (v, _) := CompileContains(env, base, schema, arg, depth + 2, st);
    NodeCompiles(strict, n - 1, env, open, base, arg, depth + 2, st, h - 1);
    var (r, _) := CompileOne(env, base, arg, depth + 2, st);
    forall i ensures EntryRel(strict, n, env, base, schema, Contains, arg, v, i) {
      if r.Some? {
        CompiledIsSchema(env, base, arg, depth + 2, st);
        ContainsRel(strict, n, env, base, schema, arg, r.value, i);
      }
    }
  }

  lemma {:induction false} PropertyNamesCompile(strict: bool, n: nat, env: Env, open: set<string>, base: Resolver,
        schema: seq<Member>,
        arg: Json, depth: nat, st: State, h: int)
    requires EntryReady(strict, n, env, open, base, schema, PropertyNames, arg, depth, h)
    requires strict ==> st.keys == open
    ensures var (v, st') := CompilePropertyNames(env, base, arg, depth + 2, st);
      Restored(strict, st, st') && EntryResult(strict, n, env, base, schema, PropertyNames, arg, v)
    decreases Remaining(depth), 1
  {
    hide Eval, Accepts, Satisfies, Holds, EntryReady, Ready, Rel, CompileNode;
    SoleReady(strict, n, env, open, base, schema, PropertyNames, arg, depth, h);
    var (v, _) := CompilePropertyNames(env, base, arg, depth + 2, st);
    NodeCompiles(strict, n - 1, env, open, base, arg, depth + 2, st, h - 1);
    var (r, _) := CompileOne(env, base, arg, depth + 2, st);
    forall i ensures EntryRel(strict, n, env, base, schema, PropertyNames, arg, v, i) {
      if r.Some? {
        PropertyNamesRel(strict, n, env, base, schema, arg, r.value, i);
      } else {
        NamesAllPass(env, i);
      }
    }
  }

  lemma CompiledIsSchema(env: Env, base: Resolver, s: Json, depth: nat, st: State)
    ensures CompileOne(env, base, s, depth, st).0.Some? ==> IsSchema(s)
  {
    var (r, _) := CompileNode(env, base, s, depth, st);
    assert r.Ok? ==> IsSchema(s);
  }

  lemma NamesAllPass(env: Env, i: Json)
    ensures Satisfies(env, PropertyNamesV(AlwaysValid), i)
  {
  }

  lemma {:induction false} PropertiesCompile(strict: bool, n: nat, env: Env, open: set<string>, base: Resolver,
        schema: seq<Member>,
        arg: Json, depth: nat, st: State, h: int)
    requires EntryReady(strict, n, env, open, base, schema, Properties, arg, depth, h)
    requires strict ==> st.keys == open
    ensures var (v, st') := CompileProperties(env, base, arg, depth + 2, st);
      Restored(strict, st, st') && EntryResult(strict, n, env, base, schema, Properties, arg, v)
    decreases Remaining(depth), 1
  {
    hide Eval, Accepts, Satisfies, Holds, EntryReady, Ready, AllReady, Rel, RelAll, CompileAll, CompileNode;
    MembersReady(strict, n, env, open, base, schema, Properties, arg, depth, h);
    var (v, _) := CompileProperties(env, base, arg, depth + 2, st);
    if arg.Obj? {
      AllCompile(strict, n - 1, env, open, base, Values(arg.members), depth + 2, st, h - 1);
      var (rs, _) := CompileAll(env, base, Values(arg.members), depth + 2, st);
      forall i ensures EntryRel(strict, n, env, base, schema, Properties, arg, v, i) {
        if rs.Some? {
          PropertiesRel(strict, n, env, base, schema, arg, rs.value, i);
        }
      }
    }
  }

  lemma {:induction false} PatternPropertiesCompile(strict: bool, n: nat, env: Env, open: set<string>, base: Resolver,
        schema: seq<Member>,
        arg: Json, depth: nat, st: State, h: int)
    requires EntryReady(strict, n, env, open, base, schema, PatternProperties, arg, depth, h)
    requires strict ==> st.keys == open
    ensures var (v, st') := CompilePatternProperties(env, base, arg, depth + 2, st);
      Restored(strict, st, st') && EntryResult(strict, n, env, base, schema, PatternProperties, arg, v)
    decreases Remaining(depth), 1
  {
    hide Eval, Accepts, Satisfies, Holds, EntryReady, Ready, AllReady, Rel, RelAll, CompilePatterns, CompileNode;
    MembersReady(strict, n, env, open, base, schema, PatternProperties, arg, depth, h);
    var (v, _) := CompilePatternProperties(env, base, arg, depth + 2, st);
    if arg.Obj? {
      PatternsCompile(strict, n - 1, env, open, base, arg.members, depth + 2, st, h - 1);
      var (rs, _) := CompilePatterns(env, base, arg.members, depth + 2, st);
      forall i ensures EntryRel(strict, n, env, base, schema, PatternProperties, arg, v, i) {
        if rs.Some? {
          PatternPropertiesRel(strict, n, env, base, schema, arg, rs.value, i);
        }
      }
    }
  }

  lemma {:induction false} DependentSchemasCompile(strict: bool, n: nat, env: Env, open: set<string>, base: Resolver,
        schema: seq<Member>,
        arg: Json, depth: nat, st: State, h: int)
    requires EntryReady(strict, n, env, open, base, schema, DependentSchemas, arg, depth, h)
    requires strict ==> st.keys == open
    ensures var (v, st') := CompileDependentSchemas(env, base, arg, depth + 2, st);
      Restored(strict, st, st') && EntryResult(strict, n, env, base, schema, DependentSchemas, arg, v)
    decreases Remaining(depth), 1
  {
    hide Eval, Accepts, Satisfies, Holds, EntryReady, Ready, AllReady, Rel, RelAll, CompileAll, CompileNode;
    DependentReady(strict, n, env, open, base, schema, arg, depth, h);
    var (v, _) := CompileDependentSchemas(env, base, arg, depth + 2, st);
    if arg.Obj? {
      AllCompile(strict, n - 1, env, open, base, Values(SchemaMembers(arg.members)), depth + 2, st, h - 1);
      var (rs, _) := CompileAll(env, base, Values(SchemaMembers(arg.members)), depth + 2, st);
      forall i ensures EntryRel(strict, n, env, base, schema, DependentSchemas, arg, v, i) {
        if rs.Some? {
          DependentSchemasRel(strict, n, env, base, schema, arg, SchemaMembers(arg.members), rs.value, i);
          if SchemaMembers(arg.members) == [] {
            NothingDepends(env, Name(SchemaMembers(arg.members), rs.value), i);
          }
        }
      }
    }
  }

  lemma NothingDepends(env: Env, deps: seq<Named>, i: Json)
    requires deps == []
    ensures Satisfies(env, DependentSchemasV(deps), i)
  {
  }

  lemma {:induction false} DependenciesKeyword(strict: bool, n: nat, env: Env, open: set<string>, base: Resolver,
        schema: seq<Member>,
        arg: Json, depth: nat, st: State, h: int)
    requires EntryReady(strict, n, env, open, base, schema, Dependencies, arg, depth, h)
    requires strict ==> st.keys == open
    ensures var (v, st') := CompileDependencies(env, base, arg, depth + 2, st);
      Restored(strict, st, st') && EntryResult(strict, n, env, base, schema, Dependencies, arg, v)
    decreases Remaining(depth), 1
  {
    hide Eval, Accepts, Satisfies, Holds, EntryReady, Ready, DependenciesRel, CompileDependencyList;
    DependenciesReady(strict, n, env, open, base, schema, arg, depth, h);
    var (v, _) := CompileDependencies(env, base, arg, depth + 2, st);
    if arg.Obj? {
      DependenciesCompile(strict, n, env, open, base, arg.members, depth + 2, st, h - 1);
      var (deps, _) := CompileDependencyList(env, base, arg.members, depth + 2, st);
      forall i ensures EntryRel(strict, n, env, base, schema, Dependencies, arg, v, i) {
        DependenciesMean(strict, n, env, base, schema, arg, deps, i);
      }
    }
  }

  lemma DependenciesMean(strict: bool, n: nat, env: Env, base: Resolver, schema: seq<Member>, arg: Json,
        deps: seq<Dependency>, i: Json)
    requires n > 0 && arg.Obj?
    requires i.Obj? ==> DependenciesRel(strict, n, env, base, arg.members, deps, i)
    ensures EntryRel(strict, n, env, base, schema, Dependencies, arg, Some(DependenciesV(deps)), i)
    ensures deps == [] ==> Satisfies(env, DependenciesV(deps), i)
  {
    hide Eval, Accepts;
  }

  lemma {:induction false} OptionalCompiles(n: nat, env: Env, open: set<string>, base: Resolver, sub: Option<Json>,
        depth: nat, st: State,
        h: int)
    requires sub.Some? ==> Ready(true, n, env, open, base, sub.value, depth, h)
    requires st.keys == open
    ensures var (r, st') := CompileOptional(env, base, sub, depth, st);
      Restored(true, st, st') && r.Some? && OptionRel(true, n, env, base, sub, r.value)
    decreases Remaining(depth), 6
  {
    hide Eval, Accepts, Ready;
    if sub.Some? {
      NodeCompiles(true, n, env, open, base, sub.value, depth, st, h);
    }
  }

  lemma {:induction false} ConditionalCompiles(n: nat, env: Env, open: set<string>, base: Resolver,
        schema: seq<Member>, kw: Keyword,
        arg: Json, depth: nat, st: State, h: int)
    requires EntryReady(true, n, env, open, base, schema, kw, arg, depth, h) && (kw == If || kw == Branch)
    requires Has(schema, "if")
    requires n > 0
    requires st.keys == open
    ensures var (v, st') := CompileConditional(env, base, schema, depth + 2, st);
      Restored(true, st, st') && v.Some? && forall i :: RepeatsConditional(n, env, base, schema, v.value, i)
    decreases Remaining(depth), 1
  {
    hide Eval, Accepts, Satisfies, Holds, Get, Ready, EntryReady, Rel, OptionRel, CompileNode, CompileOptional;
    ConditionalReady(n, env, open, base, schema, kw, arg, depth, h);
    var ifArg, thn, els := Get(schema, "if").value, Get(schema, "then"), Get(schema, "else");
    NodeCompiles(true, n - 1, env, open, base, ifArg, depth + 2, st, h - 1);
    var (c, st1) := CompileOne(env, base, ifArg, depth + 2, st);
    OptionalCompiles(n - 1, env, open, base, thn, depth + 2, st1, h - 1);
    var (t, st2) := CompileOptional(env, base, thn, depth + 2, st1);
    OptionalCompiles(n - 1, env, open, base, els, depth + 2, st2, h - 1);
    var (e, st3) := CompileOptional(env, base, els, depth + 2, st2);
    assert CompileConditional(env, base, schema, depth + 2, st) == (Some(IfThenElse(c.value, t.value, e.value)), st3);
    var (v, _) := CompileConditional(env, base, schema, depth + 2, st);
    forall i ensures RepeatsConditional(n, env, base, schema, v.value, i) {
      ConditionalRel(n, env, base, schema, ifArg, c.value, t.value, e.value, thn, els, i);
    }
  }

  lemma ConditionalReady(n: nat, env: Env, open: set<string>, base: Resolver, schema: seq<Member>, kw: Keyword,
        arg: Json, depth: nat, h: int)
    requires EntryReady(true, n, env, open, base, schema, kw, arg, depth, h) && (kw == If || kw == Branch)
    requires Has(schema, "if")
    ensures n > 0 && depth <= MAX_DEPTH
    ensures Ready(true, n - 1, env, open, base, Get(schema, "if").value, depth + 2, h - 1)
    ensures var thn := Get(schema, "then"); thn.Some? ==>
      Ready(true, n - 1, env, open, base, thn.value, depth + 2, h - 1)
    ensures var els := Get(schema, "else"); els.Some? ==>
      Ready(true, n - 1, env, open, base, els.value, depth + 2, h - 1)
  {
    hide Ready, Get;
    SubschemasReady(true, n, env, open, base, schema, kw, arg, depth, h);
    var ifArg, thn, els := Get(schema, "if").value, Get(schema, "then"), Get(schema, "else");
    var subs := Subschemas(env.draft, schema, kw, arg);
    assert subs == [ifArg] + OptionAsSeq(thn) + OptionAsSeq(els);
    assert subs[0] == ifArg && (thn.Some? ==> subs[1] == thn.value) && (els.Some? ==> subs[|subs| - 1] == els.value);
  }

  lemma BooleanRel(strict: bool, n: nat, env: Env, base: Resolver, b: bool)
    ensures Rel(strict, n, env, base, Bool(b), if b then AlwaysValid else AlwaysInvalid)
  {
    var t := if b then AlwaysValid else AlwaysInvalid;
    forall i ensures RelAt(strict, n, env, base, Bool(b), t, i) {
    }
  }

  /** How the value of `additionalProperties` relates to the compiled schema for the other properties. */
  ghost predicate OthersRel(strict: bool, n: nat, env: Env, base: Resolver, arg: Json,
        others: Option<ExtraProperties>) {
    if others.Some?
    then Rel(strict, n, env, base, arg, if others.value.ExtraSchema? then others.value.node else AlwaysInvalid)
    else !strict
  }

  ghost predicate AdditionalResult(strict: bool, n: nat, env: Env, base: Resolver, schema: seq<Member>, arg: Json,
        v: Option<Validator>) {
    if v.None? then !strict
    else
      && v.value.AdditionalPropertiesV? && v.value.defined == Keys(MembersOf(Get(schema, "properties")))
      && v.value.patterns == ValidPatterns(env, MembersOf(Get(schema, "patternProperties")))
      && OthersRel(strict, n, env, base, arg, v.value.others)
  }

  lemma {:induction false} AdditionalResultHolds(strict: bool, n: nat, env: Env, open: set<string>, base: Resolver,
        schema: seq<Member>,
        arg: Json, depth: nat, st: State, h: int)
    requires arg.Bool? || Ready(strict, n, env, open, base, arg, depth, h)
    requires strict ==> IsSchema(arg)
    requires strict ==> st.keys == open
    ensures var (v, st') := CompileAdditionalProperties(env, base, schema, arg, depth, st);
      Restored(strict, st, st') && AdditionalResult(strict, n, env, base, schema, arg, v)
    decreases Remaining(depth), 7
  {
    hide Rel, Get, Keys, MembersOf, ValidPatterns, Ready;
    if arg.Bool? {
      BooleanRel(strict, n, env, base, arg.b);
    } else {
      NodeCompiles(strict, n, env, open, base, arg, depth, st, h);
    }
  }

  lemma OthersReady(strict: bool, n: nat, env: Env, open: set<string>, base: Resolver, schema: seq<Member>, arg: Json,
        depth: nat, h: int)
    requires EntryReady(strict, n, env, open, base, schema, AdditionalProperties, arg, depth, h)
    ensures n > 0 && depth <= MAX_DEPTH && (strict ==> IsSchema(arg))
    ensures arg.Bool? || Ready(strict, n - 1, env, open, base, arg, depth + 2, h - 1)
  {
    hide EntryReady, Ready;
    ShapeOfReady(strict, n, env, open, base, schema, AdditionalProperties, arg, depth, h);
    SubschemasReady(strict, n, env, open, base, schema, AdditionalProperties, arg, depth, h);
    if !arg.Bool? {
      assert Subschemas(env.draft, schema, AdditionalProperties, arg)[0] == arg;
      ReadyIsSchema(strict, n - 1, env, open, base, arg, depth + 2, h - 1);
    }
  }

  lemma {:induction false} AdditionalCompiles(strict: bool, n: nat, env: Env, open: set<string>, base: Resolver,
        schema: seq<Member>,
        arg: Json, depth: nat, st: State, h: int)
    requires EntryReady(strict, n, env, open, base, schema, AdditionalProperties, arg, depth, h)
    requires strict ==> st.keys == open
    ensures var (v, st') := CompileAdditionalProperties(env, base, schema, arg, depth + 2, st);
      Restored(strict, st, st') && EntryResult(strict, n, env, base, schema, AdditionalProperties, arg, v)
    decreases Remaining(depth), 1
  {
    hide Eval, Accepts, Satisfies, Holds, Rel, EntryReady, Ready, Get, Keys, MembersOf, ValidPatterns,
      CompileAdditionalProperties;
    OthersReady(strict, n, env, open, base, schema, arg, depth, h);
    var (v, _) := CompileAdditionalProperties(env, base, schema, arg, depth + 2, st);
    AdditionalResultHolds(strict, n - 1, env, open, base, schema, arg, depth + 2, st, h - 1);
    forall i ensures EntryRel(strict, n, env, base, schema, AdditionalProperties, arg, v, i) {
      if v.Some? {
        AdditionalPropertiesRel(strict, n, env, base, schema, arg, v.value, i);
      }
    }
  }

  lemma {:induction false} ItemsCompile(strict: bool, n: nat, env: Env, open: set<string>, base: Resolver,
        schema: seq<Member>, arg: Json,
        depth: nat, st: State, h: int)
    requires EntryReady(strict, n, env, open, base, schema, Items, arg, depth, h)
    requires strict ==> st.keys == open
    ensures var (v, st') := CompileItems(env, base, schema, arg, depth + 2, st);
      Restored(strict, st, st') && EntryResult(strict, n, env, base, schema, Items, arg, v)
    decreases Remaining(depth), 1
  {
    hide Eval, Accepts, Satisfies, Holds;
    if arg.Arr? && env.draft != Draft202012 {
      TupleCompiles(strict, n, env, open, base, schema, arg, depth, st, h);
    } else if arg.Bool? && env.draft != Draft202012 {
      var (v, _) := CompileItems(env, base, schema, arg, depth + 2, st);
      forall i ensures EntryRel(strict, n, env, base, schema, Items, arg, v, i) {
        OldBooleanItemsRel(strict, n, env, base, schema, arg, i);
      }
    } else if IsSchema(arg) {
      SingleItemsCompile(strict, n, env, open, base, schema, arg, depth, st, h);
    }
  }

  lemma {:induction false} SingleItemsCompile(strict: bool, n: nat, env: Env, open: set<string>, base: Resolver,
        schema: seq<Member>,
        arg: Json, depth: nat, st: State, h: int)
    requires EntryReady(strict, n, env, open, base, schema, Items, arg, depth, h) && IsSchema(arg)
    requires (arg.Bool? ==> env.draft == Draft202012)
    requires strict ==> st.keys == open
    ensures var (v, st') := CompileItems(env, base, schema, arg, depth + 2, st);
      Restored(strict, st, st') && EntryResult(strict, n, env, base, schema, Items, arg, v)
    decreases Remaining(depth), 0
  {
    hide Eval, Accepts, Satisfies, Holds, Ready, PrefixLength, Rel, CompileNode;
    var (v, _) := CompileItems(env, base, schema, arg, depth + 2, st);
    SubschemasReady(strict, n, env, open, base, schema, Items, arg, depth, h);
    assert Subschemas(env.draft, schema, Items, arg)[0] == arg;
    NodeCompiles(strict, n - 1, env, open, base, arg, depth + 2, st, h - 1);
    var (r, _) := CompileOne(env, base, arg, depth + 2, st);
    forall i ensures EntryRel(strict, n, env, base, schema, Items, arg, v, i) {
      if r.Some? {
        ItemsRel(strict, n, env, base, schema, arg, r.value, i);
      }
    }
  }

  lemma TupleReady(strict: bool, n: nat, env: Env, open: set<string>, base: Resolver, schema: seq<Member>, arg: Json,
        depth: nat, h: int)
    requires EntryReady(strict, n, env, open, base, schema, Items, arg, depth, h) && arg.Arr?
    requires env.draft != Draft202012
    ensures n > 0 && depth <= MAX_DEPTH && AllReady(strict, n - 1, env, open, base, arg.items, depth + 2, h - 1)
    ensures var extra := Get(schema, "additionalItems");
      extra.Some? && extra.value.Obj? ==> Ready(strict, n - 1, env, open, base, extra.value, depth + 2, h - 1)
  {
    SubschemasReady(strict, n, env, open, base, schema, Items, arg, depth, h);
    var subs := Subschemas(env.draft, schema, Items, arg);
    var extra := Get(schema, "additionalItems");
    assert forall x :: 0 <= x < |arg.items| ==> subs[x] == arg.items[x];
    assert extra.Some? && extra.value.Obj? ==> subs[|arg.items|] == extra.value;
  }

  lemma TupleUnfolds(env: Env, base: Resolver, schema: seq<Member>, arg: Json, depth: nat, st: State)
    requires arg.Arr? && env.draft != Draft202012
    ensures CompileItems(env, base, schema, arg, depth, st) ==
      var (rs, st1) := CompileAll(env, base, arg.items, depth, st);
      if rs.None? then (None, st1) else
      var (extra, st2) := CompileExtraItems(env, base, Get(schema, "additionalItems"), depth, st1);
      (Some(TupleItems(rs.value, extra)), st2)
  {
    hide CompileAll, CompileExtraItems, Get;
  }

  lemma {:induction false} TupleCompiles(strict: bool, n: nat, env: Env, open: set<string>, base: Resolver,
        schema: seq<Member>, arg: Json,
        depth: nat, st: State, h: int)
    requires EntryReady(strict, n, env, open, base, schema, Items, arg, depth, h) && arg.Arr?
    requires env.draft != Draft202012
    requires strict ==> st.keys == open
    ensures var (v, st') := CompileItems(env, base, schema, arg, depth + 2, st);
      Restored(strict, st, st') && EntryResult(strict, n, env, base, schema, Items, arg, v)
    decreases Remaining(depth), 0
  {
    hide Eval, Accepts, Satisfies, Holds, Get, Subschemas, ItemSubschemas, Ready, AllReady, EntryReady, Rel, RelAll,
      ExtraRel,
      CompileAll, CompileExtraItems, CompileItems;
    TupleReady(strict, n, env, open, base, schema, arg, depth, h);
    TupleUnfolds(env, base, schema, arg, depth + 2, st);
    var (v, _) := CompileItems(env, base, schema, arg, depth + 2, st);
    var extraArg := Get(schema, "additionalItems");
    AllCompile(strict, n - 1, env, open, base, arg.items, depth + 2, st, h - 1);
    var (rs, st1) := CompileAll(env, base, arg.items, depth + 2, st);
    if rs.Some? {
      ExtraItemsCompile(strict, n - 1, env, open, base, extraArg, depth + 2, st1, h - 1);
      var (extra, st2) := CompileExtraItems(env, base, extraArg, depth + 2, st1);
      forall i ensures EntryRel(strict, n, env, base, schema, Items, arg, v, i) {
        TupleItemsRel(strict, n, env, base, schema, arg, rs.value, extra, i);
      }
    }
  }

  lemma {:induction false} ExtraItemsCompile(strict: bool, n: nat, env: Env, open: set<string>, base: Resolver,
        extraArg: Option<Json>,
        depth: nat, st: State, h: int)
    requires extraArg.Some? && extraArg.value.Obj? ==> Ready(strict, n, env, open, base, extraArg.value, depth, h)
    requires strict ==> st.keys == open
    ensures var (extra, st') := CompileExtraItems(env, base, extraArg, depth, st);
      Restored(strict, st, st') && ExtraRel(strict, n, env, base, extraArg, extra)
    decreases Remaining(depth), 6
  {
    hide Eval, Accepts, Ready;
    if extraArg.Some? && extraArg.value.Obj? {
      NodeCompiles(strict, n, env, open, base, extraArg.value, depth, st, h);
    }
  }

  lemma TargetReady(strict: bool, n: nat, env: Env, open: set<string>, base: Resolver, schema: seq<Member>,
        kind: RefKind,
        arg: Json, depth: nat, h: int)
    requires EntryReady(strict, n, env, open, base, schema, Reference(kind), arg, depth, h)
    ensures n > 0 && depth <= MAX_DEPTH && (strict ==> arg.Str? && env.lookup(kind, base, arg.s).Some?)
    ensures arg.Str? && env.lookup(kind, base, arg.s).Some? ==>
      var target := env.lookup(kind, base, arg.s).value;
      var key := CycleKey(target.base, arg.s);
      && (strict ==> key !in open)
      && Ready(strict, n - 1, env, open + {key}, target.base, target.schema, depth + 2, h - 1)
  {
  }

  lemma CutReferenceRel(n: nat, env: Env, base: Resolver, schema: seq<Member>, kind: RefKind, arg: Json, i: Json)
    requires n > 0
    ensures EntryRel(false, n, env, base, schema, Reference(kind), arg, Some(RefV(AlwaysValid)), i)
  {
    ReferenceAccepts(env, AlwaysValid, i);
  }

  /** A reference in progress is cut to `AlwaysValid`, which accepts everything; when strict none is. */
  lemma {:induction false} RefCompiles(strict: bool, n: nat, env: Env, open: set<string>, base: Resolver,
        schema: seq<Member>, kind: RefKind, arg: Json, depth: nat, st: State, h: int)
    requires EntryReady(strict, n, env, open, base, schema, Reference(kind), arg, depth, h)
    requires strict ==> st.keys == open
    ensures var (v, st') := CompileRef(env, base, kind, arg, depth + 2, st);
      Restored(strict, st, st') && EntryResult(strict, n, env, base, schema, Reference(kind), arg, v)
    decreases Remaining(depth), 1
  {
    hide Eval, Accepts, Satisfies, Holds, Ready, EntryReady, Rel, CompileNode;
    TargetReady(strict, n, env, open, base, schema, kind, arg, depth, h);
    var (v, st') := CompileRef(env, base, kind, arg, depth + 2, st);
    if arg.Str? && env.lookup(kind, base, arg.s).Some? {
      var target := env.lookup(kind, base, arg.s).value;
      var key := CycleKey(target.base, arg.s);
      if key in st.keys {
        forall i ensures EntryRel(strict, n, env, base, schema, Reference(kind), arg, v, i) {
          CutReferenceRel(n, env, base, schema, kind, arg, i);
        }
      } else {
        var marked := st.Mark(key);
        NodeCompiles(strict, n - 1, env, open + {key}, target.base, target.schema, depth + 2, marked, h - 1);
        var (r, st1) := CompileNode(env, target.base, target.schema, depth + 2, marked);
        assert st.keys + {key} - {key} == st.keys;
        forall i ensures EntryRel(strict, n, env, base, schema, Reference(kind), arg, v, i) {
          if r.Ok? {
            RefRel(strict, n, env, base, schema, kind, arg, r.value, i);
          }
        }
      }
    }
  }

  lemma {:induction false} KeywordCompiles(strict: bool, n: nat, env: Env, open: set<string>, base: Resolver,
        schema: seq<Member>,
        kw: Keyword, arg: Json, depth: nat, st: State, h: int)
    requires EntryReady(strict, n, env, open, base, schema, kw, arg, depth, h)
    requires strict ==> st.keys == open
    ensures var (v, st') := CompileKeyword(env, base, schema, kw, arg, depth, st);
      Restored(strict, st, st') && EntryResult(strict, n, env, base, schema, kw, arg, v)
    decreases Remaining(depth), 2
  {
    hide Eval, Accepts, Satisfies, Holds, Ready, Subschemas;
    match kw
    case Combine(how) => CombinationCompiles(strict, n, env, open, base, schema, how, arg, depth, st, h);
    case Not => NotCompiles(strict, n, env, open, base, schema, arg, depth, st, h);
    case If => IfOrBranchCompiles(strict, n, env, open, base, schema, kw, arg, depth, st, h);
    case Branch => IfOrBranchCompiles(strict, n, env, open, base, schema, kw, arg, depth, st, h);
    case Properties => PropertiesCompile(strict, n, env, open, base, schema, arg, depth, st, h);
    case PatternProperties => PatternPropertiesCompile(strict, n, env, open, base, schema, arg, depth, st, h);
    case AdditionalProperties => AdditionalCompiles(strict, n, env, open, base, schema, arg, depth, st, h);
    case PropertyNames => PropertyNamesCompile(strict, n, env, open, base, schema, arg, depth, st, h);
    case DependentSchemas => DependentSchemasCompile(strict, n, env, open, base, schema, arg, depth, st, h);
    case Dependencies => DependenciesKeyword(strict, n, env, open, base, schema, arg, depth, st, h);
    case Items => ItemsCompile(strict, n, env, open, base, schema, arg, depth, st, h);
    case PrefixItems => PrefixItemsCompile(strict, n, env, open, base, schema, arg, depth, st, h);
    case Contains => ContainsCompiles(strict, n, env, open, base, schema, arg, depth, st, h);
    case Reference(kind) => RefCompiles(strict, n, env, open, base, schema, kind, arg, depth, st, h);
    case Leaf(plain) => LeafEntryCompiles(strict, n, env, base, schema, plain, arg, depth, st);
    case Unmodelled => UnmodelledCompiles(strict, n, env, base, schema, arg);
  }

  lemma LeafEntryCompiles(strict: bool, n: nat, env: Env, base: Resolver, schema: seq<Member>, plain: Plain, arg: Json,
        depth: nat, st: State)
    requires n > 0 && depth <= MAX_DEPTH
    ensures var (v, st') := CompileKeyword(env, base, schema, Leaf(plain), arg, depth, st);
      st' == st && EntryResult(strict, n, env, base, schema, Leaf(plain), arg, v)
  {
    hide Eval, Accepts, Satisfies, Holds, CompileLeaf;
    var (v, _) := CompileKeyword(env, base, schema, Leaf(plain), arg, depth, st);
    forall i ensures EntryRel(strict, n, env, base, schema, Leaf(plain), arg, v, i) {
      LeafRel(strict, n, env, base, schema, plain, arg, v, i);
    }
  }

  lemma UnmodelledCompiles(strict: bool, n: nat, env: Env, base: Resolver, schema: seq<Member>, arg: Json)
    requires n > 0
    ensures EntryResult(strict, n, env, base, schema, Unmodelled, arg, None)
  {
    hide Eval, Accepts, Satisfies;
    forall i ensures EntryRel(strict, n, env, base, schema, Unmodelled, arg, None, i) {
    }
  }

  lemma {:induction false} IfOrBranchCompiles(strict: bool, n: nat, env: Env, open: set<string>, base: Resolver,
        schema: seq<Member>,
        kw: Keyword, arg: Json, depth: nat, st: State, h: int)
    requires EntryReady(strict, n, env, open, base, schema, kw, arg, depth, h) && (kw == If || kw == Branch)
    requires strict ==> st.keys == open
    ensures var (v, st') := CompileConditional(env, base, schema, depth + 2, st);
      Restored(strict, st, st') && EntryResult(strict, n, env, base, schema, kw, arg, v)
    decreases Remaining(depth), 2, 0
  {
    var (v, _) := CompileConditional(env, base, schema, depth + 2, st);
    forall i ensures Holds(n, env, base, schema, Branch, arg, i) {
    }
    hide Eval, Accepts, Satisfies, Holds, Get;
    if Has(schema, "if") {
      ConditionalCompiles(n, env, open, base, schema, kw, arg, depth, st, h);
      forall i ensures kw == If ==> EntryRel(strict, n, env, base, schema, kw, arg, v, i) {
        assert RepeatsConditional(n, env, base, schema, v.value, i);
      }
    } else {
      forall i ensures EntryRel(strict, n, env, base, schema, kw, arg, v, i) {
      }
    }
  }
}
