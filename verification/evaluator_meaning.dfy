/** Plans against the meaning of their validators, and what holds of the evaluators whatever the marks. */
module EvaluatorMeaning {
  import opened JsonValues
  import opened SchemaTree
  import opened Paths
  import opened Evaluators

  predicate JobPasses(env: Env, job: Job) {
    match job
    case Nothing => true
    case Refuse(_) => false
    case Check(t, value, _) => Accepts(env, t, value)
  }

  predicate AllPass(env: Env, tasks: seq<Task>) {
    forall k :: 0 <= k < |tasks| ==> JobPasses(env, tasks[k].job)
  }

  lemma TestPassesClean(mode: Mode, env: Env, test: Test, i: Json, path: seq<Segment>)
    ensures TestErrors(mode, env, test, i, path) == [] <==> TestPasses(env, test, i)
  {
  }

  // ----- a plan asks exactly what its validator means -----

  lemma PlanMeans(mode: Mode, env: Env, v: Validator, i: Json, path: seq<Segment>)
    requires !IsSpecial(v)
    ensures Satisfies(env, v, i) <==> AllPass(env, Plan(mode, env, v, i, path))
  {
    hide Accepts, AllPass, Has, IsAdditional, Find, ListPlan, ItemsPlan, PrefixPlan, TuplePlan, PropertiesPlan,
      PatternPlan,
      AdditionalPlan, NamesPlan, DependentPlan, DependenciesPlan;
    NothingToDo(env);
    match v
    case AllOfV(ts) => ListMeans(env, ts, i, path);
    case RefV(t) => SingleMeans(env, t, i, path);
    case ItemsV(t, skip) =>
      if i.Arr? {
        ItemsMean(env, t, skip, i.items, path);
      }
    case PrefixItemsV(ts) =>
      if i.Arr? {
        PrefixMeans(env, ts, i.items, path);
      }
    case TupleItems(_, _) =>
      if i.Arr? {
        TupleMeans(env, v, i.items, path);
      }
    case PropertiesV(props) =>
      if i.Obj? {
        PropertiesMean(mode, env, props, i, path);
      }
    case PatternPropertiesV(props) =>
      if i.Obj? {
        PatternsMean(mode, env, props, i.members, path);
      }
    case AdditionalPropertiesV(others, _, _) =>
      if i.Obj? && others.Some? {
        AdditionalMeans(env, v, i.members, path);
      }
    case PropertyNamesV(t) =>
      if i.Obj? {
        NamesMean(env, t, i.members, path);
      }
    case DependentSchemasV(props) =>
      if i.Obj? {
        DependentMeans(env, props, i, path);
      }
    case DependenciesV(deps) =>
      if i.Obj? {
        DependenciesMean(env, deps, i, path);
      }
  }

  lemma SingleMeans(env: Env, t: Node, i: Json, path: seq<Segment>)
    ensures AllPass(env, [Turn(Check(t, i, path))]) <==> Accepts(env, t, i)
  {
    assert JobPasses(env, [Turn(Check(t, i, path))][0].job) <==> Accepts(env, t, i);
  }

  lemma ListMeans(env: Env, ts: seq<Node>, i: Json, path: seq<Segment>)
    ensures AllPass(env, ListPlan(ts, i, path)) <==> forall k :: 0 <= k < |ts| ==> Accepts(env, ts[k], i)
  {
    hide Accepts;
    var plan := ListPlan(ts, i, path);
    forall k | 0 <= k < |ts| ensures JobPasses(env, plan[k].job) <==> Accepts(env, ts[k], i) {
    }
  }

  lemma NothingToDo(env: Env)
    ensures AllPass(env, [])
  {
  }

  lemma ItemsMean(env: Env, t: Node, skip: nat, items: seq<Json>, path: seq<Segment>)
    ensures AllPass(env, ItemsPlan(t, skip, items, path))
      <==> forall k :: skip <= k < |items| ==> Accepts(env, t, items[k])
  {
    hide Accepts;
    var plan := ItemsPlan(t, skip, items, path);
    forall k | 0 <= k < |items| ensures JobPasses(env, plan[k].job) <==> (skip <= k ==> Accepts(env, t, items[k])) {
    }
  }

  lemma PrefixMeans(env: Env, ts: seq<Node>, items: seq<Json>, path: seq<Segment>)
    ensures AllPass(env, PrefixPlan(ts, items, path))
      <==> forall k :: 0 <= k < |items| && k < |ts| ==> Accepts(env, ts[k], items[k])
  {
    hide Accepts;
    var plan := PrefixPlan(ts, items, path);
    forall k | 0 <= k < |items| ensures JobPasses(env, plan[k].job) <==> (k < |ts| ==> Accepts(env, ts[k], items[k])) {
    }
  }

  lemma NamesMean(env: Env, t: Node, members: seq<Member>, path: seq<Segment>)
    ensures AllPass(env, NamesPlan(t, members, path))
      <==> forall x :: 0 <= x < |members| ==> Accepts(env, t, Str(members[x].key))
  {
    hide Accepts;
    var plan := NamesPlan(t, members, path);
    forall x | 0 <= x < |members| ensures JobPasses(env, plan[x].job) <==> Accepts(env, t, Str(members[x].key)) {
    }
  }

  lemma TupleMeans(env: Env, v: Validator, items: seq<Json>, path: seq<Segment>)
    requires v.TupleItems?
    ensures AllPass(env, TuplePlan(v, items, path))
      <==> forall k :: 0 <= k < |items| ==> TupleItemAccepted(env, v, k, items[k])
  {
    hide Accepts;
    var plan := TuplePlan(v, items, path);
    forall k | 0 <= k < |items| ensures JobPasses(env, plan[k].job) <==> TupleItemAccepted(env, v, k, items[k]) {
    }
  }

  lemma PropertiesMean(mode: Mode, env: Env, props: seq<Named>, i: Json, path: seq<Segment>)
    requires i.Obj?
    ensures AllPass(env, PropertiesPlan(mode, props, i.members, path)) <==> Satisfies(env, PropertiesV(props), i)
  {
    hide Accepts;
    var plan := PropertiesPlan(mode, props, i.members, path);
    forall x | 0 <= x < |i.members|
      ensures var found := Find(props, i.members[x].key);
        JobPasses(env, plan[x].job) <==> (found.Some? ==> Accepts(env, props[found.value].node, i.members[x].value))
    {
    }
  }

  predicate PatternsPass(env: Env, props: seq<Named>, m: Member) {
    forall p :: 0 <= p < |props| && env.Matches(props[p].name, m.key) ==> Accepts(env, props[p].node, m.value)
  }

  lemma RowMeans(mode: Mode, env: Env, props: seq<Named>, m: Member, path: seq<Segment>)
    ensures AllPass(env, PatternRow(mode, env, props, m, path)) <==> PatternsPass(env, props, m)
  {
    hide Accepts;
    var row := PatternRow(mode, env, props, m, path);
    forall p | 0 <= p < |props|
      ensures JobPasses(env, row[p].job)
        <==> (env.Matches(props[p].name, m.key) ==> Accepts(env, props[p].node, m.value))
    {
    }
  }

  lemma {:induction false} AllPassConcat(env: Env, a: seq<Task>, b: seq<Task>)
    ensures AllPass(env, a + b) <==> AllPass(env, a) && AllPass(env, b)
  {
    hide JobPasses;
    assert forall k :: 0 <= k < |a| ==> (a + b)[k] == a[k];
    assert forall k :: 0 <= k < |b| ==> (a + b)[|a| + k] == b[k];
    assert forall k :: |a| <= k < |a + b| ==> (a + b)[k] == b[k - |a|];
  }

  lemma {:induction false} RowsMean(mode: Mode, env: Env, props: seq<Named>, members: seq<Member>, path: seq<Segment>)
    ensures AllPass(env, PatternPlan(mode, env, props, members, path))
      <==> forall x :: 0 <= x < |members| ==> PatternsPass(env, props, members[x])
    decreases |members|
  {
    hide PatternsPass, JobPasses;
    if members != [] {
      var row, rest := PatternRow(mode, env, props, members[0], path), PatternPlan(mode, env, props, members[1..],
          path);
      RowMeans(mode, env, props, members[0], path);
      RowsMean(mode, env, props, members[1..], path);
      AllPassConcat(env, row, rest);
      assert PatternPlan(mode, env, props, members, path) == row + rest;
      assert forall x :: 0 < x < |members| ==> members[x] == members[1..][x - 1];
      assert forall x :: 0 <= x < |members[1..]| ==> members[1..][x] == members[x + 1];
    }
  }

  lemma PatternsMean(mode: Mode, env: Env, props: seq<Named>, members: seq<Member>, path: seq<Segment>)
    ensures AllPass(env, PatternPlan(mode, env, props, members, path))
      <==> forall x, p :: 0 <= x < |members| && 0 <= p < |props| && env.Matches(props[p].name, members[x].key) ==>
        Accepts(env, props[p].node, members[x].value)
  {
    hide Accepts, AllPass;
    RowsMean(mode, env, props, members, path);
  }

  lemma AdditionalMeans(env: Env, v: Validator, members: seq<Member>, path: seq<Segment>)
    requires v.AdditionalPropertiesV? && v.others.Some?
    ensures AllPass(env, AdditionalPlan(env, v, members, path))
      <==> forall k :: 0 <= k < |members| && IsAdditional(env, v, members[k].key) ==>
        v.others.value.ExtraSchema? && Accepts(env, v.others.value.node, members[k].value)
  {
    hide Accepts, IsAdditional;
    var plan := AdditionalPlan(env, v, members, path);
    forall k | 0 <= k < |members|
      ensures JobPasses(env, plan[k].job) <==> (IsAdditional(env, v, members[k].key) ==>
        v.others.value.ExtraSchema? && Accepts(env, v.others.value.node, members[k].value))
    {
    }
  }

  lemma DependentMeans(env: Env, props: seq<Named>, i: Json, path: seq<Segment>)
    requires i.Obj?
    ensures AllPass(env, DependentPlan(props, i, path))
      <==> forall k :: 0 <= k < |props| && Has(i.members, props[k].name) ==> Accepts(env, props[k].node, i)
  {
    hide Accepts, Has;
    var plan := DependentPlan(props, i, path);
    forall k | 0 <= k < |props|
      ensures JobPasses(env, plan[k].job) <==> (Has(i.members, props[k].name) ==> Accepts(env, props[k].node, i))
    {
    }
  }

  lemma DependenciesMean(env: Env, deps: seq<Dependency>, i: Json, path: seq<Segment>)
    requires i.Obj?
    ensures AllPass(env, DependenciesPlan(deps, i, path))
      <==> forall k :: 0 <= k < |deps| ==> DependencyMet(env, deps[k], i)
  {
    hide Accepts, Has;
    var plan := DependenciesPlan(deps, i, path);
    forall k | 0 <= k < |deps| ensures JobPasses(env, plan[k].job) <==> DependencyMet(env, deps[k], i) {
      var d := deps[k];
      if d.NeedsSchema? {
        assert DependencyMet(env, d, i) <==> (Has(i.members, d.name) ==> Accepts(env, d.node, i));
      } else {
        assert DependencyMet(env, d, i) <==>
          (Has(i.members, d.name) ==> forall x :: 0 <= x < |d.names| ==> Has(i.members, d.names[x]));
      }
    }
  }
}
