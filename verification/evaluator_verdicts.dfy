/** Two evaluators run side by side from the same marks, `additionalProperties` or not. They come to the same verdict
    wherever there is no validator that one of them marks at another time than the other. */
module EvaluatorVerdicts {
  import opened JsonValues
  import opened SchemaTree
  import opened TreeFeatures
  import opened Paths
  import opened Evaluators

  /** The validator whose marks come at another time than in `is_valid`. */
  function Untimely(mode: Mode): set<Feature> {
    match mode
    case Quick => {}
    case First => {ByName}
    case Every => {ByPattern}
  }

  /** Two evaluators to compare; `exact` compares the errors of `validate` and `iter_errors` as well. */
  datatype Pair = Pair(a: Mode, b: Mode, exact: bool)
  {
    predicate Sensible() {
      exact ==> a == First && b == Every
    }

    /** What keeps the two apart: marks at another time, and an `anyOf`, for which they build other errors. */
    function Apart(): set<Feature> {
      (if a == b then {} else Untimely(a) + Untimely(b)) + if exact then {Choice} else {}
    }
  }

  /** Both runs fail, or both pass and leave the same marks; when exact, the one error is the first of the others. */
  predicate SameVerdict(pair: Pair, x: Outcome, y: Outcome) {
    && (x.errors == [] <==> y.errors == [])
    && (x.errors == [] ==> x.marks == y.marks)
    && (pair.exact ==> x.errors == Head(y.errors))
  }

  predicate Comparable(pair: Pair, ban: set<Feature>) {
    pair.Sensible() && pair.Apart() <= ban
  }

  lemma {:induction false} NodeVerdict(pair: Pair, env: Env, t: Node, i: Json, path: seq<Segment>, marks: set<string>,
        ban: set<Feature>)
    requires Lacks(t, ban) && Comparable(pair, ban)
    ensures SameVerdict(pair, Run(pair.a, env, t, i, path, marks), Run(pair.b, env, t, i, path, marks))
    decreases t, 1
  {
    if t.Validators? {
      FromVerdict(pair, env, t.validators, 0, i, path, marks, ban);
    }
  }

  lemma {:induction false} FromVerdict(pair: Pair, env: Env, vs: seq<Validator>, k: nat, i: Json, path: seq<Segment>,
        marks: set<string>, ban: set<Feature>)
    requires k <= |vs| && (forall x :: 0 <= x < |vs| ==> LacksV(vs[x], ban)) && Comparable(pair, ban)
    ensures SameVerdict(pair, RunFrom(pair.a, env, vs, k, i, path, marks), RunFrom(pair.b, env, vs, k, i, path, marks))
    decreases vs, |vs| - k
  {
    hide Apply, LacksV;
    if k < |vs| {
      ApplyVerdict(pair, env, vs[k], i, path, marks, ban);
      FromVerdict(pair, env, vs, k + 1, i, path, Apply(pair.a, env, vs[k], i, path, marks).marks, ban);
    }
  }

  lemma {:induction false} ApplyVerdict(pair: Pair, env: Env, v: Validator, i: Json, path: seq<Segment>,
        marks: set<string>, ban: set<Feature>)
    requires LacksV(v, ban) && Comparable(pair, ban)
    ensures SameVerdict(pair, Apply(pair.a, env, v, i, path, marks), Apply(pair.b, env, v, i, path, marks))
    decreases v, 2
  {
    if v.IfThenElse? {
      ConditionalVerdict(pair, env, v, i, path, marks, ban);
    } else if v.AnyOfV? {
      assert Children(v) == v.schemas;
      TryAllVerdict(pair, env, v, 0, i, path, marks, ban);
    } else if !IsSpecial(v) {
      PlanVerdict(pair, env, v, i, path, marks, ban);
    }
  }

  lemma {:induction false} ConditionalVerdict(pair: Pair, env: Env, v: Validator, i: Json, path: seq<Segment>,
        marks: set<string>, ban: set<Feature>)
    requires v.IfThenElse? && LacksV(v, ban) && Comparable(pair, ban)
    ensures SameVerdict(pair, Apply(pair.a, env, v, i, path, marks), Apply(pair.b, env, v, i, path, marks))
    decreases v, 1
  {
    var cs := Children(v);
    var r := Run(Quick, env, v.cond, i, path, marks);
    if r.errors == [] && v.thn.Some? {
      assert cs[1] == v.thn.value;
      NodeVerdict(pair, env, v.thn.value, i, path, r.marks, ban);
    } else if r.errors != [] && v.els.Some? {
      assert cs[|cs| - 1] == v.els.value;
      NodeVerdict(pair, env, v.els.value, i, path, marks, ban);
    }
  }

  /** The evaluator `anyOf` runs on its alternatives. */
  function Within(mode: Mode): Mode {
    if mode == First then First else Quick
  }

  lemma {:induction false} TryAllVerdict(pair: Pair, env: Env, v: Validator, k: nat, i: Json, path: seq<Segment>,
        marks: set<string>, ban: set<Feature>)
    requires v.AnyOfV? && k <= |v.schemas| && LacksV(v, ban) && Comparable(pair, ban)
    ensures var x, y := TryAll(pair.a, env, v.schemas, k, i, path, marks),
          TryAll(pair.b, env, v.schemas, k, i, path, marks);
      x.matched == y.matched && x.marks == y.marks
    decreases v, 1, |v.schemas| - k
  {
    hide Run, Lacks;
    if k < |v.schemas| {
      assert Children(v)[k] == v.schemas[k];
      var inner := Pair(Within(pair.a), Within(pair.b), false);
      NodeVerdict(inner, env, v.schemas[k], i, path, marks, ban);
      var r := Run(inner.a, env, v.schemas[k], i, path, marks);
      TryAllVerdict(pair, env, v, k + 1, i, path, if r.errors == [] then r.marks else marks, ban);
    }
  }

  /** Apart from the untimely validators, a plan is the same in both modes. */
  lemma SamePlan(pair: Pair, env: Env, v: Validator, i: Json, path: seq<Segment>)
    requires !IsSpecial(v) && FeaturesOf(v) !! pair.Apart()
    ensures Plan(pair.a, env, v, i, path) == Plan(pair.b, env, v, i, path)
  {
    if pair.a != pair.b {
      if v.PropertiesV? {
        assert pair.a != First && pair.b != First;
      } else if v.PatternPropertiesV? && i.Obj? {
        assert pair.a != Every && pair.b != Every;
        SamePatternPlan(pair, env, v.props, i.members, path);
      }
    }
  }

  lemma {:induction false} SamePatternPlan(pair: Pair, env: Env, props: seq<Named>, members: seq<Member>,
        path: seq<Segment>)
    requires pair.a != Every && pair.b != Every
    ensures PatternPlan(pair.a, env, props, members, path) == PatternPlan(pair.b, env, props, members, path)
    decreases |members|
  {
    if members != [] {
      assert PatternRow(pair.a, env, props, members[0], path) == PatternRow(pair.b, env, props, members[0], path);
      SamePatternPlan(pair, env, props, members[1..], path);
    }
  }

  lemma {:induction false} PlanVerdict(pair: Pair, env: Env, v: Validator, i: Json, path: seq<Segment>,
        marks: set<string>, ban: set<Feature>)
    requires !IsSpecial(v) && LacksV(v, ban) && Comparable(pair, ban)
    ensures SameVerdict(pair, Apply(pair.a, env, v, i, path, marks), Apply(pair.b, env, v, i, path, marks))
    decreases v, 1
  {
    hide Plan, RunTasks;
    SamePlan(pair, env, v, i, path);
    PlanRuns(pair.a, env, v, i, path);
    TasksVerdict(pair, env, v, Plan(pair.a, env, v, i, path), 0, marks, ban);
  }

  lemma {:induction false} TasksVerdict(pair: Pair, env: Env, v: Validator, tasks: seq<Task>, k: nat,
        marks: set<string>, ban: set<Feature>)
    requires k <= |tasks| && AllRun(v, tasks) && LacksV(v, ban) && Comparable(pair, ban)
    ensures SameVerdict(pair, RunTasks(pair.a, env, v, tasks, k, marks), RunTasks(pair.b, env, v, tasks, k, marks))
    decreases v, 0, 1, |tasks| - k
  {
    hide RunTask, LacksV, Runs;
    if k < |tasks| {
      assert Runs(v, tasks[k]);
      TaskVerdict(pair, env, v, tasks[k], marks, ban);
      TasksVerdict(pair, env, v, tasks, k + 1, RunTask(pair.a, env, v, tasks[k], marks).marks, ban);
    }
  }

  lemma {:induction false} TaskVerdict(pair: Pair, env: Env, v: Validator, task: Task, marks: set<string>,
        ban: set<Feature>)
    requires Runs(v, task) && LacksV(v, ban) && Comparable(pair, ban)
    ensures SameVerdict(pair, RunTask(pair.a, env, v, task, marks), RunTask(pair.b, env, v, task, marks))
    decreases v, 0, 0
  {
    hide Run, Lacks, Children;
    if task.job.Check? {
      NodeVerdict(pair, env, task.job.node, task.job.value, task.job.path, marks + task.before, ban);
    }
  }

  // ----- results -----

  /** On a tree without `patternProperties` an instance is valid iff it has no errors; so the fall-through `Ok` of
      `validate_schema_with_draft` is unreachable. */
  lemma ValidIffNoErrors(env: Env, t: Node, i: Json)
    requires Lacks(t, {ByPattern})
    ensures IsValid(env, t, i) <==> IterErrors(env, t, i) == []
    ensures ValidateSchema(env, t, i).None? <==> IsValid(env, t, i)
  {
    NodeVerdict(Pair(Quick, Every, false), env, t, i, [], {}, {ByPattern});
  }

  /** On a tree without `properties` an instance is valid iff `validate` is `Ok`. */
  lemma ValidIffValidates(env: Env, t: Node, i: Json)
    requires Lacks(t, {ByName})
    ensures IsValid(env, t, i) <==> Validate(env, t, i).None?
  {
    NodeVerdict(Pair(Quick, First, false), env, t, i, [], {}, {ByName});
  }

  /** On a tree without either, `validate` and `iter_errors` come to the same verdict, and without `anyOf` the error of
      `validate` is the first one `iter_errors` yields. */
  lemma TimelyFirstError(env: Env, t: Node, i: Json)
    requires Lacks(t, {ByName, ByPattern})
    ensures Validate(env, t, i).None? <==> IterErrors(env, t, i) == []
    ensures Lacks(t, {ByName, ByPattern, Choice}) ==>
      Validate(env, t, i) == if IterErrors(env, t, i) == [] then None else Some(IterErrors(env, t, i)[0])
  {
    NodeVerdict(Pair(First, Every, false), env, t, i, [], {}, {ByName, ByPattern});
    if Lacks(t, {ByName, ByPattern, Choice}) {
      NodeVerdict(Pair(First, Every, true), env, t, i, [], {}, {ByName, ByPattern, Choice});
    }
  }
}
