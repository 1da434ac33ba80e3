/** On a coherent tree the three evaluators report what the reference reports, each in its own way. */
module EvaluatorAgreement {
  import opened JsonValues
  import opened SchemaTree
  import opened TreeFeatures
  import opened Paths
  import opened Evaluators
  import opened EvaluatorReport
  import opened EvaluatorCoherence

  /** How the errors of a run answer to the full report: `iter_errors` yields it, `is_valid` tells whether it is
      empty, and `validate` as well; when `exact`, `validate` yields its first error. */
  ghost predicate Answers(mode: Mode, errors: seq<Error>, report: seq<Error>, exact: bool) {
    && (errors == [] <==> report == [])
    && (mode == Every ==> errors == report)
    && (mode == First && exact ==> errors == Head(report))
  }

  lemma AnswerStops(mode: Mode, errors: seq<Error>, report: seq<Error>, rest: seq<Error>, exact: bool)
    requires Answers(mode, errors, report, exact) && errors != [] && mode != Every
    ensures Answers(mode, errors, report + rest, exact)
  {
  }

  lemma AnswerGoesOn(mode: Mode, a: seq<Error>, ra: seq<Error>, b: seq<Error>, rb: seq<Error>, exact: bool)
    requires Answers(mode, a, ra, exact) && Answers(mode, b, rb, exact)
    requires mode == First ==> a == []
    ensures Answers(mode, a + b, ra + rb, exact)
  {
  }

  ghost predicate Within(marks: set<string>, d: iset<string>) {
    forall n :: n in marks ==> n in d
  }

  // ----- the turns of a plan -----

  /** A turn marks only its own property, which its validator may mark; and only `additionalProperties` looks at the
      marks, for the additional property of the turn. */
  ghost predicate Fits(env: Env, v: Validator, task: Task) {
    && (forall n :: n in task.before || n in task.after ==> OwnMark(env, v, n))
    && (task.unless.Some? ==> v.AdditionalPropertiesV? && v.others.Some? && IsAdditional(env, v, task.unless.value))
    && (task.job.Check? ==> WellKeyed(task.job.value))
  }

  ghost predicate AllFit(env: Env, v: Validator, tasks: seq<Task>) {
    forall k :: 0 <= k < |tasks| ==> Fits(env, v, tasks[k])
  }

  /** No turn looks for a name that an earlier turn marks. */
  ghost predicate Fresh(tasks: seq<Task>) {
    forall j, k :: 0 <= j < k < |tasks| && tasks[k].unless.Some? ==>
      tasks[k].unless.value !in tasks[j].before && tasks[k].unless.value !in tasks[j].after
  }

  /** None of the names the turns from `k` on look for is marked. */
  ghost predicate Unmarked(tasks: seq<Task>, k: nat, marks: set<string>) {
    forall j :: k <= j < |tasks| && tasks[j].unless.Some? ==> tasks[j].unless.value !in marks
  }

  lemma {:induction false} PlanFits(mode: Mode, env: Env, v: Validator, i: Json, path: seq<Segment>)
    requires !IsSpecial(v) && WellKeyed(i)
    ensures AllFit(env, v, Plan(mode, env, v, i, path)) && Fresh(Plan(mode, env, v, i, path))
  {
    if v.PatternPropertiesV? && i.Obj? {
      PatternsFit(mode, env, v, i.members, path);
    }
  }

  lemma {:induction false} PatternsFit(mode: Mode, env: Env, v: Validator, members: seq<Member>, path: seq<Segment>)
    requires v.PatternPropertiesV? && forall x :: 0 <= x < |members| ==> WellKeyed(members[x].value)
    ensures var plan := PatternPlan(mode, env, v.props, members, path);
      AllFit(env, v, plan) && forall k :: 0 <= k < |plan| ==> plan[k].unless.None?
    decreases |members|
  {
    if members != [] {
      PatternsFit(mode, env, v, members[1..], path);
      var row := PatternRow(mode, env, v.props, members[0], path);
      assert AllFit(env, v, row);
      assert PatternPlan(mode, env, v.props, members, path) == row + PatternPlan(mode, env, v.props, members[1..],
          path);
    }
  }

  /** The jobs of a plan do not depend on the mode. */
  lemma {:induction false} SameReport(mode: Mode, env: Env, v: Validator, i: Json, path: seq<Segment>, k: nat)
    requires !IsSpecial(v) && k <= |Plan(mode, env, v, i, path)|
    requires AllRun(v, Plan(mode, env, v, i, path)) && AllRun(v, Plan(Every, env, v, i, path))
    ensures |Plan(mode, env, v, i, path)| == |Plan(Every, env, v, i, path)|
    ensures ReportTasks(env, v, Plan(mode, env, v, i, path), k) == ReportTasks(env, v, Plan(Every, env, v, i, path), k)
    decreases |Plan(mode, env, v, i, path)| - k
  {
    hide ReportJob, AllRun;
    SameJobs(mode, env, v, i, path);
    if k < |Plan(mode, env, v, i, path)| {
      SameReport(mode, env, v, i, path, k + 1);
    }
  }

  lemma SameJobs(mode: Mode, env: Env, v: Validator, i: Json, path: seq<Segment>)
    requires !IsSpecial(v)
    ensures var plan, full := Plan(mode, env, v, i, path), Plan(Every, env, v, i, path);
      |plan| == |full| && forall k :: 0 <= k < |plan| ==> plan[k].job == full[k].job
  {
    if v.PatternPropertiesV? && i.Obj? {
      SamePatternJobs(mode, env, v.props, i.members, path);
    }
  }

  lemma {:induction false} SamePatternJobs(mode: Mode, env: Env, props: seq<Named>, members: seq<Member>,
        path: seq<Segment>)
    ensures var plan, full := PatternPlan(mode, env, props, members, path), PatternPlan(Every, env, props, members,
        path);
      |plan| == |full| && forall k :: 0 <= k < |plan| ==> plan[k].job == full[k].job
    decreases |members|
  {
    if members != [] {
      SamePatternJobs(mode, env, props, members[1..], path);
    }
  }

  // ----- the induction -----

  ghost predicate Left(env: Env, t: Node, before: set<string>, marks: set<string>) {
    forall n :: n in marks ==> n in before || MayMark(env, t, n)
  }

  ghost predicate LeftBy(env: Env, v: Validator, before: set<string>, marks: set<string>) {
    forall n :: n in marks ==> n in before || MayMarkBy(env, v, n)
  }

  ghost predicate LeftByChild(env: Env, v: Validator, before: set<string>, marks: set<string>) {
    forall n :: n in marks ==> n in before || ChildMark(env, v, n)
  }

  ghost predicate LeftFrom(env: Env, vs: seq<Validator>, k: nat, before: set<string>, marks: set<string>) {
    forall n :: n in marks ==> n in before || exists x :: k <= x < |vs| && MayMarkBy(env, vs[x], n)
  }

  /** The run of a node answers to its report and leaves only marks the node may leave. */
  ghost predicate Agrees(mode: Mode, env: Env, t: Node, i: Json, path: seq<Segment>, marks: set<string>, exact: bool) {
    var r := Run(mode, env, t, i, path, marks);
    Answers(mode, r.errors, Report(env, t, i, path), exact) && Left(env, t, marks, r.marks)
  }

  ghost predicate AgreesBy(mode: Mode, env: Env, v: Validator, i: Json, path: seq<Segment>, marks: set<string>,
        exact: bool) {
    var r := Apply(mode, env, v, i, path, marks);
    Answers(mode, r.errors, ReportBy(env, v, i, path), exact) && LeftBy(env, v, marks, r.marks)
  }

  lemma {:induction false} NodeAgrees(mode: Mode, env: Env, t: Node, i: Json, path: seq<Segment>, marks: set<string>,
        d: iset<string>, exact: bool)
    requires WellKeyed(i) && Coherent(env, t, d) && Within(marks, d) && (exact ==> Lacks(t, {Choice}))
    ensures Agrees(mode, env, t, i, path, marks, exact)
    decreases t, 1
  {
    if t.Validators? {
      FromAgrees(mode, env, t.validators, 0, i, path, marks, d, exact);
    }
  }

  lemma {:induction false} FromAgrees(mode: Mode, env: Env, vs: seq<Validator>, k: nat, i: Json, path: seq<Segment>,
        marks: set<string>, d: iset<string>, exact: bool)
    requires k <= |vs| && WellKeyed(i) && CoherentFrom(env, vs, k, d) && Within(marks, d)
    requires exact ==> forall x :: 0 <= x < |vs| ==> LacksV(vs[x], {Choice})
    ensures var r := RunFrom(mode, env, vs, k, i, path, marks);
      Answers(mode, r.errors, ReportFrom(env, vs, k, i, path), exact) && LeftFrom(env, vs, k, marks, r.marks)
    decreases vs, |vs| - k
  {
    hide Apply, ReportBy, MayMarkBy, CoherentBy, LacksV, WellKeyed, Answers;
    if k < |vs| {
      var v := vs[k];
      ApplyAgrees(mode, env, v, i, path, marks, d, exact);
      var r := Apply(mode, env, v, i, path, marks);
      var report, rest := ReportBy(env, v, i, path), ReportFrom(env, vs, k + 1, i, path);
      EmptyAlike(mode, r.errors, report, exact);
      if r.errors != [] && mode != Every {
        AnswerStops(mode, r.errors, report, rest, exact);
      } else {
        FromAgrees(mode, env, vs, k + 1, i, path, r.marks, After(env, v, d), exact);
        AnswerGoesOn(mode, r.errors, report, RunFrom(mode, env, vs, k + 1, i, path, r.marks).errors, rest, exact);
      }
    } else {
      NothingAnswers(mode, exact);
    }
  }

  lemma EmptyAlike(mode: Mode, errors: seq<Error>, report: seq<Error>, exact: bool)
    requires Answers(mode, errors, report, exact)
    ensures errors == [] <==> report == []
  {
  }

  lemma NothingAnswers(mode: Mode, exact: bool)
    ensures Answers(mode, [], [], exact)
  {
  }

  lemma {:induction false} ApplyAgrees(mode: Mode, env: Env, v: Validator, i: Json, path: seq<Segment>,
        marks: set<string>, d: iset<string>, exact: bool)
    requires WellKeyed(i) && CoherentBy(env, v, d) && Within(marks, d) && (exact ==> LacksV(v, {Choice}))
    ensures AgreesBy(mode, env, v, i, path, marks, exact)
    decreases v, 2
  {
    match v
    case Assertion(_) =>
    case AnyOfV(_) => AnyOfAgrees(mode, env, v, i, path, marks, d, exact);
    case OneOfV(_) => OneOfAgrees(mode, env, v, i, path, marks, d, exact);
    case NotV(_) => NotAgrees(mode, env, v, i, path, marks, d, exact);
    case IfThenElse(_, _, _) => ConditionalAgrees(mode, env, v, i, path, marks, d, exact);
    case ContainsV(_, _, _) => ContainsAgrees(mode, env, v, i, path, marks, d, exact);
    case _ => PlanAgrees(mode, env, v, i, path, marks, d, exact);
  }

  /** A subschema, run while at most what its validator may mark has been added. */
  lemma {:induction false} ChildAgrees(mode: Mode, env: Env, v: Validator, k: nat, i: Json, path: seq<Segment>,
        marks: set<string>, d: iset<string>, exact: bool)
    requires k < |Children(v)| && WellKeyed(i) && CoherentBy(env, v, d) && Within(marks, After(env, v, d))
    requires exact ==> LacksV(v, {Choice})
    ensures Agrees(mode, env, Children(v)[k], i, path, marks, exact)
    ensures Run(mode, env, Children(v)[k], i, path, marks).errors == [] <==> Accepts(env, Children(v)[k], i)
    ensures !v.NotV? ==> LeftByChild(env, v, marks, Run(mode, env, Children(v)[k], i, path, marks).marks)
    ensures !v.NotV? ==> LeftBy(env, v, marks, Run(mode, env, Children(v)[k], i, path, marks).marks)
    decreases v, 0
  {
    hide Run, Report, Accepts, OwnMark, WellKeyed;
    var t := Children(v)[k];
    NodeAgrees(mode, env, t, i, path, marks, After(env, v, d), exact);
    ReportMeansAccepts(env, t, i, path);
  }

  lemma {:induction false} AnyOfAgrees(mode: Mode, env: Env, v: Validator, i: Json, path: seq<Segment>,
        marks: set<string>, d: iset<string>, exact: bool)
    requires v.AnyOfV? && WellKeyed(i) && CoherentBy(env, v, d) && Within(marks, d) && (exact ==> LacksV(v, {Choice}))
    ensures AgreesBy(mode, env, v, i, path, marks, exact)
    decreases v, 1, 1
  {
    hide Run, Accepts, Coherent, WellKeyed, TryAll, MayMarkBy, Lacks;
    TryAllAgrees(mode, env, v, 0, i, path, marks, d);
    assert !exact;
  }

  lemma {:induction false} TryAllAgrees(mode: Mode, env: Env, v: Validator, k: nat, i: Json, path: seq<Segment>,
        marks: set<string>, d: iset<string>)
    requires v.AnyOfV? && k <= |v.schemas| && WellKeyed(i) && CoherentBy(env, v, d) && Within(marks, After(env, v, d))
    ensures var c := TryAll(mode, env, v.schemas, k, i, path, marks);
      && (c.matched <==> exists x :: k <= x < |v.schemas| && Accepts(env, v.schemas[x], i))
      && LeftBy(env, v, marks, c.marks)
    decreases v, 1, 0, |v.schemas| - k
  {
    hide Run, Accepts, Coherent, CoherentBy, WellKeyed, Report, Left, MayMarkBy;
    if k < |v.schemas| {
      var inner := if mode == First then First else Quick;
      assert Children(v)[k] == v.schemas[k];
      ChildAgrees(inner, env, v, k, i, path, marks, d, false);
      var r := Run(inner, env, v.schemas[k], i, path, marks);
      TryAllAgrees(mode, env, v, k + 1, i, path, if r.errors == [] then r.marks else marks, d);
    }
  }

  lemma {:induction false} OneOfAgrees(mode: Mode, env: Env, v: Validator, i: Json, path: seq<Segment>,
        marks: set<string>, d: iset<string>, exact: bool)
    requires v.OneOfV? && WellKeyed(i) && CoherentBy(env, v, d) && Within(marks, d)
    ensures AgreesBy(mode, env, v, i, path, marks, exact)
    decreases v, 1, 1
  {
    hide Run, Accepts, Coherent, WellKeyed;
    TryEachAgrees(env, v, 0, i, path, marks, d);
    assert AcceptingFrom(env, v.schemas, i, 0) == AcceptingSchemas(env, v.schemas, i);
  }

  /** The positions of accepting schemas from `k` on. */
  function AcceptingFrom(env: Env, ts: seq<Node>, i: Json, k: nat): set<int> {
    set x | k <= x < |ts| && Accepts(env, ts[x], i)
  }

  lemma AcceptingStep(env: Env, ts: seq<Node>, i: Json, k: nat)
    requires k <= |ts|
    ensures |AcceptingFrom(env, ts, i, k)| ==
      if k == |ts| then 0 else |AcceptingFrom(env, ts, i, k + 1)| + if Accepts(env, ts[k], i) then 1 else 0
  {
    hide Accepts;
    var all, rest := AcceptingFrom(env, ts, i, k), AcceptingFrom(env, ts, i, k + 1);
    if k < |ts| {
      assert all == if Accepts(env, ts[k], i) then rest + {k} else rest;
    } else {
      assert all == {};
    }
  }

  lemma {:induction false} TryEachAgrees(env: Env, v: Validator, k: nat, i: Json, path: seq<Segment>,
        marks: set<string>, d: iset<string>)
    requires v.OneOfV? && k <= |v.schemas| && WellKeyed(i) && CoherentBy(env, v, d) && Within(marks, d)
    ensures var c := TryEach(env, v.schemas, k, i, path, marks);
      c.0 == |AcceptingFrom(env, v.schemas, i, k)| && LeftBy(env, v, marks, c.1)
    decreases v, 1, 0, |v.schemas| - k
  {
    hide Run, Accepts, Coherent, CoherentBy, WellKeyed, Report, Left, MayMarkBy, AcceptingFrom, Agrees, LeftByChild;
    if k < |v.schemas| {
      assert Children(v)[k] == v.schemas[k];
      ChildAgrees(Quick, env, v, k, i, path, marks, d, false);
      TryEachAgrees(env, v, k + 1, i, path, marks, d);
    }
    AcceptingStep(env, v.schemas, i, k);
  }

  lemma {:induction false} NotAgrees(mode: Mode, env: Env, v: Validator, i: Json, path: seq<Segment>,
        marks: set<string>, d: iset<string>, exact: bool)
    requires v.NotV? && WellKeyed(i) && CoherentBy(env, v, d) && Within(marks, d)
    ensures AgreesBy(mode, env, v, i, path, marks, exact)
    decreases v, 1, 1
  {
    assert Children(v)[0] == v.schema;
    ChildAgrees(Quick, env, v, 0, i, path, marks, d, false);
  }

  lemma {:induction false} ConditionalAgrees(mode: Mode, env: Env, v: Validator, i: Json, path: seq<Segment>,
        marks: set<string>, d: iset<string>, exact: bool)
    requires v.IfThenElse? && WellKeyed(i) && CoherentBy(env, v, d) && Within(marks, d)
    requires (exact ==> LacksV(v, {Choice}))
    ensures AgreesBy(mode, env, v, i, path, marks, exact)
    decreases v, 1, 1
  {
    hide Run, RunOptional, Apply, Report, ReportOptional, ReportBy, Accepts, Coherent, CoherentBy, WellKeyed, Left,
      MayMarkBy;
    ConditionalUnfolds(mode, env, v, i, path, marks);
    NothingAnswers(mode, exact);
    var cs := Children(v);
    assert cs[0] == v.cond && (v.thn.Some? ==> cs[1] == v.thn.value) && (v.els.Some? ==> cs[|cs| - 1] == v.els.value);
    ChildAgrees(Quick, env, v, 0, i, path, marks, d, false);
    var r := Run(Quick, env, v.cond, i, path, marks);
    if r.errors == [] && v.thn.Some? {
      ChildAgrees(mode, env, v, 1, i, path, r.marks, d, exact);
    } else if r.errors != [] && v.els.Some? {
      ChildAgrees(mode, env, v, |cs| - 1, i, path, marks, d, exact);
    }
  }

  lemma ConditionalUnfolds(mode: Mode, env: Env, v: Validator, i: Json, path: seq<Segment>, marks: set<string>)
    requires v.IfThenElse?
    ensures var r := Run(Quick, env, v.cond, i, path, marks);
      Apply(mode, env, v, i, path, marks) ==
        if r.errors == []
        then if v.thn.Some? then Run(mode, env, v.thn.value, i, path, r.marks) else Outcome([], r.marks)
        else if v.els.Some? then Run(mode, env, v.els.value, i, path, marks) else Outcome([], marks)
    ensures ReportBy(env, v, i, path) ==
      if Accepts(env, v.cond, i) then if v.thn.Some? then Report(env, v.thn.value, i, path) else []
      else if v.els.Some? then Report(env, v.els.value, i, path) else []
  {
  }

  lemma {:induction false} ContainsAgrees(mode: Mode, env: Env, v: Validator, i: Json, path: seq<Segment>,
        marks: set<string>, d: iset<string>, exact: bool)
    requires v.ContainsV? && WellKeyed(i) && CoherentBy(env, v, d) && Within(marks, d)
    ensures AgreesBy(mode, env, v, i, path, marks, exact)
    decreases v, 1, 1
  {
    if i.Arr? {
      hide Run, Accepts, Coherent;
      CountAgrees(env, v, i.items, 0, path, marks, d);
      assert AcceptedItemsFrom(env, v.schema, i.items, 0) == AcceptedItems(env, v.schema, i.items);
    }
  }

  /** The positions of accepted items from `k` on. */
  function AcceptedItemsFrom(env: Env, t: Node, items: seq<Json>, k: nat): set<int> {
    set x | k <= x < |items| && Accepts(env, t, items[x])
  }

  lemma {:induction false} CountAgrees(env: Env, v: Validator, items: seq<Json>, k: nat, path: seq<Segment>,
        marks: set<string>, d: iset<string>)
    requires v.ContainsV? && k <= |items| && (forall x :: 0 <= x < |items| ==> WellKeyed(items[x]))
    requires CoherentBy(env, v, d) && Within(marks, After(env, v, d))
    ensures var c := CountMatches(env, v.schema, items, k, path, marks);
      c.0 == |AcceptedItemsFrom(env, v.schema, items, k)| && LeftBy(env, v, marks, c.1)
    decreases v, 1, 0, |items| - k
  {
    hide Run, Accepts, Coherent, CoherentBy, WellKeyed, Report, Left, MayMarkBy;
    if k < |items| {
      assert Children(v)[0] == v.schema;
      ChildAgrees(Quick, env, v, 0, items[k], path, marks, d, false);
      var r := Run(Quick, env, v.schema, items[k], path, marks);
      CountAgrees(env, v, items, k + 1, path, r.marks, d);
      var all, rest := AcceptedItemsFrom(env, v.schema, items, k), AcceptedItemsFrom(env, v.schema, items, k + 1);
      assert all == if Accepts(env, v.schema, items[k]) then rest + {k} else rest;
    }
  }

  lemma {:induction false} PlanAgrees(mode: Mode, env: Env, v: Validator, i: Json, path: seq<Segment>,
        marks: set<string>, d: iset<string>, exact: bool)
    requires !IsSpecial(v) && WellKeyed(i) && CoherentBy(env, v, d) && Within(marks, d)
    requires (exact ==> LacksV(v, {Choice}))
    ensures AgreesBy(mode, env, v, i, path, marks, exact)
    decreases v, 1, 2
  {
    hide Plan, ReportTasks, RunTasks, Coherent, AllFit, LacksV, WellKeyed, MayMarkBy, Answers;
    var plan := Plan(mode, env, v, i, path);
    PlanRuns(mode, env, v, i, path);
    PlanRuns(Every, env, v, i, path);
    PlanFits(mode, env, v, i, path);
    SameReport(mode, env, v, i, path, 0);
    assert Unmarked(plan, 0, marks) by {
      PlanUnmarked(env, v, plan, marks, d);
    }
    TasksAgree(mode, env, v, plan, 0, marks, d, exact);
  }

  lemma PlanUnmarked(env: Env, v: Validator, plan: seq<Task>, marks: set<string>, d: iset<string>)
    requires AllFit(env, v, plan) && CoherentBy(env, v, d) && Within(marks, d)
    ensures Unmarked(plan, 0, marks)
  {
    hide Coherent, WellKeyed, ChildMark;
    forall j | 0 <= j < |plan| && plan[j].unless.Some? ensures plan[j].unless.value !in marks {
      assert Fits(env, v, plan[j]);
    }
  }

  lemma {:induction false} TasksAgree(mode: Mode, env: Env, v: Validator, tasks: seq<Task>, k: nat,
        marks: set<string>, d: iset<string>, exact: bool)
    requires k <= |tasks| && AllRun(v, tasks) && AllFit(env, v, tasks) && Fresh(tasks) && Unmarked(tasks, k, marks)
    requires CoherentBy(env, v, d) && Within(marks, After(env, v, d)) && (exact ==> LacksV(v, {Choice})) && !v.NotV?
    ensures var r := RunTasks(mode, env, v, tasks, k, marks);
      Answers(mode, r.errors, ReportTasks(env, v, tasks, k), exact) && LeftBy(env, v, marks, r.marks)
    decreases v, 1, 1, |tasks| - k
  {
    hide RunTask, ReportJob, CoherentBy, LacksV, MayMarkBy, Answers, Children, Fits;
    if k < |tasks| {
      var task := tasks[k];
      assert Runs(v, task) && Fits(env, v, task);
      TaskAgrees(mode, env, v, task, marks, d, exact);
      var r := RunTask(mode, env, v, task, marks);
      var report, rest := ReportJob(env, v, task.job), ReportTasks(env, v, tasks, k + 1);
      if r.errors != [] && Stops(mode, v) {
        AnswerStops(mode, r.errors, report, rest, exact);
      } else {
        StillUnmarked(env, v, tasks, k, marks, r.marks, d);
        TasksAgree(mode, env, v, tasks, k + 1, r.marks, d, exact);
        AnswerGoesOn(mode, r.errors, report, RunTasks(mode, env, v, tasks, k + 1, r.marks).errors, rest, exact);
      }
    } else {
      NothingAnswers(mode, exact);
    }
  }

  /** What a turn may leave: its own marks and those of its subschema. */
  ghost predicate LeftByTask(env: Env, v: Validator, task: Task, before: set<string>, marks: set<string>) {
    forall n :: n in marks ==> n in before || n in task.before || n in task.after || (!v.NotV? && ChildMark(env, v, n))
  }

  lemma StillUnmarked(env: Env, v: Validator, tasks: seq<Task>, k: nat, before: set<string>, marks: set<string>,
        d: iset<string>)
    requires k < |tasks| && AllFit(env, v, tasks) && Fresh(tasks) && Unmarked(tasks, k, before)
    requires CoherentBy(env, v, d) && LeftByTask(env, v, tasks[k], before, marks)
    ensures Unmarked(tasks, k + 1, marks)
  {
    hide Coherent, WellKeyed, ChildMark, IsAdditional;
    forall j | k + 1 <= j < |tasks| && tasks[j].unless.Some? ensures tasks[j].unless.value !in marks {
      assert Fits(env, v, tasks[j]);
    }
  }

  lemma {:induction false} TaskAgrees(mode: Mode, env: Env, v: Validator, task: Task, marks: set<string>,
        d: iset<string>, exact: bool)
    requires Runs(v, task) && Fits(env, v, task) && (task.unless.Some? ==> task.unless.value !in marks)
    requires CoherentBy(env, v, d) && Within(marks, After(env, v, d)) && (exact ==> LacksV(v, {Choice})) && !v.NotV?
    ensures var r := RunTask(mode, env, v, task, marks);
      && Answers(mode, r.errors, ReportJob(env, v, task.job), exact)
      && LeftByTask(env, v, task, marks, r.marks) && LeftBy(env, v, marks, r.marks)
    decreases v, 1, 0, 1
  {
    hide Run, Report, RunJob, ReportJob, Coherent, CoherentBy, Children, Accepts, ChildMark, OwnMark, Answers,
      LacksV, WellKeyed;
    JobAgrees(mode, env, v, task.job, marks + task.before, d, exact) by {
      FitsWithin(env, v, task, marks, d);
    }
    EmptyAlike(mode, RunJob(mode, env, v, task.job, marks + task.before).errors, ReportJob(env, v, task.job), exact);
    NothingAnswers(mode, exact);
  }

  lemma FitsWithin(env: Env, v: Validator, task: Task, marks: set<string>, d: iset<string>)
    requires Fits(env, v, task) && Within(marks, After(env, v, d))
    ensures Within(marks + task.before, After(env, v, d)) && (task.job.Check? ==> WellKeyed(task.job.value))
  {
    hide OwnMark, WellKeyed, ChildMark;
  }

  lemma {:induction false} JobAgrees(mode: Mode, env: Env, v: Validator, job: Job, marks: set<string>,
        d: iset<string>, exact: bool)
    requires (job.Check? ==> job.node in Children(v) && WellKeyed(job.value)) && !v.NotV?
    requires CoherentBy(env, v, d) && Within(marks, After(env, v, d)) && (exact ==> LacksV(v, {Choice}))
    ensures var r := RunJob(mode, env, v, job, marks);
      Answers(mode, r.errors, ReportJob(env, v, job), exact) && LeftByChild(env, v, marks, r.marks)
    decreases v, 1, 0, 0
  {
    JobUnfolds(mode, env, v, job, marks);
    hide Run, Report, RunJob, ReportJob, Coherent, CoherentBy, Children, Accepts, ChildMark, OwnMark, LacksV, WellKeyed;
    if job.Check? {
      var k := ChildIndex(v, job.node);
      ChildAgrees(mode, env, v, k, job.value, job.path, marks, d, exact);
    }
  }

  lemma JobUnfolds(mode: Mode, env: Env, v: Validator, job: Job, marks: set<string>)
    requires job.Check? ==> job.node in Children(v)
    ensures RunJob(mode, env, v, job, marks) ==
      if job.Check? then Run(mode, env, job.node, job.value, job.path, marks)
      else Outcome(if job.Refuse? then [job.error] else [], marks)
    ensures ReportJob(env, v, job) ==
      if job.Check? then Report(env, job.node, job.value, job.path) else if job.Refuse? then [job.error] else []
  {
  }

  lemma ChildIndex(v: Validator, t: Node) returns (k: nat)
    requires t in Children(v)
    ensures k < |Children(v)| && Children(v)[k] == t
  {
    k :| 0 <= k < |Children(v)| && Children(v)[k] == t;
  }
}
