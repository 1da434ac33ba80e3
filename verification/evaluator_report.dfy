/** What a tree reports about an instance when the evaluation marks are left out of account: the reference the
    evaluators are measured against. */
module EvaluatorReport {
  import opened JsonValues
  import opened SchemaTree
  import opened TreeFeatures
  import opened Paths
  import opened Evaluators
  import opened EvaluatorMeaning

  /** The errors of a node: those of its validators, in order. */
  function Report(env: Env, t: Node, i: Json, path: seq<Segment>): seq<Error>
    decreases t, 1
  {
    match t
    case AlwaysValid => []
    case AlwaysInvalid => [Error(FalseSchema, None)]
    case Validators(vs) => ReportFrom(env, vs, 0, i, path)
  }

  function ReportFrom(env: Env, vs: seq<Validator>, k: nat, i: Json, path: seq<Segment>): seq<Error>
    requires k <= |vs|
    decreases vs, |vs| - k
  {
    if k == |vs| then [] else ReportBy(env, vs[k], i, path) + ReportFrom(env, vs, k + 1, i, path)
  }

  /** The errors of one validator. */
  function ReportBy(env: Env, v: Validator, i: Json, path: seq<Segment>): seq<Error>
    decreases v, 2
  {
    match v
    case Assertion(test) => TestErrors(Every, env, test, i, path)
    case AnyOfV(_) => if Satisfies(env, v, i) then [] else [Error(NoAlternative, Some(path))]
    case NotV(_) => if Satisfies(env, v, i) then [] else [Error(Negated, Some(path))]
    case OneOfV(ts) =>
      var count := |AcceptingSchemas(env, ts, i)|;
      if count == 1 then [] else [Error(if count == 0 then NoneOfOne else SeveralOfOne, Some(path))]
    case IfThenElse(c, thn, els) => ReportOptional(env, if Accepts(env, c, i) then thn else els, i, path)
    case ContainsV(t, min, max) =>
      if !i.Arr? then []
      else
        var count := |AcceptedItems(env, t, i.items)|;
        if count < min then [Error(TooFewMatches(min, count), Some(path))]
        else if max.Some? && count > max.value then [Error(TooManyMatches(max.value, count), Some(path))]
        else []
    case _ =>
      PlanRuns(Every, env, v, i, path);
      ReportTasks(env, v, Plan(Every, env, v, i, path), 0)
  }

  function ReportOptional(env: Env, t: Option<Node>, i: Json, path: seq<Segment>): seq<Error>
    decreases t
  {
    if t.Some? then Report(env, t.value, i, path) else []
  }

  function ReportTasks(env: Env, v: Validator, tasks: seq<Task>, k: nat): seq<Error>
    requires k <= |tasks| && AllRun(v, tasks)
    decreases v, 1, |tasks| - k
  {
    if k == |tasks| then [] else ReportJob(env, v, tasks[k].job) + ReportTasks(env, v, tasks, k + 1)
  }

  function ReportJob(env: Env, v: Validator, job: Job): seq<Error>
    requires job.Check? ==> job.node in Children(v)
    decreases v, 0
  {
    match job
    case Nothing => []
    case Refuse(e) => [e]
    case Check(t, value, path) => Report(env, t, value, path)
  }

  // ----- nothing is reported exactly when the tree accepts -----

  lemma {:induction false} ReportMeansAccepts(env: Env, t: Node, i: Json, path: seq<Segment>)
    ensures Report(env, t, i, path) == [] <==> Accepts(env, t, i)
    decreases t, 1
  {
    if t.Validators? {
      ReportFromMeans(env, t.validators, 0, i, path);
    }
  }

  lemma {:induction false} ReportFromMeans(env: Env, vs: seq<Validator>, k: nat, i: Json, path: seq<Segment>)
    requires k <= |vs|
    ensures ReportFrom(env, vs, k, i, path) == [] <==> forall x :: k <= x < |vs| ==> Satisfies(env, vs[x], i)
    decreases vs, |vs| - k
  {
    hide Satisfies, ReportBy;
    if k < |vs| {
      ReportByMeans(env, vs[k], i, path);
      ReportFromMeans(env, vs, k + 1, i, path);
    }
  }

  lemma {:induction false} ReportByMeans(env: Env, v: Validator, i: Json, path: seq<Segment>)
    ensures ReportBy(env, v, i, path) == [] <==> Satisfies(env, v, i)
    decreases v, 2
  {
    hide Accepts, Report, Plan, AcceptingSchemas, AcceptedItems, TestErrors, TestPasses, Children;
    match v
    case Assertion(test) => TestPassesClean(Every, env, test, i, path);
    case AnyOfV(_) =>
    case NotV(_) =>
    case OneOfV(_) =>
    case ContainsV(_, _, _) =>
    case IfThenElse(c, thn, els) =>
      var branch := if Accepts(env, c, i) then thn else els;
      if branch.Some? {
        ReportMeansAccepts(env, branch.value, i, path);
      }
    case _ => PlanReportMeans(env, v, i, path);
  }

  lemma {:induction false} PlanReportMeans(env: Env, v: Validator, i: Json, path: seq<Segment>)
    requires !IsSpecial(v)
    ensures ReportBy(env, v, i, path) == [] <==> Satisfies(env, v, i)
    decreases v, 1
  {
    hide Accepts, Satisfies, Report, Plan, JobPasses;
    var plan := Plan(Every, env, v, i, path);
    PlanRuns(Every, env, v, i, path);
    PlanMeans(Every, env, v, i, path);
    ReportTasksMean(env, v, plan, 0);
  }

  lemma {:induction false} ReportTasksMean(env: Env, v: Validator, tasks: seq<Task>, k: nat)
    requires k <= |tasks| && AllRun(v, tasks)
    ensures ReportTasks(env, v, tasks, k) == [] <==> forall x :: k <= x < |tasks| ==> JobPasses(env, tasks[x].job)
    decreases v, 0, 1, |tasks| - k
  {
    hide Accepts, Report, JobPasses;
    if k < |tasks| {
      assert Runs(v, tasks[k]);
      ReportJobMeans(env, v, tasks[k].job);
      ReportTasksMean(env, v, tasks, k + 1);
    }
  }

  lemma {:induction false} ReportJobMeans(env: Env, v: Validator, job: Job)
    requires job.Check? ==> job.node in Children(v)
    ensures ReportJob(env, v, job) == [] <==> JobPasses(env, job)
    decreases v, 0, 0
  {
    hide Accepts, Report;
    if job.Check? {
      ReportMeansAccepts(env, job.node, job.value, job.path);
    }
  }
}
