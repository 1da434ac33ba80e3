/** A tree without negative features: what it accepts, every evaluator passes, whatever was marked before. */
module EvaluatorWidening {
  import opened JsonValues
  import opened SchemaTree
  import opened TreeFeatures
  import opened Paths
  import opened Evaluators
  import opened EvaluatorMeaning

  lemma {:induction false} AcceptedRunsClean(mode: Mode, env: Env, t: Node, i: Json, path: seq<Segment>,
        marks: set<string>)
    requires Lacks(t, NEGATIVE) && Accepts(env, t, i)
    ensures Run(mode, env, t, i, path, marks).errors == []
    decreases t, 1
  {
    if t.Validators? {
      ValidatorsRunClean(mode, env, t.validators, 0, i, path, marks);
    }
  }

  lemma {:induction false} ValidatorsRunClean(mode: Mode, env: Env, vs: seq<Validator>, k: nat, i: Json,
        path: seq<Segment>, marks: set<string>)
    requires k <= |vs|
    requires forall x :: 0 <= x < |vs| ==> LacksV(vs[x], NEGATIVE) && Satisfies(env, vs[x], i)
    ensures RunFrom(mode, env, vs, k, i, path, marks).errors == []
    decreases vs, |vs| - k
  {
    hide LacksV, Satisfies, Apply;
    if k < |vs| {
      ValidatorRunsClean(mode, env, vs[k], i, path, marks);
      ValidatorsRunClean(mode, env, vs, k + 1, i, path, Apply(mode, env, vs[k], i, path, marks).marks);
    }
  }

  lemma {:induction false} ValidatorRunsClean(mode: Mode, env: Env, v: Validator, i: Json, path: seq<Segment>,
        marks: set<string>)
    requires LacksV(v, NEGATIVE) && Satisfies(env, v, i)
    ensures Apply(mode, env, v, i, path, marks).errors == []
    decreases v, 2
  {
    if v.Assertion? {
      TestPassesClean(mode, env, v.test, i, path);
    } else if v.AnyOfV? {
      hide Accepts, Run, Lacks;
      var k :| 0 <= k < |v.schemas| && Accepts(env, v.schemas[k], i);
      assert Children(v) == v.schemas;
      SomeAlternativeMatches(mode, env, v.schemas, 0, k, i, path, marks);
    } else if v.ContainsV? {
      if i.Arr? {
        assert Lacks(Children(v)[0], NEGATIVE);
        var accepted := AcceptedItems(env, v.schema, i.items);
        EnoughMatches(env, v.schema, i.items, 0, path, marks);
        assert AcceptedFrom(env, v.schema, i.items, 0) == accepted;
      }
    } else if !IsSpecial(v) {
      var plan := Plan(mode, env, v, i, path);
      PlanRuns(mode, env, v, i, path);
      PlanMeans(mode, env, v, i, path);
      TasksRunClean(mode, env, v, plan, 0, marks);
    }
  }

  lemma {:induction false} SomeAlternativeMatches(mode: Mode, env: Env, ts: seq<Node>, from: nat, k: nat, i: Json,
        path: seq<Segment>, marks: set<string>)
    requires from <= k < |ts| && Accepts(env, ts[k], i)
    requires forall x :: 0 <= x < |ts| ==> Lacks(ts[x], NEGATIVE)
    ensures TryAll(mode, env, ts, from, i, path, marks).matched
    decreases ts, |ts| - from
  {
    hide Accepts, Run, Lacks;
    var inner := if mode == First then First else Quick;
    if from == k {
      AcceptedRunsClean(inner, env, ts[k], i, path, marks);
    } else {
      var r := Run(inner, env, ts[from], i, path, marks);
      SomeAlternativeMatches(mode, env, ts, from + 1, k, i, path, if r.errors == [] then r.marks else marks);
    }
  }

  /** The accepted positions from `from` on. */
  function AcceptedFrom(env: Env, t: Node, items: seq<Json>, from: nat): set<int> {
    set k | from <= k < |items| && Accepts(env, t, items[k])
  }

  lemma {:induction false} EnoughMatches(env: Env, t: Node, items: seq<Json>, from: nat, path: seq<Segment>,
        marks: set<string>)
    requires Lacks(t, NEGATIVE) && from <= |items|
    ensures |AcceptedFrom(env, t, items, from)| <= CountMatches(env, t, items, from, path, marks).0
    decreases t, 2, |items| - from
  {
    hide Accepts, Run, Lacks;
    if from < |items| {
      var r := Run(Quick, env, t, items[from], path, marks);
      EnoughMatches(env, t, items, from + 1, path, r.marks);
      var all, rest := AcceptedFrom(env, t, items, from), AcceptedFrom(env, t, items, from + 1);
      if Accepts(env, t, items[from]) {
        AcceptedRunsClean(Quick, env, t, items[from], path, marks);
        assert all == rest + {from};
      } else {
        assert all == rest;
      }
    } else {
      assert AcceptedFrom(env, t, items, from) == {};
    }
  }

  lemma {:induction false} TasksRunClean(mode: Mode, env: Env, v: Validator, tasks: seq<Task>, k: nat,
        marks: set<string>)
    requires k <= |tasks| && AllRun(v, tasks) && AllPass(env, tasks) && LacksV(v, NEGATIVE)
    ensures RunTasks(mode, env, v, tasks, k, marks).errors == []
    decreases v, 1, |tasks| - k
  {
    hide LacksV, Accepts, Run, JobPasses, Runs;
    if k < |tasks| {
      assert Runs(v, tasks[k]) && JobPasses(env, tasks[k].job);
      TaskRunsClean(mode, env, v, tasks[k], marks);
      TasksRunClean(mode, env, v, tasks, k + 1, RunTask(mode, env, v, tasks[k], marks).marks);
    }
  }

  lemma {:induction false} TaskRunsClean(mode: Mode, env: Env, v: Validator, task: Task, marks: set<string>)
    requires Runs(v, task) && JobPasses(env, task.job) && LacksV(v, NEGATIVE)
    ensures RunTask(mode, env, v, task, marks).errors == []
    decreases v, 0
  {
    hide Accepts, Run, Lacks, Children;
    if task.job.Check? {
      AcceptedRunsClean(mode, env, task.job.node, task.job.value, task.job.path, marks + task.before);
    }
  }
}
