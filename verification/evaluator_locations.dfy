/** Where errors point: every located error of every evaluator leads to a value of the instance, and that value has the
    fault the error names. */
module EvaluatorLocations {
  import opened JsonValues
  import opened SchemaTree
  import opened TreeFeatures
  import opened Paths
  import opened Evaluators
  import opened EvaluatorReport
  import EvaluatorResults

  // ----- values by their path -----

  function ValueAt(i: Json, path: seq<Segment>): Option<Json>
    decreases |path|
  {
    if path == [] then Some(i)
    else match path[0]
      case Property(name) =>
        if i.Obj? && Get(i.members, name).Some? then ValueAt(Get(i.members, name).value, path[1..]) else None
      case Index(k) => if i.Arr? && k < |i.items| then ValueAt(i.items[k], path[1..]) else None
  }

  /** The value at the end of the path, or its last name as a string, for the errors of a `propertyNames` schema. */
  predicate LeadsTo(i: Json, path: seq<Segment>, v: Json) {
    ValueAt(i, path) == Some(v) ||
    (path != [] && ValueAt(i, path).Some? && path[|path| - 1].Property? && v == Str(path[|path| - 1].name))
  }

  /** The value really has the fault. */
  predicate HasFault(env: Env, kind: ErrorKind, path: seq<Segment>, v: Json) {
    match kind
    case TestFailed(test) => !TestPasses(env, test, v)
    case MissingProperty(name) => v.Obj? && !Has(v.members, name)
    case UnexpectedProperty(name) => path != [] && path[|path| - 1] == Property(name)
    case TooFewMatches(min, actual) => v.Arr? && actual < min && actual <= |v.items|
    case TooManyMatches(max, actual) => v.Arr? && max < actual <= |v.items|
    case MissingDependents(property, missing) =>
      && v.Obj? && Has(v.members, property) && missing != []
      && forall k :: 0 <= k < |missing| ==> !Has(v.members, missing[k])
    case TooManyItems(_) => false
    case FalseSchema => false
    case _ => true
  }

  /** An error of a run on `i` at `base`. Only the error of a `false` schema and that of a surplus item are built
      without a location; any other extends `base` by a path that leads to the fault. */
  ghost predicate Located(env: Env, i: Json, base: seq<Segment>, e: Error) {
    if e.at.None? then e.kind.FalseSchema? || e.kind.TooManyItems?
    else base <= e.at.value && Faulty(env, i, e.at.value[|base|..], e.kind)
  }

  ghost predicate Faulty(env: Env, i: Json, path: seq<Segment>, kind: ErrorKind) {
    exists v :: LeadsTo(i, path, v) && HasFault(env, kind, path, v)
  }

  ghost predicate AllLocated(env: Env, i: Json, base: seq<Segment>, errors: seq<Error>) {
    forall k :: 0 <= k < |errors| ==> Located(env, i, base, errors[k])
  }

  // ----- from a subschema's errors to the schema's -----

  /** The value a subschema is run on: the instance itself, one of its items or members, or a name as a string. */
  predicate Inside(i: Json, step: seq<Segment>, value: Json) {
    if step == [] then value == i
    else |step| == 1 && match step[0]
      case Index(k) => i.Arr? && k < |i.items| && value == i.items[k]
      case Property(name) =>
        i.Obj? && Get(i.members, name).Some? && (value == Get(i.members, name).value || value == Str(name))
  }

  lemma DeeperLeads(i: Json, step: seq<Segment>, value: Json, rest: seq<Segment>, v: Json)
    requires Inside(i, step, value) && LeadsTo(value, rest, v)
    ensures LeadsTo(i, step + rest, v)
  {
    hide Get;
    if step == [] {
      assert step + rest == rest;
    } else {
      assert (step + rest)[0] == step[0] && (step + rest)[1..] == rest;
      assert ValueAt(i, [step[0]]).Some?;
      if rest != [] {
        assert (step + rest)[|step + rest| - 1] == rest[|rest| - 1];
      }
    }
  }

  lemma DeeperLocated(env: Env, i: Json, base: seq<Segment>, step: seq<Segment>, value: Json, e: Error)
    requires Inside(i, step, value) && Located(env, value, base + step, e)
    ensures Located(env, i, base, e)
  {
    hide LeadsTo, Inside, TestPasses, Has;
    if e.at.Some? {
      var at := e.at.value;
      var rest := at[|base + step|..];
      var v :| LeadsTo(value, rest, v) && HasFault(env, e.kind, rest, v);
      DeeperLeads(i, step, value, rest, v);
      assert at[|base|..] == step + rest;
      assert rest != [] ==> (step + rest)[|step + rest| - 1] == rest[|rest| - 1];
    }
  }

  lemma DeeperAllLocated(env: Env, i: Json, base: seq<Segment>, step: seq<Segment>, value: Json, errors: seq<Error>)
    requires Inside(i, step, value) && AllLocated(env, value, base + step, errors)
    ensures AllLocated(env, i, base, errors)
  {
    hide Inside, Located;
    forall k | 0 <= k < |errors| ensures Located(env, i, base, errors[k]) {
      DeeperLocated(env, i, base, step, value, errors[k]);
    }
  }

  /** A fault of the instance itself. */
  lemma HereLocated(env: Env, i: Json, base: seq<Segment>, kind: ErrorKind)
    requires HasFault(env, kind, [], i)
    ensures Located(env, i, base, Error(kind, Some(base)))
  {
    hide HasFault;
    assert base[|base|..] == [];
    assert LeadsTo(i, [], i);
  }

  lemma JoinLocated(env: Env, i: Json, base: seq<Segment>, a: seq<Error>, b: seq<Error>)
    requires AllLocated(env, i, base, a) && AllLocated(env, i, base, b)
    ensures AllLocated(env, i, base, a + b)
  {
    hide Located;
  }

  // ----- plans -----

  ghost predicate JobLocated(env: Env, i: Json, base: seq<Segment>, job: Job) {
    match job
    case Nothing => true
    case Refuse(e) => Located(env, i, base, e)
    case Check(_, value, path) =>
      base <= path && Inside(i, path[|base|..], value) && WellKeyed(value)
  }

  ghost predicate PlanLocated(env: Env, i: Json, base: seq<Segment>, tasks: seq<Task>) {
    forall k :: 0 <= k < |tasks| ==> JobLocated(env, i, base, tasks[k].job)
  }

  lemma SamePlace(env: Env, i: Json, base: seq<Segment>, t: Node)
    requires WellKeyed(i)
    ensures JobLocated(env, i, base, Check(t, i, base))
  {
    hide WellKeyed;
    assert base[|base|..] == [];
  }

  lemma ItemPlace(env: Env, i: Json, base: seq<Segment>, t: Node, k: nat)
    requires WellKeyed(i) && i.Arr? && k < |i.items|
    ensures JobLocated(env, i, base, Check(t, i.items[k], base + [Index(k)]))
  {
    var at := base + [Index(k)];
    assert at[|base|..] == [Index(k)];
  }

  lemma MemberPlace(env: Env, i: Json, base: seq<Segment>, t: Node, x: nat)
    requires WellKeyed(i) && i.Obj? && x < |i.members|
    ensures var at := base + [Property(i.members[x].key)];
      && JobLocated(env, i, base, Check(t, i.members[x].value, at))
      && JobLocated(env, i, base, Check(t, Str(i.members[x].key), at))
      && JobLocated(env, i, base, Refuse(Error(UnexpectedProperty(i.members[x].key), Some(at))))
  {
    var name := i.members[x].key;
    var at := base + [Property(name)];
    assert at[|base|..] == [Property(name)];
    MemberFound(i, x);
    hide Get, WellKeyed;
    assert WellKeyed(Str(name)) by {
      StringsWellKeyed(name);
    }
    assert Inside(i, [Property(name)], i.members[x].value);
    assert [Property(name)][1..] == [] && ValueAt(i.members[x].value, []) == Some(i.members[x].value);
    assert LeadsTo(i, [Property(name)], i.members[x].value);
    assert HasFault(env, UnexpectedProperty(name), [Property(name)], i.members[x].value);
  }

  lemma StringsWellKeyed(name: string)
    ensures WellKeyed(Str(name))
  {
  }

  lemma MemberFound(i: Json, x: nat)
    requires WellKeyed(i) && i.Obj? && x < |i.members|
    ensures Get(i.members, i.members[x].key) == Some(i.members[x].value) && WellKeyed(i.members[x].value)
  {
    var k := IndexFrom(i.members, i.members[x].key, 0);
    assert k.Some? && k.value == x;
  }

  lemma ArrayPlanLocated(mode: Mode, env: Env, v: Validator, i: Json, base: seq<Segment>)
    requires (v.ItemsV? || v.PrefixItemsV? || v.TupleItems?) && i.Arr? && WellKeyed(i)
    ensures PlanLocated(env, i, base, Plan(mode, env, v, i, base))
  {
    hide WellKeyed, JobLocated;
    var plan := Plan(mode, env, v, i, base);
    forall k | 0 <= k < |plan| ensures JobLocated(env, i, base, plan[k].job) {
      if plan[k].job.Check? {
        ItemPlace(env, i, base, plan[k].job.node, k);
      } else {
        UnplacedLocated(env, i, base, plan[k].job);
      }
    }
  }

  lemma UnplacedLocated(env: Env, i: Json, base: seq<Segment>, job: Job)
    requires job.Nothing? || (job.Refuse? && job.error.at.None? && job.error.kind.TooManyItems?)
    ensures JobLocated(env, i, base, job)
  {
  }

  lemma MemberPlanLocated(mode: Mode, env: Env, v: Validator, i: Json, base: seq<Segment>)
    requires (v.PropertiesV? || v.AdditionalPropertiesV? || v.PropertyNamesV?) && i.Obj? && WellKeyed(i)
    ensures PlanLocated(env, i, base, Plan(mode, env, v, i, base))
  {
    hide WellKeyed, JobLocated, IsAdditional, Find;
    var plan := Plan(mode, env, v, i, base);
    forall x | 0 <= x < |plan| ensures JobLocated(env, i, base, plan[x].job) {
      if plan[x].job == Nothing {
        UnplacedLocated(env, i, base, plan[x].job);
      } else {
        MemberPlace(env, i, base, if plan[x].job.Check? then plan[x].job.node else AlwaysValid, x);
      }
    }
  }

  lemma {:induction false} PatternPlanLocated(mode: Mode, env: Env, props: seq<Named>, i: Json, from: nat,
        base: seq<Segment>)
    requires i.Obj? && WellKeyed(i) && from <= |i.members|
    ensures PlanLocated(env, i, base, PatternPlan(mode, env, props, i.members[from..], base))
    decreases |i.members| - from
  {
    hide WellKeyed, JobLocated;
    if from < |i.members| {
      PatternPlanLocated(mode, env, props, i, from + 1, base);
      var m := i.members[from];
      assert i.members[from..][0] == m && i.members[from..][1..] == i.members[from + 1..];
      var row := PatternRow(mode, env, props, m, base);
      forall p | 0 <= p < |row| ensures JobLocated(env, i, base, row[p].job) {
        if row[p].job == Nothing {
          UnplacedLocated(env, i, base, row[p].job);
        } else {
          MemberPlace(env, i, base, props[p].node, from);
        }
      }
    }
  }

  lemma SelfPlanLocated(mode: Mode, env: Env, v: Validator, i: Json, base: seq<Segment>)
    requires (v.AllOfV? || v.DependentSchemasV? || v.RefV?) && WellKeyed(i)
    ensures PlanLocated(env, i, base, Plan(mode, env, v, i, base))
  {
    hide WellKeyed, JobLocated, Has;
    var plan := Plan(mode, env, v, i, base);
    forall k | 0 <= k < |plan| ensures JobLocated(env, i, base, plan[k].job) {
      if plan[k].job == Nothing {
        UnplacedLocated(env, i, base, plan[k].job);
      } else {
        SamePlace(env, i, base, plan[k].job.node);
      }
    }
  }

  lemma DependenciesLocated(env: Env, deps: seq<Dependency>, i: Json, base: seq<Segment>)
    requires i.Obj? && WellKeyed(i)
    ensures PlanLocated(env, i, base, DependenciesPlan(deps, i, base))
  {
    hide WellKeyed, JobLocated;
    var plan := DependenciesPlan(deps, i, base);
    forall k | 0 <= k < |plan| ensures JobLocated(env, i, base, plan[k].job) {
      DependencyLocated(env, deps[k], i, base);
    }
  }

  lemma DependencyLocated(env: Env, d: Dependency, i: Json, base: seq<Segment>)
    requires i.Obj? && WellKeyed(i)
    ensures JobLocated(env, i, base, DependencyJob(d, i, base))
  {
    hide WellKeyed, Has, Missing;
    if Has(i.members, d.name) {
      match d
      case NeedsNames(name, names) =>
        var missing := Missing(names, i.members);
        MissingAbsent(names, i.members);
        forall k | 0 <= k < |missing| ensures !Has(i.members, missing[k]) {
          assert missing[k] in missing;
        }
        if missing != [] {
          assert HasFault(env, MissingDependents(name, missing), [], i);
          HereLocated(env, i, base, MissingDependents(name, missing));
        }
      case NeedsSchema(_, t) => SamePlace(env, i, base, t);
    }
  }

  lemma {:induction false} MissingAbsent(names: seq<string>, members: seq<Member>)
    ensures forall x :: x in Missing(names, members) ==> !Has(members, x)
  {
    if names != [] {
      MissingAbsent(names[1..], members);
      var rest := Missing(names[1..], members);
      assert Missing(names, members) == if Has(members, names[0]) then rest else [names[0]] + rest;
    }
  }

  lemma AnyPlanLocated(mode: Mode, env: Env, v: Validator, i: Json, base: seq<Segment>)
    requires !IsSpecial(v) && WellKeyed(i)
    ensures PlanLocated(env, i, base, Plan(mode, env, v, i, base))
  {
    if (v.ItemsV? || v.PrefixItemsV? || v.TupleItems?) && i.Arr? {
      ArrayPlanLocated(mode, env, v, i, base);
    } else if (v.PropertiesV? || v.AdditionalPropertiesV? || v.PropertyNamesV?) && i.Obj? {
      MemberPlanLocated(mode, env, v, i, base);
    } else if v.PatternPropertiesV? && i.Obj? {
      PatternPlanLocated(mode, env, v.props, i, 0, base);
      assert i.members[0..] == i.members;
    } else if v.DependenciesV? && i.Obj? {
      DependenciesLocated(env, v.deps, i, base);
    } else if v.AllOfV? || v.DependentSchemasV? || v.RefV? {
      SelfPlanLocated(mode, env, v, i, base);
    }
  }

  // ----- runs -----

  lemma TestLocated(mode: Mode, env: Env, test: Test, i: Json, base: seq<Segment>)
    ensures AllLocated(env, i, base, TestErrors(mode, env, test, i, base))
  {
    hide Located, HasFault, TestPasses;
    if test.RequiresNames? {
      if i.Obj? {
        var missing := Missing(test.names, i.members);
        var all := Errors(MissingKinds(missing), base);
        MissingAbsent(test.names, i.members);
        forall k | 0 <= k < |all| ensures Located(env, i, base, all[k]) {
          assert missing[k] in missing;
          MissingFault(env, missing[k], i);
          HereLocated(env, i, base, MissingProperty(missing[k]));
        }
      }
    } else if !TestPasses(env, test, i) {
      TestFault(env, test, i);
      HereLocated(env, i, base, TestFailed(test));
    }
  }

  lemma MissingFault(env: Env, name: string, i: Json)
    requires i.Obj? && !Has(i.members, name)
    ensures HasFault(env, MissingProperty(name), [], i)
  {
  }

  lemma TestFault(env: Env, test: Test, i: Json)
    requires !TestPasses(env, test, i)
    ensures HasFault(env, TestFailed(test), [], i)
  {
  }

  lemma {:induction false} CountWithin(env: Env, t: Node, items: seq<Json>, k: nat, path: seq<Segment>,
        marks: set<string>)
    requires k <= |items|
    ensures CountMatches(env, t, items, k, path, marks).0 <= |items| - k
    decreases |items| - k
  {
    hide Run;
    if k < |items| {
      CountWithin(env, t, items, k + 1, path, Run(Quick, env, t, items[k], path, marks).marks);
    }
  }

  /** Every error of every evaluator, run on any tree from any marks at any path. */
  lemma {:induction false} RunLocated(mode: Mode, env: Env, t: Node, i: Json, path: seq<Segment>, marks: set<string>)
    requires WellKeyed(i)
    ensures AllLocated(env, i, path, Run(mode, env, t, i, path, marks).errors)
    decreases t, 1
  {
    if t.Validators? {
      RunFromLocated(mode, env, t.validators, 0, i, path, marks);
    }
  }

  lemma {:induction false} RunFromLocated(mode: Mode, env: Env, vs: seq<Validator>, k: nat, i: Json,
        path: seq<Segment>, marks: set<string>)
    requires WellKeyed(i) && k <= |vs|
    ensures AllLocated(env, i, path, RunFrom(mode, env, vs, k, i, path, marks).errors)
    decreases vs, |vs| - k
  {
    hide Apply, Located, WellKeyed;
    if k < |vs| {
      ApplyLocated(mode, env, vs[k], i, path, marks);
      var r := Apply(mode, env, vs[k], i, path, marks);
      RunFromLocated(mode, env, vs, k + 1, i, path, r.marks);
      JoinLocated(env, i, path, r.errors, RunFrom(mode, env, vs, k + 1, i, path, r.marks).errors);
    }
  }

  lemma {:induction false} ApplyLocated(mode: Mode, env: Env, v: Validator, i: Json, path: seq<Segment>,
        marks: set<string>)
    requires WellKeyed(i)
    ensures AllLocated(env, i, path, Apply(mode, env, v, i, path, marks).errors)
    decreases v, 2
  {
    hide Located, WellKeyed, TestErrors, Run, Plan, TryAll, TryEach, CountMatches, RunTasks;
    match v
    case Assertion(test) => TestLocated(mode, env, test, i, path);
    case AnyOfV(ts) =>
      AttemptsLocated(mode, env, ts, 0, i, path, marks);
      HereLocated(env, i, path, NoAlternative);
    case OneOfV(_) =>
      HereLocated(env, i, path, NoneOfOne);
      HereLocated(env, i, path, SeveralOfOne);
    case NotV(_) => HereLocated(env, i, path, Negated);
    case IfThenElse(c, thn, els) =>
      var r := Run(Quick, env, c, i, path, marks);
      OptionalLocated(mode, env, thn, i, path, r.marks);
      OptionalLocated(mode, env, els, i, path, marks);
    case ContainsV(t, min, max) =>
      if i.Arr? {
        CountWithin(env, t, i.items, 0, path, marks);
        var c := CountMatches(env, t, i.items, 0, path, marks);
        if c.0 < min {
          HereLocated(env, i, path, TooFewMatches(min, c.0));
        } else if max.Some? && c.0 > max.value {
          HereLocated(env, i, path, TooManyMatches(max.value, c.0));
        }
      }
    case _ =>
      PlanRuns(mode, env, v, i, path);
      AnyPlanLocated(mode, env, v, i, path);
      TasksLocated(mode, env, v, Plan(mode, env, v, i, path), 0, i, path, marks);
  }

  lemma {:induction false} OptionalLocated(mode: Mode, env: Env, t: Option<Node>, i: Json, path: seq<Segment>,
        marks: set<string>)
    requires WellKeyed(i)
    ensures AllLocated(env, i, path, RunOptional(mode, env, t, i, path, marks).errors)
    decreases t
  {
    if t.Some? {
      RunLocated(mode, env, t.value, i, path, marks);
    }
  }

  lemma {:induction false} AttemptsLocated(mode: Mode, env: Env, ts: seq<Node>, k: nat, i: Json, path: seq<Segment>,
        marks: set<string>)
    requires WellKeyed(i) && k <= |ts|
    ensures AllLocated(env, i, path, TryAll(mode, env, ts, k, i, path, marks).failures)
    decreases ts, |ts| - k
  {
    hide Located, WellKeyed, Run;
    if k < |ts| {
      var inner := if mode == First then First else Quick;
      RunLocated(inner, env, ts[k], i, path, marks);
      var r := Run(inner, env, ts[k], i, path, marks);
      var next := if r.errors == [] then r.marks else marks;
      AttemptsLocated(mode, env, ts, k + 1, i, path, next);
      JoinLocated(env, i, path, Head(r.errors), TryAll(mode, env, ts, k + 1, i, path, next).failures);
    }
  }

  lemma {:induction false} TasksLocated(mode: Mode, env: Env, v: Validator, tasks: seq<Task>, k: nat, i: Json,
        path: seq<Segment>, marks: set<string>)
    requires k <= |tasks| && AllRun(v, tasks) && PlanLocated(env, i, path, tasks)
    ensures AllLocated(env, i, path, RunTasks(mode, env, v, tasks, k, marks).errors)
    decreases v, 1, |tasks| - k
  {
    hide Located, JobLocated, RunTask, Runs;
    if k < |tasks| {
      assert Runs(v, tasks[k]);
      TaskLocated(mode, env, v, tasks[k], i, path, marks);
      var r := RunTask(mode, env, v, tasks[k], marks);
      TasksLocated(mode, env, v, tasks, k + 1, i, path, r.marks);
      JoinLocated(env, i, path, r.errors, RunTasks(mode, env, v, tasks, k + 1, r.marks).errors);
    }
  }

  lemma {:induction false} TaskLocated(mode: Mode, env: Env, v: Validator, task: Task, i: Json, path: seq<Segment>,
        marks: set<string>)
    requires Runs(v, task) && JobLocated(env, i, path, task.job)
    ensures AllLocated(env, i, path, RunTask(mode, env, v, task, marks).errors)
    decreases v, 0
  {
    hide Located, Run, Inside, WellKeyed;
    if task.job.Check? {
      var job := task.job;
      RunLocated(mode, env, job.node, job.value, job.path, marks + task.before);
      assert job.path == path + job.path[|path|..];
      DeeperAllLocated(env, i, path, job.path[|path|..], job.value,
        Run(mode, env, job.node, job.value, job.path, marks + task.before).errors);
    }
  }

  // ----- results -----

  /** Every error `iter_errors` yields, and the one `validate` answers with: unless it is that of a `false` schema or of
      a surplus item, it has a location, and what stands there in the instance has the fault it names. */
  lemma ErrorsPointAtFaults(env: Env, t: Node, i: Json, e: Error)
    requires WellKeyed(i) && (e in IterErrors(env, t, i) || Validate(env, t, i) == Some(e))
    ensures e.at.None? <==> e.kind.FalseSchema? || e.kind.TooManyItems?
    ensures e.at.Some? ==> Faulty(env, i, e.at.value, e.kind)
  {
    hide Faulty, Run;
    RunLocated(Every, env, t, i, [], {});
    RunLocated(First, env, t, i, [], {});
    assert Located(env, i, [], e);
    if e.at.Some? {
      assert e.at.value[0..] == e.at.value;
      NoFaultOfKind(env, i, e.at.value, e.kind);
    }
  }

  lemma NoFaultOfKind(env: Env, i: Json, path: seq<Segment>, kind: ErrorKind)
    requires Faulty(env, i, path, kind)
    ensures !kind.FalseSchema? && !kind.TooManyItems?
  {
  }

  /** In particular, an error of a keyword without subschemas stands where a value, or a name, fails its test. */
  lemma FailedTestsFail(env: Env, t: Node, i: Json, test: Test, at: seq<Segment>)
    requires WellKeyed(i) && Error(TestFailed(test), Some(at)) in IterErrors(env, t, i)
    ensures ValueAt(i, at).Some?
    ensures || !TestPasses(env, test, ValueAt(i, at).value)
      || (at != [] && at[|at| - 1].Property? && !TestPasses(env, test, Str(at[|at| - 1].name)))
  {
    hide IterErrors, TestPasses;
    ErrorsPointAtFaults(env, t, i, Error(TestFailed(test), Some(at)));
  }

  // ----- the order of the errors -----

  /** One list after the other. */
  function Concat(parts: seq<seq<Error>>): seq<Error> {
    if parts == [] then [] else parts[0] + Concat(parts[1..])
  }

  /** The errors of a tree on a value at a path. */
  function ErrorsAt(env: Env, t: Node, v: Json, path: seq<Segment>): seq<Error> {
    Run(Every, env, t, v, path, {}).errors
  }

  function JobErrors(env: Env, job: Job): seq<Error> {
    match job
    case Nothing => []
    case Refuse(e) => [e]
    case Check(t, value, path) => ErrorsAt(env, t, value, path)
  }

  /** A validator whose tasks need no marks yields the errors of its tasks, one after the other. */
  lemma {:induction false} TasksInOrder(env: Env, v: Validator, tasks: seq<Task>, k: nat, parts: seq<seq<Error>>)
    requires k <= |tasks| && AllRun(v, tasks) && LacksV(v, {Additional}) && |parts| == |tasks| - k
    requires forall x :: k <= x < |tasks| ==> tasks[x].job.Check? ==> WellKeyed(tasks[x].job.value)
    requires forall x :: k <= x < |tasks| ==> parts[x - k] == JobErrors(env, tasks[x].job)
    ensures ReportTasks(env, v, tasks, k) == Concat(parts)
    decreases |tasks| - k
  {
    hide Run, Report, WellKeyed, Children;
    if k < |tasks| {
      var job := tasks[k].job;
      assert Runs(v, tasks[k]);
      if job.Check? {
        var at :| 0 <= at < |Children(v)| && Children(v)[at] == job.node;
        EvaluatorResults.MarksDoNotMatter(Every, env, job.node, job.value, job.path, {});
      }
      assert parts[0] == JobErrors(env, job);
      assert forall x :: 0 <= x < |parts[1..]| ==> parts[1..][x] == parts[x + 1];
      TasksInOrder(env, v, tasks, k + 1, parts[1..]);
    }
  }

  lemma PlanInOrder(env: Env, v: Validator, i: Json, path: seq<Segment>, marks: set<string>, parts: seq<seq<Error>>)
    requires WellKeyed(i) && !IsSpecial(v) && LacksV(v, {Additional})
    requires var plan := Plan(Every, env, v, i, path);
      && |parts| == |plan| && (forall x :: 0 <= x < |plan| ==> parts[x] == JobErrors(env, plan[x].job))
    ensures Run(Every, env, Validators([v]), i, path, marks).errors == Concat(parts)
  {
    hide Run, Plan, LacksV, WellKeyed, JobErrors, Report, Inside;
    var t := Validators([v]);
    var plan := Plan(Every, env, v, i, path);
    PlanRuns(Every, env, v, i, path);
    AnyPlanLocated(Every, env, v, i, path);
    forall x | 0 <= x < |plan| && plan[x].job.Check? ensures WellKeyed(plan[x].job.value) {
      assert JobLocated(env, i, path, plan[x].job);
    }
    TasksInOrder(env, v, plan, 0, parts);
    assert Lacks(t, {Additional});
    EvaluatorResults.MarksDoNotMatter(Every, env, t, i, path, marks);
    SoleReport(env, v, i, path);
  }

  lemma SoleReport(env: Env, v: Validator, i: Json, path: seq<Segment>)
    requires !IsSpecial(v)
    ensures AllRun(v, Plan(Every, env, v, i, path))
    ensures Report(env, Validators([v]), i, path) == ReportTasks(env, v, Plan(Every, env, v, i, path), 0)
  {
    PlanRuns(Every, env, v, i, path);
    hide Plan, ReportTasks;
    assert ReportFrom(env, [v], 1, i, path) == [];
    var all := ReportBy(env, v, i, path);
    assert all == ReportTasks(env, v, Plan(Every, env, v, i, path), 0);
    assert ReportFrom(env, [v], 0, i, path) == all + [] == all;
  }

  /** `iter_errors` on arrays, over subschemas without `additionalProperties`: the errors of each item under its own
      schema, in order, at the item's index. */
  lemma ArrayErrorsInOrder(env: Env, t: Node, skip: nat, ts: seq<Node>, items: seq<Json>, path: seq<Segment>,
        marks: set<string>)
    requires WellKeyed(Arr(items)) && Lacks(t, {Additional})
    requires forall k :: 0 <= k < |ts| ==> Lacks(ts[k], {Additional})
    ensures Run(Every, env, Validators([ItemsV(t, skip)]), Arr(items), path, marks).errors
      == Concat(seq(|items|, k requires 0 <= k < |items| =>
           if k < skip then [] else ErrorsAt(env, t, items[k], path + [Index(k)])))
    ensures Run(Every, env, Validators([PrefixItemsV(ts)]), Arr(items), path, marks).errors
      == Concat(seq(|items|, k requires 0 <= k < |items| =>
           if k < |ts| then ErrorsAt(env, ts[k], items[k], path + [Index(k)]) else []))
    ensures Run(Every, env, Validators([TupleItems(ts, ValidateExtra(t))]), Arr(items), path, marks).errors
      == Concat(seq(|items|, k requires 0 <= k < |items| =>
           ErrorsAt(env, if k < |ts| then ts[k] else t, items[k], path + [Index(k)])))
    ensures Run(Every, env, Validators([TupleItems(ts, RejectAll)]), Arr(items), path, marks).errors
      == Concat(seq(|items|, k requires 0 <= k < |items| =>
           if k < |ts| then ErrorsAt(env, ts[k], items[k], path + [Index(k)])
           else [Error(TooManyItems(|ts|), None)]))
  {
    hide Run, WellKeyed, Lacks, Concat, ErrorsAt;
    PlanInOrder(env, ItemsV(t, skip), Arr(items), path, marks, seq(|items|, k requires 0 <= k < |items| =>
      if k < skip then [] else ErrorsAt(env, t, items[k], path + [Index(k)])));
    PlanInOrder(env, PrefixItemsV(ts), Arr(items), path, marks, seq(|items|, k requires 0 <= k < |items| =>
      if k < |ts| then ErrorsAt(env, ts[k], items[k], path + [Index(k)]) else []));
    PlanInOrder(env, TupleItems(ts, ValidateExtra(t)), Arr(items), path, marks,
      seq(|items|, k requires 0 <= k < |items| =>
        ErrorsAt(env, if k < |ts| then ts[k] else t, items[k], path + [Index(k)])));
    PlanInOrder(env, TupleItems(ts, RejectAll), Arr(items), path, marks, seq(|items|, k requires 0 <= k < |items| =>
      if k < |ts| then ErrorsAt(env, ts[k], items[k], path + [Index(k)]) else [Error(TooManyItems(|ts|), None)]));
  }

  /** The errors of one member under its entry of the property table, at the member's name. */
  function MemberErrors(env: Env, props: seq<Named>, m: Member, path: seq<Segment>): seq<Error> {
    var found := Find(props, m.key);
    if found.None? then [] else ErrorsAt(env, props[found.value].node, m.value, path + [Property(m.key)])
  }

  /** On objects: the errors of each member's value, or of its name, in order, at the member's name. */
  lemma ObjectErrorsInOrder(env: Env, t: Node, props: seq<Named>, members: seq<Member>, path: seq<Segment>,
        marks: set<string>)
    requires WellKeyed(Obj(members)) && Lacks(t, {Additional})
    requires forall k :: 0 <= k < |props| ==> Lacks(props[k].node, {Additional})
    ensures Run(Every, env, Validators([PropertiesV(props)]), Obj(members), path, marks).errors
      == Concat(seq(|members|, x requires 0 <= x < |members| => MemberErrors(env, props, members[x], path)))
    ensures Run(Every, env, Validators([PropertyNamesV(t)]), Obj(members), path, marks).errors
      == Concat(seq(|members|, x requires 0 <= x < |members| =>
           ErrorsAt(env, t, Str(members[x].key), path + [Property(members[x].key)])))
  {
    hide Run, WellKeyed, Lacks, Concat, ErrorsAt, Find;
    PlanInOrder(env, PropertiesV(props), Obj(members), path, marks,
      seq(|members|, x requires 0 <= x < |members| => MemberErrors(env, props, members[x], path)));
    PlanInOrder(env, PropertyNamesV(t), Obj(members), path, marks, seq(|members|, x requires 0 <= x < |members| =>
      ErrorsAt(env, t, Str(members[x].key), path + [Property(members[x].key)])));
  }
}
