/** When the three evaluators agree, when they do not, and how far `validate` and `iter_errors` name the same error. */
module EvaluatorResults {
  import opened JsonValues
  import opened SchemaTree
  import opened TreeFeatures
  import opened Paths
  import opened Evaluators
  import opened EvaluatorReport
  import opened EvaluatorCoherence
  import opened EvaluatorAgreement

  // ----- agreement -----

  /** On a coherent tree the instance is valid iff `validate` is `Ok` iff there are no errors, and `iter_errors` yields
      the report that ignores the marks. */
  lemma EvaluatorsAgree(env: Env, t: Node, i: Json)
    requires WellKeyed(i) && Coherent(env, t, iset{})
    ensures IsValid(env, t, i) <==> Accepts(env, t, i)
    ensures Validate(env, t, i).None? <==> Accepts(env, t, i)
    ensures IterErrors(env, t, i) == Report(env, t, i, [])
    ensures IterErrors(env, t, i) == [] <==> Accepts(env, t, i)
  {
    hide Run, Report, Accepts, Coherent, WellKeyed;
    NodeAgrees(Quick, env, t, i, [], {}, iset{}, false);
    NodeAgrees(First, env, t, i, [], {}, iset{}, false);
    NodeAgrees(Every, env, t, i, [], {}, iset{}, false);
    ReportMeansAccepts(env, t, i, []);
  }

  /** Without `anyOf`, the error of `validate` is the first one `iter_errors` yields. */
  lemma ValidateYieldsFirstError(env: Env, t: Node, i: Json)
    requires WellKeyed(i) && Coherent(env, t, iset{}) && Lacks(t, {Choice})
    ensures Validate(env, t, i) == if IterErrors(env, t, i) == [] then None else Some(IterErrors(env, t, i)[0])
  {
    hide Run, Report, Accepts, Coherent, WellKeyed, Lacks;
    NodeAgrees(First, env, t, i, [], {}, iset{}, true);
    NodeAgrees(Every, env, t, i, [], {}, iset{}, true);
  }

  /** The same for a tree without `additionalProperties`, in the middle of any run: whatever is already marked. */
  lemma MarksDoNotMatter(mode: Mode, env: Env, t: Node, i: Json, path: seq<Segment>, marks: set<string>)
    requires WellKeyed(i) && Lacks(t, {Additional})
    ensures Run(mode, env, t, i, path, marks).errors == [] <==> Accepts(env, t, i)
    ensures mode == Every ==> Run(mode, env, t, i, path, marks).errors == Report(env, t, i, path)
  {
    hide Run, Report, Accepts, WellKeyed;
    var d := iset n | n in marks;
    NoAdditionalIsCoherent(env, t, d);
    NodeAgrees(mode, env, t, i, path, marks, d, false);
    ReportMeansAccepts(env, t, i, path);
  }

  /** `validate_schema_with_draft`: over a coherent meta-schema the fall-through `Ok` is unreachable. */
  lemma FallThroughUnreachable(env: Env, meta: Node, schema: Json)
    requires WellKeyed(schema) && Coherent(env, meta, iset{})
    ensures ValidateSchema(env, meta, schema).None? <==> IsValid(env, meta, schema)
    ensures !IsValid(env, meta, schema) ==> IterErrors(env, meta, schema) != []
  {
    EvaluatorsAgree(env, meta, schema);
  }

  // ----- where agreement fails -----

  /** The names of the instance a closed object should refuse. */
  function AdditionalNames(env: Env, v: Validator, members: seq<Member>): set<string>
    requires v.AdditionalPropertiesV?
  {
    set k | 0 <= k < |members| && IsAdditional(env, v, members[k].key) :: members[k].key
  }

  /** `additionalProperties: false` passes exactly the objects all of whose additional names are already marked: the
      guard of its loop skips them. So it misjudges an object iff that has additional names and all are marked. */
  lemma ClosedObjectExact(mode: Mode, env: Env, v: Validator, i: Json, path: seq<Segment>, marks: set<string>)
    requires v.AdditionalPropertiesV? && v.others == Some(RejectExtra) && i.Obj?
    ensures Apply(mode, env, v, i, path, marks).errors == [] <==> AdditionalNames(env, v, i.members) <= marks
    ensures Satisfies(env, v, i) <==> AdditionalNames(env, v, i.members) == {}
  {
    hide IsAdditional;
    var plan := Plan(mode, env, v, i, path);
    PlanRuns(mode, env, v, i, path);
    ClosedTasks(mode, env, v, i.members, path, 0, marks);
    if AdditionalNames(env, v, i.members) == {} {
      forall k | 0 <= k < |i.members| ensures !IsAdditional(env, v, i.members[k].key) {
        assert i.members[k].key !in AdditionalNames(env, v, i.members);
      }
    }
  }

  lemma {:induction false} ClosedTasks(mode: Mode, env: Env, v: Validator, members: seq<Member>, path: seq<Segment>,
        k: nat, marks: set<string>)
    requires v.AdditionalPropertiesV? && v.others == Some(RejectExtra) && k <= |members|
    requires AllRun(v, AdditionalPlan(env, v, members, path))
    ensures RunTasks(mode, env, v, AdditionalPlan(env, v, members, path), k, marks).errors == []
      <==> forall x :: k <= x < |members| && IsAdditional(env, v, members[x].key) ==> members[x].key in marks
    decreases |members| - k
  {
    hide IsAdditional;
    if k < |members| {
      var plan := AdditionalPlan(env, v, members, path);
      var r := RunTask(mode, env, v, plan[k], marks);
      ClosedTasks(mode, env, v, members, path, k + 1, r.marks);
      ClosedTurn(mode, env, v, members, path, k, marks);
    }
  }

  lemma ClosedTurn(mode: Mode, env: Env, v: Validator, members: seq<Member>, path: seq<Segment>, k: nat,
        marks: set<string>)
    requires v.AdditionalPropertiesV? && v.others == Some(RejectExtra) && k < |members|
    requires AllRun(v, AdditionalPlan(env, v, members, path))
    ensures var r := RunTask(mode, env, v, AdditionalPlan(env, v, members, path)[k], marks);
      && (r.errors == [] <==> (IsAdditional(env, v, members[k].key) ==> members[k].key in marks))
      && (r.errors == [] ==> r.marks == marks)
  {
    hide IsAdditional;
  }

  /** `{"additionalProperties": false}` */
  const CLOSED: Node := Validators([AdditionalPropertiesV(Some(RejectExtra), {}, [])])

  /** `{"properties": {p: ...}}` */
  function OneProperty(p: string, t: Node): Node {
    Validators([PropertiesV([Named(p, t)])])
  }

  /** `{"patternProperties": {p: ...}}` */
  function OnePattern(p: string, t: Node): Node {
    Validators([PatternPropertiesV([Named(p, t)])])
  }

  lemma SoleValidator(mode: Mode, env: Env, v: Validator, i: Json, path: seq<Segment>, marks: set<string>)
    ensures Run(mode, env, Validators([v]), i, path, marks).errors == Apply(mode, env, v, i, path, marks).errors
  {
    hide Apply;
    assert RunFrom(mode, env, [v], 1, i, path, Apply(mode, env, v, i, path, marks).marks).errors == [];
  }

  lemma SoleTask(mode: Mode, env: Env, v: Validator, task: Task, marks: set<string>)
    requires AllRun(v, [task]) && task.job.Check? && task.unless.None? && Runs(v, task)
    ensures RunTasks(mode, env, v, [task], 0, marks).errors
      == Run(mode, env, task.job.node, task.job.value, task.job.path, marks + task.before).errors
  {
    var r := RunTask(mode, env, v, task, marks);
    assert RunTasks(mode, env, v, [task], 1, r.marks).errors == [];
    assert r.errors == RunJob(mode, env, v, task.job, marks + task.before).errors;
  }

  /** What each evaluator has marked when it gets to the one property's schema. */
  lemma OnePropertyRun(mode: Mode, env: Env, p: string, t: Node, value: Json)
    ensures Run(mode, env, OneProperty(p, t), Obj([Member(p, value)]), [], {}).errors
      == Run(mode, env, t, value, [Property(p)], if mode == First then {p} else {}).errors
  {
    var v, i := PropertiesV([Named(p, t)]), Obj([Member(p, value)]);
    var plan := Plan(mode, env, v, i, []);
    SoleValidator(mode, env, v, i, [], {});
    PlanRuns(mode, env, v, i, []);
    assert Find([Named(p, t)], p) == Some(0);
    assert plan == [plan[0]];
    assert plan[0].job == Check(t, value, [] + [Property(p)]) && [] + [Property(p)] == [Property(p)];
    SoleTask(mode, env, v, plan[0], {});
    assert {} + plan[0].before == if mode == First then {p} else {};
  }

  lemma OnePatternRun(mode: Mode, env: Env, p: string, name: string, t: Node, value: Json)
    requires env.Matches(p, name)
    ensures Run(mode, env, OnePattern(p, t), Obj([Member(name, value)]), [], {}).errors
      == Run(mode, env, t, value, [Property(name)], if mode == Every then {} else {name}).errors
  {
    var v, i := PatternPropertiesV([Named(p, t)]), Obj([Member(name, value)]);
    var plan := Plan(mode, env, v, i, []);
    SoleValidator(mode, env, v, i, [], {});
    PlanRuns(mode, env, v, i, []);
    assert PatternPlan(mode, env, v.props, [], []) == [] && i.members[1..] == [];
    var row := PatternRow(mode, env, v.props, i.members[0], []);
    assert plan == row && row == [row[0]];
    assert row[0].job == Check(t, value, [] + [Property(name)]) && [] + [Property(name)] == [Property(name)];
    SoleTask(mode, env, v, plan[0], {});
    assert {} + plan[0].before == if mode == Every then {} else {name};
  }

  lemma ClosedRun(mode: Mode, env: Env, members: seq<Member>, path: seq<Segment>, marks: set<string>)
    ensures Run(mode, env, CLOSED, Obj(members), path, marks).errors == [] <==> Keys(members) <= marks
  {
    var v := CLOSED.validators[0];
    SoleValidator(mode, env, v, Obj(members), path, marks);
    ClosedObjectExact(mode, env, v, Obj(members), path, marks);
    assert forall k :: 0 <= k < |members| ==> IsAdditional(env, v, members[k].key);
    assert AdditionalNames(env, v, members) == Keys(members);
  }

  /** `{"properties": {p: {"additionalProperties": false}}}` against an object under `p`: `is_valid` and `iter_errors`
      pass exactly the empty one, but `validate` has already marked `p`, so it passes an object with the one member
      `p` as well. They disagree iff the members of the inner object are exactly `p`. */
  lemma ClosedPropertyDisagrees(env: Env, p: string, members: seq<Member>)
    ensures var t, i := OneProperty(p, CLOSED), Obj([Member(p, Obj(members))]);
      && (IsValid(env, t, i) <==> members == [])
      && (IterErrors(env, t, i) == [] <==> members == [])
      && (Validate(env, t, i).None? <==> Keys(members) <= {p})
      && (IsValid(env, t, i) != Validate(env, t, i).None? <==> Keys(members) == {p})
  {
    hide Run;
    forall mode ensures Run(mode, env, OneProperty(p, CLOSED), Obj([Member(p, Obj(members))]), [], {}).errors == []
      <==> Keys(members) <= if mode == First then {p} else {}
    {
      OnePropertyRun(mode, env, p, CLOSED, Obj(members));
      ClosedRun(mode, env, members, [Property(p)], if mode == First then {p} else {});
    }
    KeysEmpty(members);
  }

  lemma KeysEmpty(members: seq<Member>)
    ensures Keys(members) == {} <==> members == []
  {
    if members != [] {
      assert members[0].key in Keys(members);
    }
  }

  /** Under `patternProperties` it is `iter_errors` that marks late: it refuses objects the other two pass. */
  lemma ClosedPatternDisagrees(env: Env, p: string, name: string, members: seq<Member>)
    requires env.Matches(p, name)
    ensures var t, i := OnePattern(p, CLOSED), Obj([Member(name, Obj(members))]);
      && (IsValid(env, t, i) <==> Keys(members) <= {name})
      && (Validate(env, t, i).None? <==> Keys(members) <= {name})
      && (IterErrors(env, t, i) == [] <==> members == [])
      && (IsValid(env, t, i) && IterErrors(env, t, i) != [] <==> Keys(members) == {name})
  {
    hide Run;
    forall mode ensures Run(mode, env, OnePattern(p, CLOSED), Obj([Member(name, Obj(members))]), [], {}).errors == []
      <==> Keys(members) <= if mode == Every then {} else {name}
    {
      OnePatternRun(mode, env, p, name, CLOSED, Obj(members));
      ClosedRun(mode, env, members, [Property(name)], if mode == Every then {} else {name});
    }
    KeysEmpty(members);
  }

  /** With a `not` in between it is the other way round: the instance is invalid and yet has no errors iff the members
      of the inner object are exactly the marked name. */
  lemma InvalidWithoutErrors(env: Env, p: string, name: string, members: seq<Member>)
    requires env.Matches(p, name)
    ensures var t, i := OnePattern(p, Validators([NotV(CLOSED)])), Obj([Member(name, Obj(members))]);
      !IsValid(env, t, i) && IterErrors(env, t, i) == [] <==> Keys(members) == {name}
  {
    hide Run;
    var inner := Validators([NotV(CLOSED)]);
    forall mode ensures Run(mode, env, OnePattern(p, inner), Obj([Member(name, Obj(members))]), [], {}).errors == []
      <==> !(Keys(members) <= if mode == Every then {} else {name})
    {
      var marks := if mode == Every then {} else {name};
      OnePatternRun(mode, env, p, name, inner, Obj(members));
      NotClosedRun(mode, env, members, [Property(name)], marks);
    }
    KeysEmpty(members);
  }

  lemma NotClosedRun(mode: Mode, env: Env, members: seq<Member>, path: seq<Segment>, marks: set<string>)
    ensures Run(mode, env, Validators([NotV(CLOSED)]), Obj(members), path, marks).errors == []
      <==> !(Keys(members) <= marks)
  {
    SoleValidator(mode, env, NotV(CLOSED), Obj(members), path, marks);
    ClosedRun(Quick, env, members, path, marks);
  }

  // ----- the error of `anyOf` -----

  ghost predicate NoneOfKind(errors: seq<Error>, kind: ErrorKind) {
    forall k :: 0 <= k < |errors| ==> errors[k].kind != kind
  }

  /** A tree without `anyOf` never reports an unmatched `anyOf`. */
  lemma {:induction false} NoChoiceNoAlternative(env: Env, t: Node, i: Json, path: seq<Segment>)
    requires Lacks(t, {Choice})
    ensures NoneOfKind(Report(env, t, i, path), NoAlternative)
    decreases t, 1
  {
    if t.Validators? {
      NoChoiceFrom(env, t.validators, 0, i, path);
    }
  }

  lemma {:induction false} NoChoiceFrom(env: Env, vs: seq<Validator>, k: nat, i: Json, path: seq<Segment>)
    requires k <= |vs| && forall x :: 0 <= x < |vs| ==> LacksV(vs[x], {Choice})
    ensures NoneOfKind(ReportFrom(env, vs, k, i, path), NoAlternative)
    decreases vs, |vs| - k
  {
    hide LacksV, ReportBy;
    if k < |vs| {
      NoChoiceBy(env, vs[k], i, path);
      NoChoiceFrom(env, vs, k + 1, i, path);
    }
  }

  lemma {:induction false} NoChoiceBy(env: Env, v: Validator, i: Json, path: seq<Segment>)
    requires LacksV(v, {Choice})
    ensures NoneOfKind(ReportBy(env, v, i, path), NoAlternative)
    decreases v, 2
  {
    if v.IfThenElse? {
      var branch := if Accepts(env, v.cond, i) then v.thn else v.els;
      if branch.Some? {
        assert branch.value == Children(v)[if Accepts(env, v.cond, i) then 1 else |Children(v)| - 1];
        NoChoiceNoAlternative(env, branch.value, i, path);
      }
    } else if !IsSpecial(v) {
      var plan := Plan(Every, env, v, i, path);
      PlanRuns(Every, env, v, i, path);
      PlanRefusals(env, v, i, path);
      NoChoiceTasks(env, v, plan, 0);
    }
  }

  ghost predicate AllRefusals(tasks: seq<Task>) {
    forall k :: 0 <= k < |tasks| && tasks[k].job.Refuse? ==> tasks[k].job.error.kind != NoAlternative
  }

  lemma PlanRefusals(env: Env, v: Validator, i: Json, path: seq<Segment>)
    requires !IsSpecial(v)
    ensures AllRefusals(Plan(Every, env, v, i, path))
  {
    if v.PatternPropertiesV? && i.Obj? {
      PatternRefusals(env, v.props, i.members, path);
    }
  }

  lemma {:induction false} PatternRefusals(env: Env, props: seq<Named>, members: seq<Member>, path: seq<Segment>)
    ensures AllRefusals(PatternPlan(Every, env, props, members, path))
    decreases |members|
  {
    if members != [] {
      PatternRefusals(env, props, members[1..], path);
    }
  }

  lemma {:induction false} NoChoiceTasks(env: Env, v: Validator, tasks: seq<Task>, k: nat)
    requires k <= |tasks| && AllRun(v, tasks) && AllRefusals(tasks) && LacksV(v, {Choice})
    ensures NoneOfKind(ReportTasks(env, v, tasks, k), NoAlternative)
    decreases v, 1, |tasks| - k
  {
    hide Report, Lacks;
    if k < |tasks| {
      NoChoiceTasks(env, v, tasks, k + 1);
      var job := tasks[k].job;
      assert Runs(v, tasks[k]);
      if job.Check? {
        var x := ChildIndex(v, job.node);
        NoChoiceNoAlternative(env, job.node, job.value, job.path);
      }
    }
  }

  /** An `anyOf` of alternatives without `anyOf`, failing: `validate` reports the first alternative's error while
      `iter_errors` reports the `anyOf`, so the two name the same error iff there are no alternatives. */
  lemma AnyOfErrorsAgreeIffEmpty(env: Env, ts: seq<Node>, i: Json)
    requires var t := Validators([AnyOfV(ts)]); WellKeyed(i) && Coherent(env, t, iset{}) && !Accepts(env, t, i)
    requires forall k :: 0 <= k < |ts| ==> Lacks(ts[k], {Choice})
    ensures var t := Validators([AnyOfV(ts)]);
      && Validate(env, t, i).Some? && IterErrors(env, t, i) == [Error(NoAlternative, Some([]))]
      && (Validate(env, t, i).value == IterErrors(env, t, i)[0] <==> ts == [])
  {
    var v := AnyOfV(ts);
    assert !Satisfies(env, v, i) by {
      assert Validators([v]).validators[0] == v;
    }
    SoleValidator(First, env, v, i, [], {});
    EvaluatorsAgree(env, Validators([v]), i);
    assert Report(env, Validators([v]), i, []) == ReportBy(env, v, i, []) by {
      assert ReportFrom(env, [v], 1, i, []) == [];
    }
    if ts != [] {
      FirstFailure(env, v, i);
    }
  }

  lemma FirstFailure(env: Env, v: Validator, i: Json)
    requires v.AnyOfV? && v.schemas != [] && WellKeyed(i) && CoherentFrom(env, [v], 0, iset{}) && !Satisfies(env, v, i)
    requires Lacks(v.schemas[0], {Choice})
    ensures var errors := Apply(First, env, v, i, [], {}).errors; |errors| == 1 && errors[0].kind != NoAlternative
  {
    var t := v.schemas[0];
    assert Children(v)[0] == t;
    assert !Accepts(env, t, i);
    NodeAgrees(First, env, t, i, [], {}, After(env, v, iset{}), true);
    NoChoiceNoAlternative(env, t, i, []);
    ReportMeansAccepts(env, t, i, []);
    TryAllAgrees(First, env, v, 0, i, [], {}, iset{});
  }
}
