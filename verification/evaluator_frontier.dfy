/** Exactly which kinds of validator have to be absent for two evaluators to agree on every tree. */
module EvaluatorFrontier {
  import opened JsonValues
  import opened SchemaTree
  import opened TreeFeatures
  import opened Paths
  import opened Evaluators
  import opened EvaluatorCoherence
  import opened EvaluatorVerdicts
  import opened EvaluatorResults

  // ----- a family without negative keywords that errs the other way -----

  /** `{"additionalProperties": true, "type": "object"}` */
  const OPEN: Node := Validators([
    AdditionalPropertiesV(Some(ExtraSchema(AlwaysValid)), {}, []),
    Assertion(TypeIn({ObjectType}))])

  /** `{"additionalProperties": {"additionalProperties": true, "type": "object"}}` */
  const REOPENED: Node := Validators([AdditionalPropertiesV(Some(ExtraSchema(OPEN)), {}, [])])

  /** `{name: {other: v}, other: w}` */
  function Nested(name: string, other: string, v: Json, w: Json): Json {
    Obj([Member(name, Obj([Member(other, v)])), Member(other, w)])
  }

  /** `additionalProperties: true` passes and marks every name. */
  lemma OpenMarks(mode: Mode, env: Env, i: Json, path: seq<Segment>, marks: set<string>)
    ensures Apply(mode, env, OPEN.validators[0], i, path, marks)
      == Outcome([], if i.Obj? then marks + Keys(i.members) else marks)
  {
    var v := OPEN.validators[0];
    PlanRuns(mode, env, v, i, path);
    if i.Obj? {
      OpenTasks(mode, env, v, i.members, path, 0, marks);
      assert KeysFrom(i.members, 0) == Keys(i.members);
    }
  }

  function KeysFrom(members: seq<Member>, k: nat): set<string> {
    set x | k <= x < |members| :: members[x].key
  }

  lemma {:induction false} OpenTasks(mode: Mode, env: Env, v: Validator, members: seq<Member>, path: seq<Segment>,
        k: nat, marks: set<string>)
    requires v == OPEN.validators[0] && k <= |members|
    requires AllRun(v, AdditionalPlan(env, v, members, path))
    ensures RunTasks(mode, env, v, AdditionalPlan(env, v, members, path), k, marks)
      == Outcome([], marks + KeysFrom(members, k))
    decreases |members| - k
  {
    if k < |members| {
      var plan := AdditionalPlan(env, v, members, path);
      var r := RunTask(mode, env, v, plan[k], marks);
      assert IsAdditional(env, v, members[k].key);
      assert r == Outcome([], marks + {members[k].key});
      assert KeysFrom(members, k) == {members[k].key} + KeysFrom(members, k + 1);
      OpenTasks(mode, env, v, members, path, k + 1, r.marks);
    } else {
      assert KeysFrom(members, k) == {};
    }
  }

  lemma OpenRun(mode: Mode, env: Env, i: Json, path: seq<Segment>, marks: set<string>)
    ensures var r := Run(mode, env, OPEN, i, path, marks);
      (r.errors == [] <==> i.Obj?) && (i.Obj? ==> r.marks == marks + Keys(i.members))
  {
    hide Apply;
    OpenMarks(mode, env, i, path, marks);
    var after := Apply(mode, env, OPEN.validators[0], i, path, marks).marks;
    OnlyObjects(mode, env, i, path, after);
    var vs := OPEN.validators;
    assert RunFrom(mode, env, vs, 2, i, path, after) == Outcome([], after);
    assert RunFrom(mode, env, vs, 1, i, path, after).errors == [] <==> i.Obj?;
  }

  lemma OnlyObjects(mode: Mode, env: Env, i: Json, path: seq<Segment>, marks: set<string>)
    ensures var r := Apply(mode, env, OPEN.validators[1], i, path, marks);
      (r.errors == [] <==> i.Obj?) && r.marks == marks
  {
  }

  /** The turn of `additionalProperties` for the name `n`. */
  function OpenTurn(n: string, value: Json, path: seq<Segment>): Task {
    Task(Check(OPEN, value, path + [Property(n)]), Some(n), {}, {n}, Keep)
  }

  lemma OpenTurnRuns(mode: Mode, env: Env, n: string, value: Json, path: seq<Segment>, marks: set<string>)
    ensures Runs(REOPENED.validators[0], OpenTurn(n, value, path))
    ensures var r := RunTask(mode, env, REOPENED.validators[0], OpenTurn(n, value, path), marks);
      && (r.errors == [] <==> n in marks || value.Obj?)
      && (n in marks ==> r.marks == marks)
      && (n !in marks && value.Obj? ==> r.marks == marks + Keys(value.members) + {n})
  {
    hide Run;
    assert Children(REOPENED.validators[0])[0] == OPEN;
    OpenRun(mode, env, value, path + [Property(n)], marks + {});
    assert marks + {} == marks;
  }

  lemma TwoTasks(mode: Mode, env: Env, v: Validator, a: Task, b: Task, marks: set<string>)
    requires Runs(v, a) && Runs(v, b)
    ensures RunTasks(mode, env, v, [a, b], 0, marks).errors == [] <==>
      var r := RunTask(mode, env, v, a, marks);
      r.errors == [] && RunTask(mode, env, v, b, r.marks).errors == []
  {
    hide RunTask;
    var r := RunTask(mode, env, v, a, marks);
    var last := RunTask(mode, env, v, b, r.marks);
    assert RunTasks(mode, env, v, [a, b], 2, last.marks) == Outcome([], last.marks);
    assert RunTasks(mode, env, v, [a, b], 1, r.marks).errors == [] <==> last.errors == [];
  }

  lemma ReopenedPlan(mode: Mode, env: Env, name: string, other: string, v: Json, w: Json, path: seq<Segment>)
    ensures Plan(mode, env, REOPENED.validators[0], Nested(name, other, v, w), path)
      == [OpenTurn(name, Obj([Member(other, v)]), path), OpenTurn(other, w, path)]
  {
    var outer := REOPENED.validators[0];
    assert IsAdditional(env, outer, name) && IsAdditional(env, outer, other);
  }

  /** Unless `name` is marked already, running the inner schema on its value marks `other` before `other` is looked
      at. */
  lemma ReopenedRun(mode: Mode, env: Env, name: string, other: string, v: Json, w: Json, path: seq<Segment>,
        marks: set<string>)
    requires name != other && marks <= {name}
    ensures Run(mode, env, REOPENED, Nested(name, other, v, w), path, marks).errors == []
      <==> (name in marks ==> w.Obj?)
  {
    hide Run, Plan, OpenTurn, RunTask;
    var outer, inner := REOPENED.validators[0], Obj([Member(other, v)]);
    var a, b := OpenTurn(name, inner, path), OpenTurn(other, w, path);
    SoleValidator(mode, env, outer, Nested(name, other, v, w), path, marks);
    ReopenedPlan(mode, env, name, other, v, w, path);
    OpenTurnRuns(mode, env, name, inner, path, marks);
    var r := RunTask(mode, env, outer, a, marks);
    assert Keys(inner.members) == {other} by {
      assert inner.members[0].key == other;
    }
    OpenTurnRuns(mode, env, other, w, path, r.marks);
    TwoTasks(mode, env, outer, a, b, marks);
  }

  /** No negative keyword is needed for an instance to be invalid and yet have no errors. */
  lemma PositivelyInvalidWithoutErrors(env: Env, p: string, name: string, other: string, v: Json, w: Json)
    requires env.Matches(p, name) && name != other
    ensures var t, i := OnePattern(p, REOPENED), Obj([Member(name, Nested(name, other, v, w))]);
      && Lacks(t, NEGATIVE)
      && IterErrors(env, t, i) == []
      && (IsValid(env, t, i) <==> w.Obj?)
      && (Validate(env, t, i).None? <==> w.Obj?)
  {
    hide Run;
    var t, i := OnePattern(p, REOPENED), Obj([Member(name, Nested(name, other, v, w))]);
    forall mode ensures Run(mode, env, t, i, [], {}).errors == [] <==> (mode != Every ==> w.Obj?) {
      OnePatternRun(mode, env, p, name, REOPENED, Nested(name, other, v, w));
      ReopenedRun(mode, env, name, other, v, w, [Property(name)], if mode == Every then {} else {name});
    }
    FamilyFeatures(p, NEGATIVE);
  }

  /** Nor for `validate` to refuse what is valid. */
  lemma ValidButRefused(env: Env, name: string, other: string, v: Json, w: Json)
    requires name != other
    ensures var t, i := OneProperty(name, REOPENED), Obj([Member(name, Nested(name, other, v, w))]);
      && IsValid(env, t, i) && IterErrors(env, t, i) == []
      && (Validate(env, t, i).None? <==> w.Obj?)
  {
    hide Run;
    var t, i := OneProperty(name, REOPENED), Obj([Member(name, Nested(name, other, v, w))]);
    forall mode ensures Run(mode, env, t, i, [], {}).errors == [] <==> (mode == First ==> w.Obj?) {
      OnePropertyRun(mode, env, name, REOPENED, Nested(name, other, v, w));
      ReopenedRun(mode, env, name, other, v, w, [Property(name)], if mode == First then {name} else {});
    }
  }

  // ----- the features of the families -----

  lemma FamilyFeatures(p: string, ban: set<Feature>)
    requires Additional !in ban
    ensures ByPattern !in ban ==> Lacks(OnePattern(p, CLOSED), ban) && Lacks(OnePattern(p, REOPENED), ban)
    ensures ByName !in ban ==> Lacks(OneProperty(p, CLOSED), ban) && Lacks(OneProperty(p, REOPENED), ban)
  {
    var additional := OPEN.validators[0];
    assert LacksV(additional, ban) by {
      assert Lacks(AlwaysValid, ban);
    }
    assert Lacks(OPEN, ban);
    assert Lacks(CLOSED, ban);
    assert Lacks(REOPENED, ban);
    NamedFeatures(p, CLOSED, ban);
    NamedFeatures(p, REOPENED, ban);
  }

  lemma NamedFeatures(p: string, t: Node, ban: set<Feature>)
    requires Lacks(t, ban)
    ensures ByPattern !in ban ==> Lacks(OnePattern(p, t), ban)
    ensures ByName !in ban ==> Lacks(OneProperty(p, t), ban)
  {
  }

  lemma WitnessesKeyed(name: string)
    ensures WellKeyed(Obj([Member(name, Obj([Member(name, Null)]))]))
    ensures WellKeyed(Obj([Member(name, Nested(name, name + "x", Null, Null))]))
  {
    assert WellKeyed(Obj([Member(name, Null)]));
    assert WellKeyed(Obj([Member(name + "x", Null)]));
    assert WellKeyed(Nested(name, name + "x", Null, Null));
  }

  // ----- results -----

  /** On every tree without the banned validators, what passes one evaluator passes the other. */
  ghost predicate Follows(a: Mode, b: Mode, env: Env, ban: set<Feature>) {
    forall t, i | Lacks(t, ban) && WellKeyed(i) && Run(a, env, t, i, [], {}).errors == [] ::
      Run(b, env, t, i, [], {}).errors == []
  }

  lemma NoneWithoutAdditional(a: Mode, b: Mode, env: Env, ban: set<Feature>)
    requires Additional in ban
    ensures Follows(a, b, env, ban)
  {
    hide Run, Lacks, WellKeyed, Coherent;
    forall t, i | Lacks(t, ban) && WellKeyed(i) && Run(a, env, t, i, [], {}).errors == []
      ensures Run(b, env, t, i, [], {}).errors == []
    {
      LacksFewer(t, {Additional}, ban);
      MarksDoNotMatter(a, env, t, i, [], {});
      MarksDoNotMatter(b, env, t, i, [], {});
    }
  }

  lemma NoneAtOddTimes(a: Mode, b: Mode, env: Env, ban: set<Feature>)
    requires Untimely(a) + Untimely(b) <= ban
    ensures Follows(a, b, env, ban)
  {
    hide Run, Lacks, WellKeyed;
    forall t, i | Lacks(t, ban) && WellKeyed(i) && Run(a, env, t, i, [], {}).errors == []
      ensures Run(b, env, t, i, [], {}).errors == []
    {
      NodeVerdict(Pair(a, b, false), env, t, i, [], {}, ban);
    }
  }

  /** `is_valid` and `iter_errors` agree on every tree without some kinds of validator, in either direction, iff
      `patternProperties` or `additionalProperties` is among them. */
  lemma ValidityAndErrorsAgreeIff(env: Env, p: string, name: string, ban: set<Feature>)
    requires env.Matches(p, name)
    ensures Follows(Quick, Every, env, ban) <==> ByPattern in ban || Additional in ban
    ensures Follows(Every, Quick, env, ban) <==> ByPattern in ban || Additional in ban
  {
    hide Run, Lacks, WellKeyed;
    if Additional in ban {
      NoneWithoutAdditional(Quick, Every, env, ban);
      NoneWithoutAdditional(Every, Quick, env, ban);
    } else if ByPattern in ban {
      NoneAtOddTimes(Quick, Every, env, ban);
      NoneAtOddTimes(Every, Quick, env, ban);
    } else {
      FamilyFeatures(p, ban);
      ClosedPatternDisagrees(env, p, name, [Member(name, Null)]);
      PositivelyInvalidWithoutErrors(env, p, name, name + "x", Null, Null);
      WitnessesKeyed(name);
    }
  }

  /** `is_valid` and `validate` do iff `properties` or `additionalProperties` is. */
  lemma ValidityAndValidateAgreeIff(env: Env, ban: set<Feature>)
    ensures Follows(Quick, First, env, ban) <==> ByName in ban || Additional in ban
    ensures Follows(First, Quick, env, ban) <==> ByName in ban || Additional in ban
  {
    hide Run, Lacks, WellKeyed;
    if Additional in ban {
      NoneWithoutAdditional(Quick, First, env, ban);
      NoneWithoutAdditional(First, Quick, env, ban);
    } else if ByName in ban {
      NoneAtOddTimes(Quick, First, env, ban);
      NoneAtOddTimes(First, Quick, env, ban);
    } else {
      FamilyFeatures("a", ban);
      ClosedPropertyDisagrees(env, "a", [Member("a", Null)]);
      ValidButRefused(env, "a", "a" + "x", Null, Null);
      WitnessesKeyed("a");
    }
  }

  /** `validate` and `iter_errors` do iff both `properties` and `patternProperties` are, or `additionalProperties`. */
  lemma ValidateAndErrorsAgreeIff(env: Env, p: string, name: string, ban: set<Feature>)
    requires env.Matches(p, name)
    ensures Follows(First, Every, env, ban) <==> {ByName, ByPattern} <= ban || Additional in ban
    ensures Follows(Every, First, env, ban) <==> {ByName, ByPattern} <= ban || Additional in ban
  {
    hide Run, Lacks, WellKeyed;
    if Additional in ban {
      NoneWithoutAdditional(First, Every, env, ban);
      NoneWithoutAdditional(Every, First, env, ban);
    } else if {ByName, ByPattern} <= ban {
      NoneAtOddTimes(First, Every, env, ban);
      NoneAtOddTimes(Every, First, env, ban);
    } else {
      WitnessesKeyed("a");
      WitnessesKeyed(name);
      FamilyFeatures("a", ban);
      FamilyFeatures(p, ban);
      if ByName !in ban {
        ClosedPropertyDisagrees(env, "a", [Member("a", Null)]);
        ValidButRefused(env, "a", "a" + "x", Null, Null);
      } else {
        ClosedPatternDisagrees(env, p, name, [Member(name, Null)]);
        PositivelyInvalidWithoutErrors(env, p, name, name + "x", Null, Null);
      }
    }
  }

  function FirstOf(errors: seq<Error>): Option<Error> {
    if errors == [] then None else Some(errors[0])
  }

  /** On every tree without the banned validators, the answer of `validate` is the first error of `iter_errors`. */
  ghost predicate SameFirstError(env: Env, ban: set<Feature>) {
    forall t, i | Lacks(t, ban) && WellKeyed(i) :: Validate(env, t, i) == FirstOf(IterErrors(env, t, i))
  }

  lemma FirstErrorWithoutAdditional(env: Env, ban: set<Feature>)
    requires {Choice, Additional} <= ban
    ensures SameFirstError(env, ban)
  {
    hide Lacks, WellKeyed, Coherent, Validate, IterErrors;
    forall t, i | Lacks(t, ban) && WellKeyed(i) ensures Validate(env, t, i) == FirstOf(IterErrors(env, t, i)) {
      LacksFewer(t, {Additional}, ban);
      LacksFewer(t, {Choice}, ban);
      NoAdditionalIsCoherent(env, t, iset{});
      ValidateYieldsFirstError(env, t, i);
    }
  }

  lemma FirstErrorInTime(env: Env, ban: set<Feature>)
    requires {Choice, ByName, ByPattern} <= ban
    ensures SameFirstError(env, ban)
  {
    hide Run, Lacks, WellKeyed;
    forall t, i | Lacks(t, ban) && WellKeyed(i) ensures Validate(env, t, i) == FirstOf(IterErrors(env, t, i)) {
      NodeVerdict(Pair(First, Every, true), env, t, i, [], {}, ban);
    }
  }

  /** `{"anyOf": [false]}` */
  const NO_ALTERNATIVE: Node := Validators([AnyOfV([AlwaysInvalid])])

  lemma NoAlternativeLacks(ban: set<Feature>)
    requires Choice !in ban
    ensures Lacks(NO_ALTERNATIVE, ban) && WellKeyed(Null)
  {
    assert Lacks(AlwaysInvalid, ban);
    assert LacksV(NO_ALTERNATIVE.validators[0], ban);
  }

  lemma NoAlternativeErrors(env: Env)
    ensures Validate(env, NO_ALTERNATIVE, Null) != FirstOf(IterErrors(env, NO_ALTERNATIVE, Null))
  {
    NoAlternativeLacks({Additional});
    assert Lacks(AlwaysInvalid, {Choice});
    assert !Accepts(env, NO_ALTERNATIVE, Null) by {
      assert !Accepts(env, AlwaysInvalid, Null);
      assert !Satisfies(env, NO_ALTERNATIVE.validators[0], Null);
    }
    NoAdditionalIsCoherent(env, NO_ALTERNATIVE, iset{});
    AnyOfErrorsAgreeIffEmpty(env, [AlwaysInvalid], Null);
  }

  lemma SameErrorsSameVerdict(env: Env, ban: set<Feature>)
    requires SameFirstError(env, ban)
    ensures Follows(First, Every, env, ban)
  {
    hide Run, Lacks, WellKeyed;
    forall t, i | Lacks(t, ban) && WellKeyed(i) && Run(First, env, t, i, [], {}).errors == []
      ensures Run(Every, env, t, i, [], {}).errors == []
    {
      assert Validate(env, t, i) == FirstOf(IterErrors(env, t, i));
    }
  }

  /** `validate` answers with the first error of `iter_errors` on every tree without some kinds of validator iff `anyOf`
      is among them, and with it `additionalProperties` or both `properties` and `patternProperties`. */
  lemma FirstErrorIff(env: Env, p: string, name: string, ban: set<Feature>)
    requires env.Matches(p, name)
    ensures SameFirstError(env, ban) <==> Choice in ban && (Additional in ban || {ByName, ByPattern} <= ban)
  {
    hide Run, Lacks, WellKeyed, Follows, Validate, IterErrors;
    if Choice !in ban {
      NoAlternativeLacks(ban);
      NoAlternativeErrors(env);
    } else if Additional in ban {
      FirstErrorWithoutAdditional(env, ban);
    } else if {ByName, ByPattern} <= ban {
      FirstErrorInTime(env, ban);
    } else {
      ValidateAndErrorsAgreeIff(env, p, name, ban);
      if SameFirstError(env, ban) {
        SameErrorsSameVerdict(env, ban);
      }
    }
  }
}
