/** The evaluators as they run: loops over the boxed validators of a node and over the turns of each keyword validator,
    all sharing one mutable context. Every method is proved equal to the evaluator function. A keyword's three methods
    differ only in when they mark and when they return, and are written as one over the mode. */
module SchemaNodes {
  import opened JsonValues
  import opened SchemaTree
  import opened TreeFeatures
  import opened Paths
  import opened Evaluators

  /** `ValidationContext`, as far as `additionalProperties` looks at it. */
  class ValidationContext {
    var evaluated: set<string>

    constructor ()
      ensures evaluated == {}
    {
      evaluated := {};
    }

    /** `mark_property_evaluated` */
    method Mark(name: string)
      modifies this
      ensures evaluated == old(evaluated) + {name}
    {
      evaluated := evaluated + {name};
    }

    /** `merge_evaluation_state` */
    method Merge(state: set<string>)
      modifies this
      ensures evaluated == old(evaluated) + state
    {
      evaluated := evaluated + state;
    }

    /** `restore_evaluation_state` */
    method Restore(state: set<string>)
      modifies this
      ensures evaluated == state
    {
      evaluated := state;
    }
  }

  // ----- what a method returns and leaves, against the evaluator function -----

  /** `is_valid` returns whether there is an error, the other two return the errors. */
  predicate Reports(mode: Mode, errors: seq<Error>, expected: seq<Error>) {
    if mode == Quick then errors == [] <==> expected == [] else errors == expected
  }

  predicate Yields(mode: Mode, errors: seq<Error>, marks: set<string>, expected: Outcome) {
    Reports(mode, errors, expected.errors) && marks == expected.marks
  }

  /** With these errors so far, a loop that goes on as `rest` ends as `whole`. */
  predicate OnTrack(mode: Mode, whole: Outcome, errors: seq<Error>, rest: Outcome) {
    Reports(mode, errors + rest.errors, whole.errors) && whole.marks == rest.marks
  }

  lemma NothingYet(mode: Mode, whole: Outcome)
    ensures OnTrack(mode, whole, [], whole)
  {
    assert [] + whole.errors == whole.errors;
  }

  lemma AtTheEnd(mode: Mode, whole: Outcome, errors: seq<Error>, marks: set<string>)
    requires OnTrack(mode, whole, errors, Outcome([], marks))
    ensures Yields(mode, errors, marks, whole)
  {
    assert errors + [] == errors;
  }

  /** A turn that does not end the loop. */
  lemma NextTurn(mode: Mode, env: Env, v: Validator, tasks: seq<Task>, k: nat, whole: Outcome, errors: seq<Error>,
        before: set<string>, more: seq<Error>, after: set<string>)
    requires k < |tasks| && AllRun(v, tasks) && Runs(v, tasks[k])
    requires OnTrack(mode, whole, errors, RunTasks(mode, env, v, tasks, k, before))
    requires Yields(mode, more, after, RunTask(mode, env, v, tasks[k], before)) && (more == [] || !Stops(mode, v))
    ensures OnTrack(mode, whole, errors + more, RunTasks(mode, env, v, tasks, k + 1, after))
  {
    hide RunTask, AllRun, Runs;
    var r, rest := RunTask(mode, env, v, tasks[k], before), RunTasks(mode, env, v, tasks, k + 1, after);
    assert RunTasks(mode, env, v, tasks, k, before) == Outcome(r.errors + rest.errors, rest.marks);
    assert errors + (r.errors + rest.errors) == errors + r.errors + rest.errors;
  }

  /** A turn that does. */
  lemma LastTurn(mode: Mode, env: Env, v: Validator, tasks: seq<Task>, k: nat, whole: Outcome, errors: seq<Error>,
        before: set<string>, more: seq<Error>, after: set<string>)
    requires k < |tasks| && AllRun(v, tasks) && Runs(v, tasks[k])
    requires OnTrack(mode, whole, errors, RunTasks(mode, env, v, tasks, k, before))
    requires Yields(mode, more, after, RunTask(mode, env, v, tasks[k], before)) && more != [] && Stops(mode, v)
    ensures Yields(mode, errors + more, after, whole)
  {
    hide RunTask, AllRun, Runs;
  }

  lemma NoMoreMarks()
    ensures forall marks: set<string> :: marks + {} == marks
  {
  }

  // ----- nodes -----

  /** `SchemaNode::is_valid`: stops at the first validator that fails. */
  method NodeIsValid(env: Env, t: Node, i: Json, path: seq<Segment>, ctx: ValidationContext) returns (valid: bool)
    modifies ctx
    ensures var r := Run(Quick, env, t, i, path, old(ctx.evaluated));
      (valid <==> r.errors == []) && ctx.evaluated == r.marks
    decreases t, 2
  {
    hide Apply;
    match t
    case AlwaysValid => valid := true;
    case AlwaysInvalid => valid := false;
    case Validators(validators) =>
      ghost var whole := RunFrom(Quick, env, validators, 0, i, path, ctx.evaluated);
      for k := 0 to |validators|
        invariant whole == RunFrom(Quick, env, validators, k, i, path, ctx.evaluated)
      {
        ghost var before := ctx.evaluated;
        var errors := ValidatorRun(Quick, env, validators[k], i, path, ctx);
        if errors != [] {
          return false;
        }
        PassingStep(Quick, env, validators, k, i, path, before, ctx.evaluated);
      }
      valid := true;
  }

  lemma PassingStep(mode: Mode, env: Env, vs: seq<Validator>, k: nat, i: Json, path: seq<Segment>,
        before: set<string>, after: set<string>)
    requires k < |vs| && Apply(mode, env, vs[k], i, path, before) == Outcome([], after)
    ensures RunFrom(mode, env, vs, k, i, path, before) == RunFrom(mode, env, vs, k + 1, i, path, after)
  {
    hide Apply;
    var rest := RunFrom(mode, env, vs, k + 1, i, path, after);
    assert [] + rest.errors == rest.errors;
  }

  /** `SchemaNode::validate`: returns the first validator's error. */
  method NodeValidate(env: Env, t: Node, i: Json, path: seq<Segment>,
        ctx: ValidationContext) returns (errors: seq<Error>)
    modifies ctx
    ensures Outcome(errors, ctx.evaluated) == Run(First, env, t, i, path, old(ctx.evaluated))
    decreases t, 2
  {
    hide Apply;
    match t
    case AlwaysValid => errors := [];
    case AlwaysInvalid => errors := [Error(FalseSchema, None)];
    case Validators(validators) =>
      ghost var whole := RunFrom(First, env, validators, 0, i, path, ctx.evaluated);
      for k := 0 to |validators|
        invariant whole == RunFrom(First, env, validators, k, i, path, ctx.evaluated)
      {
        ghost var before := ctx.evaluated;
        errors := ValidatorRun(First, env, validators[k], i, path, ctx);
        if errors != [] {
          return;
        }
        PassingStep(First, env, validators, k, i, path, before, ctx.evaluated);
      }
      errors := [];
  }

  /** `SchemaNode::iter_errors`: collects the errors of every validator. */
  method NodeIterErrors(env: Env, t: Node, i: Json, path: seq<Segment>,
        ctx: ValidationContext) returns (errors: seq<Error>)
    modifies ctx
    ensures Outcome(errors, ctx.evaluated) == Run(Every, env, t, i, path, old(ctx.evaluated))
    decreases t, 2
  {
    hide Apply, RunFrom;
    errors := [];
    match t
    case AlwaysValid =>
    case AlwaysInvalid => errors := [Error(FalseSchema, None)];
    case Validators(validators) =>
      ghost var whole := RunFrom(Every, env, validators, 0, i, path, ctx.evaluated);
      assert errors + whole.errors == whole.errors;
      for k := 0 to |validators|
        invariant whole.errors == errors + RunFrom(Every, env, validators, k, i, path, ctx.evaluated).errors
        invariant whole.marks == RunFrom(Every, env, validators, k, i, path, ctx.evaluated).marks
      {
        CollectingStep(env, validators, k, i, path, ctx.evaluated, errors);
        var more := ValidatorRun(Every, env, validators[k], i, path, ctx);
        errors := errors + more;
      }
      NothingCollected(env, validators, i, path, ctx.evaluated);
      assert errors + [] == errors;
  }

  lemma CollectingStep(env: Env, vs: seq<Validator>, k: nat, i: Json, path: seq<Segment>, before: set<string>,
        errors: seq<Error>)
    requires k < |vs|
    ensures var r := Apply(Every, env, vs[k], i, path, before);
      var now, rest := RunFrom(Every, env, vs, k, i, path, before), RunFrom(Every, env, vs, k + 1, i, path, r.marks);
      errors + now.errors == errors + r.errors + rest.errors && now.marks == rest.marks
  {
    hide Apply;
  }

  lemma NothingCollected(env: Env, vs: seq<Validator>, i: Json, path: seq<Segment>, marks: set<string>)
    ensures RunFrom(Every, env, vs, |vs|, i, path, marks) == Outcome([], marks)
  {
  }

  /** The method of a subschema that goes with the mode. */
  method NodeRun(mode: Mode, env: Env, t: Node, i: Json, path: seq<Segment>,
        ctx: ValidationContext) returns (errors: seq<Error>)
    modifies ctx
    ensures Yields(mode, errors, ctx.evaluated, Run(mode, env, t, i, path, old(ctx.evaluated)))
    decreases t, 3
  {
    hide Run;
    match mode
    case Quick =>
      var valid := NodeIsValid(env, t, i, path, ctx);
      errors := if valid then [] else [Error(FalseSchema, None)];
    case First => errors := NodeValidate(env, t, i, path, ctx);
    case Every => errors := NodeIterErrors(env, t, i, path, ctx);
  }

  // ----- keyword validators -----

  /** The boxed validator's own method. */
  method ValidatorRun(mode: Mode, env: Env, v: Validator, i: Json, path: seq<Segment>,
        ctx: ValidationContext) returns (errors: seq<Error>)
    modifies ctx
    ensures Yields(mode, errors, ctx.evaluated, Apply(mode, env, v, i, path, old(ctx.evaluated)))
    decreases v, 2
  {
    hide Apply;
    match v
    case Assertion(test) => errors := TestRun(mode, env, test, i, path, ctx);
    case AllOfV(_) => errors := AllOfRun(mode, env, v, i, path, ctx);
    case AnyOfV(_) => errors := AnyOfRun(mode, env, v, i, path, ctx);
    case OneOfV(_) => errors := OneOfRun(mode, env, v, i, path, ctx);
    case NotV(_) => errors := NotRun(mode, env, v, i, path, ctx);
    case IfThenElse(_, _, _) => errors := ConditionalRun(mode, env, v, i, path, ctx);
    case ItemsV(_, _) => errors := ItemsRun(mode, env, v, i, path, ctx);
    case PrefixItemsV(_) => errors := PrefixItemsRun(mode, env, v, i, path, ctx);
    case TupleItems(_, _) => errors := TupleRun(mode, env, v, i, path, ctx);
    case ContainsV(_, _, _) => errors := ContainsRun(mode, env, v, i, path, ctx);
    case PropertiesV(_) => errors := PropertiesRun(mode, env, v, i, path, ctx);
    case PatternPropertiesV(_) => errors := PatternPropertiesRun(mode, env, v, i, path, ctx);
    case AdditionalPropertiesV(_, _, _) => errors := AdditionalRun(mode, env, v, i, path, ctx);
    case PropertyNamesV(_) => errors := NamesRun(mode, env, v, i, path, ctx);
    case DependentSchemasV(_) => errors := DependentSchemasRun(mode, env, v, i, path, ctx);
    case DependenciesV(_) => errors := DependenciesRun(mode, env, v, i, path, ctx);
    case RefV(_) => errors := RefRun(mode, env, v, i, path, ctx);
  }

  lemma FollowsPlan(mode: Mode, env: Env, v: Validator, i: Json, path: seq<Segment>, marks: set<string>)
    requires !IsSpecial(v)
    ensures AllRun(v, Plan(mode, env, v, i, path))
    ensures Apply(mode, env, v, i, path, marks) == RunTasks(mode, env, v, Plan(mode, env, v, i, path), 0, marks)
  {
    PlanRuns(mode, env, v, i, path);
    hide Plan, RunTasks;
  }

  /** The names of the list that the object lacks, in order. */
  method LackedNames(names: seq<string>, members: seq<Member>) returns (lacked: seq<string>)
    ensures lacked == Missing(names, members)
  {
    hide Has;
    lacked := [];
    for k := 0 to |names|
      invariant Missing(names, members) == lacked + Missing(names[k..], members)
    {
      assert names[k..][0] == names[k] && names[k..][1..] == names[k + 1..];
      if !Has(members, names[k]) {
        lacked := lacked + [names[k]];
      }
    }
    assert lacked + [] == lacked;
  }

  /** The keywords without subschemas: `required` returns its first missing name, or yields all of them. */
  method TestRun(mode: Mode, env: Env, test: Test, i: Json, path: seq<Segment>,
        ctx: ValidationContext) returns (errors: seq<Error>)
    ensures Yields(mode, errors, ctx.evaluated, Apply(mode, env, Assertion(test), i, path, ctx.evaluated))
  {
    hide TestPasses, Missing, Has;
    errors := [];
    if test.RequiresNames? && i.Obj? {
      var lacked := LackedNames(test.names, i.members);
      if mode != Every {
        return if lacked == [] then [] else [Error(MissingProperty(lacked[0]), Some(path))];
      }
      for k := 0 to |lacked|
        invariant |errors| == k && forall x :: 0 <= x < k ==> errors[x] == Error(MissingProperty(lacked[x]), Some(path))
      {
        errors := errors + [Error(MissingProperty(lacked[k]), Some(path))];
      }
      assert errors == Errors(MissingKinds(lacked), path);
    } else if !test.RequiresNames? && !TestPasses(env, test, i) {
      errors := [Error(TestFailed(test), Some(path))];
    }
  }

  method AllOfRun(mode: Mode, env: Env, v: Validator, i: Json, path: seq<Segment>,
        ctx: ValidationContext) returns (errors: seq<Error>)
    requires v.AllOfV?
    modifies ctx
    ensures Yields(mode, errors, ctx.evaluated, Apply(mode, env, v, i, path, old(ctx.evaluated)))
    decreases v, 1
  {
    hide Run, RunTasks, Apply;
    ghost var plan, whole := Plan(mode, env, v, i, path), Apply(mode, env, v, i, path, ctx.evaluated);
    FollowsPlan(mode, env, v, i, path, ctx.evaluated);
    NothingYet(mode, whole);
    NoMoreMarks();
    errors := [];
    for k := 0 to |v.schemas|
      invariant OnTrack(mode, whole, errors, RunTasks(mode, env, v, plan, k, ctx.evaluated))
    {
      var state := ctx.evaluated;
      var more := NodeRun(mode, env, v.schemas[k], i, path, ctx);
      if more != [] && mode != Every {
        LastTurn(mode, env, v, plan, k, whole, errors, state, more, ctx.evaluated);
        return errors + more;
      }
      ctx.Merge(state);
      NextTurn(mode, env, v, plan, k, whole, errors, state, more, ctx.evaluated);
      errors := errors + more;
    }
    PlanDone(mode, env, v, plan, whole, errors, ctx.evaluated);
  }

  lemma PlanDone(mode: Mode, env: Env, v: Validator, plan: seq<Task>, whole: Outcome, errors: seq<Error>,
        marks: set<string>)
    requires AllRun(v, plan) && OnTrack(mode, whole, errors, RunTasks(mode, env, v, plan, |plan|, marks))
    ensures Yields(mode, errors, marks, whole)
  {
    assert RunTasks(mode, env, v, plan, |plan|, marks) == Outcome([], marks);
    AtTheEnd(mode, whole, errors, marks);
  }

  method ItemsRun(mode: Mode, env: Env, v: Validator, i: Json, path: seq<Segment>,
        ctx: ValidationContext) returns (errors: seq<Error>)
    requires v.ItemsV?
    modifies ctx
    ensures Yields(mode, errors, ctx.evaluated, Apply(mode, env, v, i, path, old(ctx.evaluated)))
    decreases v, 1
  {
    hide Run, RunTasks, Apply;
    ghost var plan, whole := Plan(mode, env, v, i, path), Apply(mode, env, v, i, path, ctx.evaluated);
    FollowsPlan(mode, env, v, i, path, ctx.evaluated);
    NothingYet(mode, whole);
    NoMoreMarks();
    errors := [];
    if i.Arr? {
      for k := 0 to |i.items|
        invariant OnTrack(mode, whole, errors, RunTasks(mode, env, v, plan, k, ctx.evaluated))
      {
        ghost var before := ctx.evaluated;
        var more := [];
        if k >= v.skip {
          more := NodeRun(mode, env, v.schema, i.items[k], path + [Index(k)], ctx);
        }
        if more != [] && mode != Every {
          LastTurn(mode, env, v, plan, k, whole, errors, before, more, ctx.evaluated);
          return errors + more;
        }
        NextTurn(mode, env, v, plan, k, whole, errors, before, more, ctx.evaluated);
        errors := errors + more;
      }
    }
    PlanDone(mode, env, v, plan, whole, errors, ctx.evaluated);
  }

  method PrefixItemsRun(mode: Mode, env: Env, v: Validator, i: Json, path: seq<Segment>,
        ctx: ValidationContext) returns (errors: seq<Error>)
    requires v.PrefixItemsV?
    modifies ctx
    ensures Yields(mode, errors, ctx.evaluated, Apply(mode, env, v, i, path, old(ctx.evaluated)))
    decreases v, 1
  {
    hide Run, RunTasks, Apply;
    ghost var plan, whole := Plan(mode, env, v, i, path), Apply(mode, env, v, i, path, ctx.evaluated);
    FollowsPlan(mode, env, v, i, path, ctx.evaluated);
    NothingYet(mode, whole);
    NoMoreMarks();
    errors := [];
    if i.Arr? {
      for k := 0 to |i.items|
        invariant OnTrack(mode, whole, errors, RunTasks(mode, env, v, plan, k, ctx.evaluated))
      {
        ghost var before := ctx.evaluated;
        var more := [];
        if k < |v.schemas| {
          more := NodeRun(mode, env, v.schemas[k], i.items[k], path + [Index(k)], ctx);
        }
        if more != [] && mode != Every {
          LastTurn(mode, env, v, plan, k, whole, errors, before, more, ctx.evaluated);
          return errors + more;
        }
        NextTurn(mode, env, v, plan, k, whole, errors, before, more, ctx.evaluated);
        errors := errors + more;
      }
    }
    PlanDone(mode, env, v, plan, whole, errors, ctx.evaluated);
  }

  /** Surplus items are let through, refused without a location, or checked. */
  method TupleRun(mode: Mode, env: Env, v: Validator, i: Json, path: seq<Segment>,
        ctx: ValidationContext) returns (errors: seq<Error>)
    requires v.TupleItems?
    modifies ctx
    ensures Yields(mode, errors, ctx.evaluated, Apply(mode, env, v, i, path, old(ctx.evaluated)))
    decreases v, 1
  {
    hide Run, RunTasks, Apply;
    ghost var plan, whole := Plan(mode, env, v, i, path), Apply(mode, env, v, i, path, ctx.evaluated);
    FollowsPlan(mode, env, v, i, path, ctx.evaluated);
    NothingYet(mode, whole);
    NoMoreMarks();
    errors := [];
    if i.Arr? {
      for k := 0 to |i.items|
        invariant OnTrack(mode, whole, errors, RunTasks(mode, env, v, plan, k, ctx.evaluated))
      {
        ghost var before := ctx.evaluated;
        var more := [];
        if k < |v.schemas| {
          more := NodeRun(mode, env, v.schemas[k], i.items[k], path + [Index(k)], ctx);
        } else if v.extra.RejectAll? {
          more := [Error(TooManyItems(|v.schemas|), None)];
        } else if v.extra.ValidateExtra? {
          more := NodeRun(mode, env, v.extra.node, i.items[k], path + [Index(k)], ctx);
        }
        if more != [] && mode != Every {
          LastTurn(mode, env, v, plan, k, whole, errors, before, more, ctx.evaluated);
          return errors + more;
        }
        NextTurn(mode, env, v, plan, k, whole, errors, before, more, ctx.evaluated);
        errors := errors + more;
      }
    }
    PlanDone(mode, env, v, plan, whole, errors, ctx.evaluated);
  }

  /** `validate` marks a name before it runs its schema, the other two after; `is_valid` goes on after a failure. */
  method PropertiesRun(mode: Mode, env: Env, v: Validator, i: Json, path: seq<Segment>,
        ctx: ValidationContext) returns (errors: seq<Error>)
    requires v.PropertiesV?
    modifies ctx
    ensures Yields(mode, errors, ctx.evaluated, Apply(mode, env, v, i, path, old(ctx.evaluated)))
    decreases v, 1
  {
    hide Run, RunTasks, Apply;
    ghost var plan, whole := Plan(mode, env, v, i, path), Apply(mode, env, v, i, path, ctx.evaluated);
    FollowsPlan(mode, env, v, i, path, ctx.evaluated);
    NothingYet(mode, whole);
    NoMoreMarks();
    errors := [];
    if i.Obj? {
      for k := 0 to |i.members|
        invariant OnTrack(mode, whole, errors, RunTasks(mode, env, v, plan, k, ctx.evaluated))
      {
        ghost var before := ctx.evaluated;
        var name, more := i.members[k].key, [];
        var found := Find(v.props, name);
        if found.Some? {
          if mode == First {
            ctx.Mark(name);
          }
          more := NodeRun(mode, env, v.props[found.value].node, i.members[k].value, path + [Property(name)], ctx);
          if more != [] && mode == First {
            LastTurn(mode, env, v, plan, k, whole, errors, before, more, ctx.evaluated);
            return errors + more;
          }
          if mode != First {
            ctx.Mark(name);
          }
        }
        NextTurn(mode, env, v, plan, k, whole, errors, before, more, ctx.evaluated);
        errors := errors + more;
      }
    }
    PlanDone(mode, env, v, plan, whole, errors, ctx.evaluated);
  }

  method PatternPropertiesRun(mode: Mode, env: Env, v: Validator, i: Json, path: seq<Segment>,
        ctx: ValidationContext) returns (errors: seq<Error>)
    requires v.PatternPropertiesV?
    modifies ctx
    ensures Yields(mode, errors, ctx.evaluated, Apply(mode, env, v, i, path, old(ctx.evaluated)))
    decreases v, 1
  {
    hide Run, RunTasks, Apply, RunTask, OnTrack, Yields, PatternRow;
    ghost var plan, whole := Plan(mode, env, v, i, path), Apply(mode, env, v, i, path, ctx.evaluated);
    FollowsPlan(mode, env, v, i, path, ctx.evaluated);
    NothingYet(mode, whole);
    errors := [];
    if i.Obj? {
      ghost var turn := 0;
      assert plan[0..] == plan && i.members[0..] == i.members;
      for x := 0 to |i.members|
        invariant 0 <= turn <= |plan| && plan[turn..] == PatternPlan(mode, env, v.props, i.members[x..], path)
        invariant OnTrack(mode, whole, errors, RunTasks(mode, env, v, plan, turn, ctx.evaluated))
      {
        ghost var row := PatternRow(mode, env, v.props, i.members[x], path);
        assert i.members[x..][0] == i.members[x] && i.members[x..][1..] == i.members[x + 1..];
        assert plan[turn..][|row|..] == PatternPlan(mode, env, v.props, i.members[x + 1..], path);
        assert plan[turn..][..|row|] == row && plan[turn + |row|..] == plan[turn..][|row|..];
        var stopped;
        errors, stopped := MemberRun(mode, env, v, i.members[x], path, ctx, plan, turn, whole, errors);
        if stopped {
          return;
        }
        turn := turn + |row|;
      }
      assert i.members[|i.members|..] == [] && |plan[turn..]| == 0;
    }
    PlanDone(mode, env, v, plan, whole, errors, ctx.evaluated);
  }

  /** One member under every pattern: `iter_errors` marks after it has run the schema, the other two before. */
  method MemberRun(mode: Mode, env: Env, v: Validator, m: Member, path: seq<Segment>, ctx: ValidationContext,
        ghost plan: seq<Task>, ghost turn: nat, ghost whole: Outcome, earlier: seq<Error>)
      returns (errors: seq<Error>, stopped: bool)
    requires v.PatternPropertiesV? && AllRun(v, plan)
    requires var row := PatternRow(mode, env, v.props, m, path);
      turn + |row| <= |plan| && plan[turn..][..|row|] == row
    requires OnTrack(mode, whole, earlier, RunTasks(mode, env, v, plan, turn, ctx.evaluated))
    modifies ctx
    ensures stopped ==> Yields(mode, errors, ctx.evaluated, whole)
    ensures !stopped ==>
      var row := PatternRow(mode, env, v.props, m, path);
      OnTrack(mode, whole, errors, RunTasks(mode, env, v, plan, turn + |row|, ctx.evaluated))
    decreases v, 0
  {
    hide Run, RunTasks, Apply, OnTrack;
    NoMoreMarks();
    errors := earlier;
    ghost var row := PatternRow(mode, env, v.props, m, path);
    for p := 0 to |v.props|
      invariant OnTrack(mode, whole, errors, RunTasks(mode, env, v, plan, turn + p, ctx.evaluated))
    {
      ghost var before := ctx.evaluated;
      var more := [];
      assert plan[turn + p] == plan[turn..][..|row|][p] == row[p];
      if env.Matches(v.props[p].name, m.key) {
        if mode != Every {
          ctx.Mark(m.key);
        }
        more := NodeRun(mode, env, v.props[p].node, m.value, path + [Property(m.key)], ctx);
        if more != [] && mode != Every {
          LastTurn(mode, env, v, plan, turn + p, whole, errors, before, more, ctx.evaluated);
          return errors + more, true;
        }
        if mode == Every {
          ctx.Mark(m.key);
        }
      }
      NextTurn(mode, env, v, plan, turn + p, whole, errors, before, more, ctx.evaluated);
      errors := errors + more;
    }
    stopped := false;
  }

  /** A name that is already marked is skipped. */
  method AdditionalRun(mode: Mode, env: Env, v: Validator, i: Json, path: seq<Segment>,
        ctx: ValidationContext) returns (errors: seq<Error>)
    requires v.AdditionalPropertiesV?
    modifies ctx
    ensures Yields(mode, errors, ctx.evaluated, Apply(mode, env, v, i, path, old(ctx.evaluated)))
    decreases v, 1
  {
    hide Run, RunTasks, Apply, IsAdditional;
    ghost var plan, whole := Plan(mode, env, v, i, path), Apply(mode, env, v, i, path, ctx.evaluated);
    FollowsPlan(mode, env, v, i, path, ctx.evaluated);
    NothingYet(mode, whole);
    NoMoreMarks();
    errors := [];
    if i.Obj? && v.others.Some? {
      for k := 0 to |i.members|
        invariant OnTrack(mode, whole, errors, RunTasks(mode, env, v, plan, k, ctx.evaluated))
      {
        ghost var before := ctx.evaluated;
        var name, more := i.members[k].key, [];
        if name !in ctx.evaluated && IsAdditional(env, v, name) {
          match v.others.value
          case RejectExtra =>
            ctx.Mark(name);
            more := [Error(UnexpectedProperty(name), Some(path + [Property(name)]))];
          case ExtraSchema(t) =>
            more := NodeRun(mode, env, t, i.members[k].value, path + [Property(name)], ctx);
            if more == [] || mode == Every {
              ctx.Mark(name);
            }
        }
        if more != [] && mode != Every {
          LastTurn(mode, env, v, plan, k, whole, errors, before, more, ctx.evaluated);
          return errors + more;
        }
        NextTurn(mode, env, v, plan, k, whole, errors, before, more, ctx.evaluated);
        errors := errors + more;
      }
    }
    PlanDone(mode, env, v, plan, whole, errors, ctx.evaluated);
  }

  method NamesRun(mode: Mode, env: Env, v: Validator, i: Json, path: seq<Segment>,
        ctx: ValidationContext) returns (errors: seq<Error>)
    requires v.PropertyNamesV?
    modifies ctx
    ensures Yields(mode, errors, ctx.evaluated, Apply(mode, env, v, i, path, old(ctx.evaluated)))
    decreases v, 1
  {
    hide Run, RunTasks, Apply;
    ghost var plan, whole := Plan(mode, env, v, i, path), Apply(mode, env, v, i, path, ctx.evaluated);
    FollowsPlan(mode, env, v, i, path, ctx.evaluated);
    NothingYet(mode, whole);
    NoMoreMarks();
    errors := [];
    if i.Obj? {
      for k := 0 to |i.members|
        invariant OnTrack(mode, whole, errors, RunTasks(mode, env, v, plan, k, ctx.evaluated))
      {
        ghost var before := ctx.evaluated;
        var name := i.members[k].key;
        var more := NodeRun(mode, env, v.schema, Str(name), path + [Property(name)], ctx);
        if more != [] && mode != Every {
          LastTurn(mode, env, v, plan, k, whole, errors, before, more, ctx.evaluated);
          return errors + more;
        }
        NextTurn(mode, env, v, plan, k, whole, errors, before, more, ctx.evaluated);
        errors := errors + more;
      }
    }
    PlanDone(mode, env, v, plan, whole, errors, ctx.evaluated);
  }

  /** The marks of a schema that fails are taken back. */
  method DependentSchemasRun(mode: Mode, env: Env, v: Validator, i: Json, path: seq<Segment>,
        ctx: ValidationContext) returns (errors: seq<Error>)
    requires v.DependentSchemasV?
    modifies ctx
    ensures Yields(mode, errors, ctx.evaluated, Apply(mode, env, v, i, path, old(ctx.evaluated)))
    decreases v, 1
  {
    hide Run, RunTasks, Apply, Has;
    ghost var plan, whole := Plan(mode, env, v, i, path), Apply(mode, env, v, i, path, ctx.evaluated);
    FollowsPlan(mode, env, v, i, path, ctx.evaluated);
    NothingYet(mode, whole);
    NoMoreMarks();
    errors := [];
    if i.Obj? {
      for k := 0 to |v.props|
        invariant OnTrack(mode, whole, errors, RunTasks(mode, env, v, plan, k, ctx.evaluated))
      {
        var state, more := ctx.evaluated, [];
        if Has(i.members, v.props[k].name) {
          more := NodeRun(mode, env, v.props[k].node, i, path, ctx);
          if more != [] {
            ctx.Restore(state);
          }
        }
        if more != [] && mode != Every {
          LastTurn(mode, env, v, plan, k, whole, errors, state, more, ctx.evaluated);
          return errors + more;
        }
        NextTurn(mode, env, v, plan, k, whole, errors, state, more, ctx.evaluated);
        errors := errors + more;
      }
    }
    PlanDone(mode, env, v, plan, whole, errors, ctx.evaluated);
  }

  /** The old `dependencies`: names that must be there too, or a schema. */
  method DependenciesRun(mode: Mode, env: Env, v: Validator, i: Json, path: seq<Segment>,
        ctx: ValidationContext) returns (errors: seq<Error>)
    requires v.DependenciesV?
    modifies ctx
    ensures Yields(mode, errors, ctx.evaluated, Apply(mode, env, v, i, path, old(ctx.evaluated)))
    decreases v, 1
  {
    hide Run, RunTasks, Apply, Has, Missing;
    ghost var plan, whole := Plan(mode, env, v, i, path), Apply(mode, env, v, i, path, ctx.evaluated);
    FollowsPlan(mode, env, v, i, path, ctx.evaluated);
    NothingYet(mode, whole);
    NoMoreMarks();
    errors := [];
    if i.Obj? {
      for k := 0 to |v.deps|
        invariant OnTrack(mode, whole, errors, RunTasks(mode, env, v, plan, k, ctx.evaluated))
      {
        ghost var before := ctx.evaluated;
        var more := [];
        if Has(i.members, v.deps[k].name) {
          match v.deps[k]
          case NeedsNames(name, names) =>
            var lacked := LackedNames(names, i.members);
            if lacked != [] {
              more := [Error(MissingDependents(name, lacked), Some(path))];
            }
          case NeedsSchema(_, t) => more := NodeRun(mode, env, t, i, path, ctx);
        }
        if more != [] && mode != Every {
          LastTurn(mode, env, v, plan, k, whole, errors, before, more, ctx.evaluated);
          return errors + more;
        }
        NextTurn(mode, env, v, plan, k, whole, errors, before, more, ctx.evaluated);
        errors := errors + more;
      }
    }
    PlanDone(mode, env, v, plan, whole, errors, ctx.evaluated);
  }

  method RefRun(mode: Mode, env: Env, v: Validator, i: Json, path: seq<Segment>,
        ctx: ValidationContext) returns (errors: seq<Error>)
    requires v.RefV?
    modifies ctx
    ensures Yields(mode, errors, ctx.evaluated, Apply(mode, env, v, i, path, old(ctx.evaluated)))
    decreases v, 1
  {
    hide Run, Apply;
    RefRuns(mode, env, v, i, path, ctx.evaluated);
    errors := NodeRun(mode, env, v.schema, i, path, ctx);
  }

  lemma RefRuns(mode: Mode, env: Env, v: Validator, i: Json, path: seq<Segment>, marks: set<string>)
    requires v.RefV?
    ensures Apply(mode, env, v, i, path, marks) == Run(mode, env, v.schema, i, path, marks)
  {
    hide Run;
    FollowsPlan(mode, env, v, i, path, marks);
    NoMoreMarks();
    var r := Run(mode, env, v.schema, i, path, marks);
    var plan := Plan(mode, env, v, i, path);
    assert RunTask(mode, env, v, plan[0], marks) == r;
    assert RunTasks(mode, env, v, plan, 1, r.marks) == Outcome([], r.marks);
    assert r.errors + [] == r.errors;
  }

  /** Every alternative is tried, each from the marks of those that matched before it; `validate` answers with the
      first alternative's error. */
  method AnyOfRun(mode: Mode, env: Env, v: Validator, i: Json, path: seq<Segment>,
        ctx: ValidationContext) returns (errors: seq<Error>)
    requires v.AnyOfV?
    modifies ctx
    ensures Yields(mode, errors, ctx.evaluated, Apply(mode, env, v, i, path, old(ctx.evaluated)))
    decreases v, 1
  {
    hide Run, TryAll;
    var base := ctx.evaluated;
    var inner := if mode == First then First else Quick;
    var matched, failures: seq<Error> := false, [];
    for k := 0 to |v.schemas|
      invariant AttemptsOnTrack(mode, TryAll(mode, env, v.schemas, 0, i, path, base), matched, failures,
        TryAll(mode, env, v.schemas, k, i, path, ctx.evaluated))
    {
      var state := ctx.evaluated;
      var result := NodeRun(inner, env, v.schemas[k], i, path, ctx);
      AttemptMade(mode, env, v.schemas, k, i, path, state, TryAll(mode, env, v.schemas, 0, i, path, base), matched,
        failures, result, ctx.evaluated);
      if result == [] {
        matched := true;
      } else {
        ctx.Restore(state);
        failures := failures + [result[0]];
      }
    }
    NoMoreAttempts(mode, env, v.schemas, i, path, ctx.evaluated);
    assert failures + [] == failures;
    if matched {
      return [];
    }
    ctx.Restore(base);
    errors := if mode == First && failures != [] then [failures[0]] else [Error(NoAlternative, Some(path))];
  }

  /** With these attempts behind it, a loop that goes on as `rest` ends as `whole`. */
  predicate AttemptsOnTrack(mode: Mode, whole: Attempts, matched: bool, failures: seq<Error>, rest: Attempts) {
    && (whole.matched <==> matched || rest.matched)
    && whole.marks == rest.marks
    && (mode == First ==> whole.failures == failures + rest.failures)
  }

  lemma AttemptMade(mode: Mode, env: Env, ts: seq<Node>, k: nat, i: Json, path: seq<Segment>, state: set<string>,
        whole: Attempts, matched: bool, failures: seq<Error>, result: seq<Error>, after: set<string>)
    requires k < |ts| && AttemptsOnTrack(mode, whole, matched, failures, TryAll(mode, env, ts, k, i, path, state))
    requires var inner := if mode == First then First else Quick;
      Yields(inner, result, after, Run(inner, env, ts[k], i, path, state))
    ensures result == [] ==>
      AttemptsOnTrack(mode, whole, true, failures, TryAll(mode, env, ts, k + 1, i, path, after))
    ensures result != [] ==>
      AttemptsOnTrack(mode, whole, matched, failures + [result[0]], TryAll(mode, env, ts, k + 1, i, path, state))
  {
    hide Run;
    var rest := TryAll(mode, env, ts, k + 1, i, path, if result == [] then after else state);
    assert [] + rest.failures == rest.failures;
    assert result != [] ==> failures + ([result[0]] + rest.failures) == failures + [result[0]] + rest.failures;
  }

  lemma NoMoreAttempts(mode: Mode, env: Env, ts: seq<Node>, i: Json, path: seq<Segment>, marks: set<string>)
    ensures TryAll(mode, env, ts, |ts|, i, path, marks) == Attempts(false, [], marks)
  {
  }

  /** Every alternative is tried from the same marks; those of the last match are kept if it is the only one. */
  method OneOfRun(mode: Mode, env: Env, v: Validator, i: Json, path: seq<Segment>,
        ctx: ValidationContext) returns (errors: seq<Error>)
    requires v.OneOfV?
    modifies ctx
    ensures Yields(mode, errors, ctx.evaluated, Apply(mode, env, v, i, path, old(ctx.evaluated)))
    decreases v, 1
  {
    hide Run, TryEach;
    var base := ctx.evaluated;
    var count, snapshot := 0, None;
    ghost var whole := TryEach(env, v.schemas, 0, i, path, base);
    for k := 0 to |v.schemas|
      invariant ctx.evaluated == base && (snapshot.Some? <==> count > 0)
      invariant MatchesOnTrack(whole, count, snapshot, TryEach(env, v.schemas, k, i, path, base))
    {
      var valid := NodeIsValid(env, v.schemas[k], i, path, ctx);
      MatchTried(env, v.schemas, k, i, path, base, whole, count, snapshot);
      if valid {
        count := count + 1;
        snapshot := Some(ctx.evaluated);
      }
      ctx.Restore(base);
    }
    NoMoreMatches(env, v.schemas, i, path, base);
    if count == 1 {
      ctx.Restore(snapshot.value);
      return [];
    }
    errors := [Error(if count == 0 then NoneOfOne else SeveralOfOne, Some(path))];
  }

  predicate MatchesOnTrack(whole: (nat, set<string>), count: nat, snapshot: Option<set<string>>,
        rest: (nat, set<string>)) {
    && whole.0 == count + rest.0
    && (whole.0 == 1 && rest.0 == 0 && snapshot.Some? ==> whole.1 == snapshot.value)
    && (rest.0 > 0 ==> whole.1 == rest.1)
  }

  lemma MatchTried(env: Env, ts: seq<Node>, k: nat, i: Json, path: seq<Segment>, base: set<string>,
        whole: (nat, set<string>), count: nat, snapshot: Option<set<string>>)
    requires k < |ts| && MatchesOnTrack(whole, count, snapshot, TryEach(env, ts, k, i, path, base))
    ensures var r := Run(Quick, env, ts[k], i, path, base);
      var rest := TryEach(env, ts, k + 1, i, path, base);
      if r.errors == [] then MatchesOnTrack(whole, count + 1, Some(r.marks), rest)
      else MatchesOnTrack(whole, count, snapshot, rest)
  {
    hide Run;
  }

  lemma NoMoreMatches(env: Env, ts: seq<Node>, i: Json, path: seq<Segment>, marks: set<string>)
    ensures TryEach(env, ts, |ts|, i, path, marks).0 == 0
  {
  }

  method NotRun(mode: Mode, env: Env, v: Validator, i: Json, path: seq<Segment>,
        ctx: ValidationContext) returns (errors: seq<Error>)
    requires v.NotV?
    modifies ctx
    ensures Yields(mode, errors, ctx.evaluated, Apply(mode, env, v, i, path, old(ctx.evaluated)))
    decreases v, 1
  {
    hide Run;
    var state := ctx.evaluated;
    var inner := NodeIsValid(env, v.schema, i, path, ctx);
    ctx.Restore(state);
    errors := if inner then [Error(Negated, Some(path))] else [];
  }

  /** The marks of the condition are kept only if it holds. */
  method ConditionalRun(mode: Mode, env: Env, v: Validator, i: Json, path: seq<Segment>,
        ctx: ValidationContext) returns (errors: seq<Error>)
    requires v.IfThenElse?
    modifies ctx
    ensures Yields(mode, errors, ctx.evaluated, Apply(mode, env, v, i, path, old(ctx.evaluated)))
    decreases v, 1
  {
    hide Run;
    errors := [];
    var state := ctx.evaluated;
    var condition := NodeIsValid(env, v.cond, i, path, ctx);
    if condition {
      if v.thn.Some? {
        errors := NodeRun(mode, env, v.thn.value, i, path, ctx);
      }
    } else {
      ctx.Restore(state);
      if v.els.Some? {
        errors := NodeRun(mode, env, v.els.value, i, path, ctx);
      }
    }
  }

  method ContainsRun(mode: Mode, env: Env, v: Validator, i: Json, path: seq<Segment>,
        ctx: ValidationContext) returns (errors: seq<Error>)
    requires v.ContainsV?
    modifies ctx
    ensures Yields(mode, errors, ctx.evaluated, Apply(mode, env, v, i, path, old(ctx.evaluated)))
    decreases v, 1
  {
    hide Run, CountMatches;
    if !i.Arr? {
      return [];
    }
    var count := 0;
    ghost var whole := CountMatches(env, v.schema, i.items, 0, path, ctx.evaluated);
    for k := 0 to |i.items|
      invariant var rest := CountMatches(env, v.schema, i.items, k, path, ctx.evaluated);
        whole.0 == count + rest.0 && whole.1 == rest.1
    {
      ItemCounted(env, v.schema, i.items, k, path, ctx.evaluated);
      var valid := NodeIsValid(env, v.schema, i.items[k], path, ctx);
      if valid {
        count := count + 1;
      }
    }
    ItemsCounted(env, v.schema, i.items, path, ctx.evaluated);
    if count < v.min {
      return [Error(TooFewMatches(v.min, count), Some(path))];
    }
    if v.max.Some? && count > v.max.value {
      return [Error(TooManyMatches(v.max.value, count), Some(path))];
    }
    errors := [];
  }

  lemma ItemCounted(env: Env, t: Node, items: seq<Json>, k: nat, path: seq<Segment>, marks: set<string>)
    requires k < |items|
    ensures var r := Run(Quick, env, t, items[k], path, marks);
      var rest := CountMatches(env, t, items, k + 1, path, r.marks);
      CountMatches(env, t, items, k, path, marks) == (rest.0 + if r.errors == [] then 1 else 0, rest.1)
  {
  }

  lemma ItemsCounted(env: Env, t: Node, items: seq<Json>, path: seq<Segment>, marks: set<string>)
    ensures CountMatches(env, t, items, |items|, path, marks) == (0, marks)
  {
  }

  // ----- the public entry points -----

  /** `Validator::is_valid`, `validate` and `iter_errors`: a fresh context each. */
  method ValidatorIsValid(env: Env, root: Node, i: Json) returns (valid: bool)
    ensures valid <==> IsValid(env, root, i)
  {
    var ctx := new ValidationContext();
    valid := NodeIsValid(env, root, i, [], ctx);
  }

  method ValidatorValidate(env: Env, root: Node, i: Json) returns (error: Option<Error>)
    ensures error == Validate(env, root, i)
  {
    var ctx := new ValidationContext();
    var errors := NodeValidate(env, root, i, [], ctx);
    error := if errors == [] then None else Some(errors[0]);
  }

  method ValidatorIterErrors(env: Env, root: Node, i: Json) returns (errors: seq<Error>)
    ensures errors == IterErrors(env, root, i)
  {
    var ctx := new ValidationContext();
    errors := NodeIterErrors(env, root, i, [], ctx);
  }
}
