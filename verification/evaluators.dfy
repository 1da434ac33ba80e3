/** The three evaluators over a compiled tree: `is_valid`, `validate` and `iter_errors`. All of them thread the set
    of property names marked as evaluated, which carries no instance path.

    The keyword validators that run their subschemas one after the other differ only in what they run, when they
    mark and when they give up, so each is a `Plan`: one task for each turn of its loop. */
module Evaluators {
  import opened JsonValues
  import opened SchemaTree
  import opened TreeFeatures
  import opened Paths

  /** `is_valid`, `validate` and `iter_errors`. */
  datatype Mode = Quick | First | Every

  datatype ErrorKind =
    | FalseSchema
    | TestFailed(test: Test)
    | MissingProperty(name: string)
    | UnexpectedProperty(name: string)
    | TooManyItems(limit: nat)
    | NoAlternative
    | NoneOfOne
    | SeveralOfOne
    | Negated
    | TooFewMatches(min: nat, actual: nat)
    | TooManyMatches(max: nat, actual: nat)
    | MissingDependents(property: string, missing: seq<string>)

  /** Some errors are built without a location. */
  datatype Error = Error(kind: ErrorKind, at: Option<seq<Segment>>)

  /** What a run reports, and the marks it leaves. In `Quick` mode only the presence of an error counts. */
  datatype Outcome = Outcome(errors: seq<Error>, marks: set<string>)

  datatype Job = Check(node: Node, value: Json, path: seq<Segment>) | Refuse(error: Error) | Nothing

  /** What becomes of the marks a subschema made: left alone, taken back if it failed, or merged with those from
      before it. */
  datatype Policy = Keep | Undo | Merge

  /** One turn of a validator's loop, skipped when `unless` is already marked. */
  datatype Task = Task(job: Job, unless: Option<string>, before: set<string>, after: set<string>, policy: Policy)

  const IDLE := Task(Nothing, None, {}, {}, Keep)

  function Turn(job: Job): Task {
    Task(job, None, {}, {}, Keep)
  }

  // ----- plans -----

  function ListPlan(ts: seq<Node>, i: Json, path: seq<Segment>): seq<Task> {
    seq(|ts|, k requires 0 <= k < |ts| => Task(Check(ts[k], i, path), None, {}, {}, Merge))
  }

  function ItemsPlan(t: Node, skip: nat, items: seq<Json>, path: seq<Segment>): seq<Task> {
    seq(|items|, k requires 0 <= k < |items| => if k < skip then IDLE else Turn(Check(t, items[k], path + [Index(k)])))
  }

  function PrefixPlan(ts: seq<Node>, items: seq<Json>, path: seq<Segment>): seq<Task> {
    seq(|items|, k requires 0 <= k < |items| =>
      if k < |ts| then Turn(Check(ts[k], items[k], path + [Index(k)])) else IDLE)
  }

  /** `tuple_items.rs`: the refusal of surplus items is built without a location. */
  function TuplePlan(v: Validator, items: seq<Json>, path: seq<Segment>): seq<Task>
    requires v.TupleItems?
  {
    seq(|items|, k requires 0 <= k < |items| => Turn(
      if k < |v.schemas| then Check(v.schemas[k], items[k], path + [Index(k)])
      else match v.extra
        case AllowAny => Nothing
        case RejectAll => Refuse(Error(TooManyItems(|v.schemas|), None))
        case ValidateExtra(t) => Check(t, items[k], path + [Index(k)])))
  }

  /** `properties.rs`: `validate` marks before it runs the property's schema, the other two after. */
  function PropertiesPlan(mode: Mode, props: seq<Named>, members: seq<Member>, path: seq<Segment>): seq<Task> {
    seq(|members|, x requires 0 <= x < |members| =>
      var name := members[x].key;
      var found := Find(props, name);
      if found.None? then IDLE
      else Task(Check(props[found.value].node, members[x].value, path + [Property(name)]), None,
        if mode == First then {name} else {}, if mode == First then {} else {name}, Keep))
  }

  /** `pattern_properties.rs`: `iter_errors` marks after, the other two before. */
  function PatternRow(mode: Mode, env: Env, props: seq<Named>, m: Member, path: seq<Segment>): seq<Task> {
    seq(|props|, p requires 0 <= p < |props| =>
      if !env.Matches(props[p].name, m.key) then IDLE
      else Task(Check(props[p].node, m.value, path + [Property(m.key)]), None,
        if mode == Every then {} else {m.key}, if mode == Every then {m.key} else {}, Keep))
  }

  function PatternPlan(mode: Mode, env: Env, props: seq<Named>, members: seq<Member>, path: seq<Segment>): seq<Task> {
    if members == [] then []
    else PatternRow(mode, env, props, members[0], path) + PatternPlan(mode, env, props, members[1..], path)
  }

  /** `additional_properties.rs`: a name that is already marked is skipped. */
  function AdditionalPlan(env: Env, v: Validator, members: seq<Member>, path: seq<Segment>): seq<Task>
    requires v.AdditionalPropertiesV? && v.others.Some?
  {
    seq(|members|, x requires 0 <= x < |members| =>
      var name := members[x].key;
      var at := path + [Property(name)];
      if !IsAdditional(env, v, name) then IDLE
      else match v.others.value
        case RejectExtra => Task(Refuse(Error(UnexpectedProperty(name), Some(at))), Some(name), {name}, {}, Keep)
        case ExtraSchema(t) => Task(Check(t, members[x].value, at), Some(name), {}, {name}, Keep))
  }

  function NamesPlan(t: Node, members: seq<Member>, path: seq<Segment>): seq<Task> {
    seq(|members|, x requires 0 <= x < |members| =>
      Turn(Check(t, Str(members[x].key), path + [Property(members[x].key)])))
  }

  function DependentPlan(props: seq<Named>, i: Json, path: seq<Segment>): seq<Task>
    requires i.Obj?
  {
    seq(|props|, k requires 0 <= k < |props| =>
      if Has(i.members, props[k].name) then Task(Check(props[k].node, i, path), None, {}, {}, Undo) else IDLE)
  }

  function Missing(names: seq<string>, members: seq<Member>): (r: seq<string>)
    ensures r == [] <==> forall k :: 0 <= k < |names| ==> Has(members, names[k])
  {
    if names == [] then []
    else
      var rest := Missing(names[1..], members);
      assert forall k :: 0 < k < |names| ==> names[k] == names[1..][k - 1];
      if Has(members, names[0]) then rest else [names[0]] + rest
  }

  function DependencyJob(d: Dependency, i: Json, path: seq<Segment>): Job
    requires i.Obj?
  {
    if !Has(i.members, d.name) then Nothing
    else match d
      case NeedsNames(name, names) =>
        var missing := Missing(names, i.members);
        if missing == [] then Nothing else Refuse(Error(MissingDependents(name, missing), Some(path)))
      case NeedsSchema(_, t) => Check(t, i, path)
  }

  function DependenciesPlan(deps: seq<Dependency>, i: Json, path: seq<Segment>): seq<Task>
    requires i.Obj?
  {
    seq(|deps|, k requires 0 <= k < |deps| => Turn(DependencyJob(deps[k], i, path)))
  }

  /** The validators with special control flow; the others follow their plan. */
  predicate IsSpecial(v: Validator) {
    v.Assertion? || v.AnyOfV? || v.OneOfV? || v.NotV? || v.IfThenElse? || v.ContainsV?
  }

  function Plan(mode: Mode, env: Env, v: Validator, i: Json, path: seq<Segment>): seq<Task>
    requires !IsSpecial(v)
  {
    match v
    case AllOfV(ts) => ListPlan(ts, i, path)
    case ItemsV(t, skip) => if i.Arr? then ItemsPlan(t, skip, i.items, path) else []
    case PrefixItemsV(ts) => if i.Arr? then PrefixPlan(ts, i.items, path) else []
    case TupleItems(_, _) => if i.Arr? then TuplePlan(v, i.items, path) else []
    case PropertiesV(props) => if i.Obj? then PropertiesPlan(mode, props, i.members, path) else []
    case PatternPropertiesV(props) => if i.Obj? then PatternPlan(mode, env, props, i.members, path) else []
    case AdditionalPropertiesV(others, _, _) =>
      if i.Obj? && others.Some? then AdditionalPlan(env, v, i.members, path) else []
    case PropertyNamesV(t) => if i.Obj? then NamesPlan(t, i.members, path) else []
    case DependentSchemasV(props) => if i.Obj? then DependentPlan(props, i, path) else []
    case DependenciesV(deps) => if i.Obj? then DependenciesPlan(deps, i, path) else []
    case RefV(t) => [Turn(Check(t, i, path))]
  }

  /** A plan only runs the validator's own subschemas. */
  ghost predicate Runs(v: Validator, task: Task) {
    task.job.Check? ==> task.job.node in Children(v)
  }

  ghost predicate AllRun(v: Validator, tasks: seq<Task>) {
    forall k :: 0 <= k < |tasks| ==> Runs(v, tasks[k])
  }

  lemma PlanRuns(mode: Mode, env: Env, v: Validator, i: Json, path: seq<Segment>)
    requires !IsSpecial(v)
    ensures AllRun(v, Plan(mode, env, v, i, path))
  {
    hide ListPlan, ItemsPlan, PrefixPlan, TuplePlan, PropertiesPlan, PatternPlan, AdditionalPlan, NamesPlan,
      DependentPlan,
      DependenciesPlan, Children;
    match v
    case PropertiesV(_) => NamedRun(mode, v, i, path);
    case DependentSchemasV(_) => NamedRun(mode, v, i, path);
    case PatternPropertiesV(_) =>
      if i.Obj? {
        PatternsRun(mode, env, v, i.members, path);
      }
    case AdditionalPropertiesV(_, _, _) => OthersRun(env, v, i, path);
    case DependenciesV(_) => DependenciesRun(v, i, path);
    case TupleItems(_, _) => TupleRuns(v, i, path);
    case _ => ChildRuns(mode, env, v, i, path);
  }

  lemma NamedRun(mode: Mode, v: Validator, i: Json, path: seq<Segment>)
    requires v.PropertiesV? || v.DependentSchemasV?
    ensures i.Obj? && v.PropertiesV? ==> AllRun(v, PropertiesPlan(mode, v.props, i.members, path))
    ensures i.Obj? && v.DependentSchemasV? ==> AllRun(v, DependentPlan(v.props, i, path))
  {
    hide Has, Find;
    assert forall x :: 0 <= x < |v.props| ==> v.props[x].node == Children(v)[x];
  }

  lemma OthersRun(env: Env, v: Validator, i: Json, path: seq<Segment>)
    requires v.AdditionalPropertiesV?
    ensures i.Obj? && v.others.Some? ==> AllRun(v, AdditionalPlan(env, v, i.members, path))
  {
    hide IsAdditional;
  }

  lemma DependenciesRun(v: Validator, i: Json, path: seq<Segment>)
    requires v.DependenciesV?
    ensures i.Obj? ==> AllRun(v, DependenciesPlan(v.deps, i, path))
  {
    hide Has, Missing;
    forall x | 0 <= x < |v.deps| && v.deps[x].NeedsSchema? ensures v.deps[x].node in Children(v) {
      assert v.deps[x] in v.deps;
    }
  }

  lemma TupleRuns(v: Validator, i: Json, path: seq<Segment>)
    requires v.TupleItems?
    ensures i.Arr? ==> AllRun(v, TuplePlan(v, i.items, path))
  {
    assert v.extra.ValidateExtra? ==> Children(v)[|v.schemas|] == v.extra.node;
    assert forall x :: 0 <= x < |v.schemas| ==> v.schemas[x] == Children(v)[x];
  }

  lemma ChildRuns(mode: Mode, env: Env, v: Validator, i: Json, path: seq<Segment>)
    requires v.AllOfV? || v.ItemsV? || v.PrefixItemsV? || v.PropertyNamesV? || v.RefV?
    ensures AllRun(v, Plan(mode, env, v, i, path))
  {
  }

  lemma {:induction false} PatternsRun(mode: Mode, env: Env, v: Validator, members: seq<Member>, path: seq<Segment>)
    requires v.PatternPropertiesV?
    ensures AllRun(v, PatternPlan(mode, env, v.props, members, path))
    decreases |members|
  {
    if members != [] {
      assert forall x :: 0 <= x < |v.props| ==> v.props[x].node == Children(v)[x];
      PatternsRun(mode, env, v, members[1..], path);
      var row := PatternRow(mode, env, v.props, members[0], path);
      forall k | 0 <= k < |row| ensures Runs(v, row[k]) {
        assert v.props[k].node == Children(v)[k];
      }
      var rest := PatternPlan(mode, env, v.props, members[1..], path);
      assert PatternPlan(mode, env, v.props, members, path) == row + rest;
      assert AllRun(v, rest);
    }
  }

  // ----- running -----

  /** `is_valid` of `properties` goes on after a failure; every other loop of `is_valid` stops, as does `validate`. */
  predicate Stops(mode: Mode, v: Validator) {
    mode == First || (mode == Quick && !v.PropertiesV?)
  }

  function Errors(kinds: seq<ErrorKind>, path: seq<Segment>): (r: seq<Error>)
    ensures |r| == |kinds|
  {
    seq(|kinds|, k requires 0 <= k < |kinds| => Error(kinds[k], Some(path)))
  }

  function Head<T>(s: seq<T>): (r: seq<T>)
    ensures r == [] <==> s == []
  {
    if s == [] then [] else [s[0]]
  }

  function MissingKinds(missing: seq<string>): (r: seq<ErrorKind>)
    ensures |r| == |missing|
  {
    seq(|missing|, k requires 0 <= k < |missing| => MissingProperty(missing[k]))
  }

  /** The validators without subschemas; `required` reports every missing name in `iter_errors`. */
  function TestErrors(mode: Mode, env: Env, test: Test, i: Json, path: seq<Segment>): (r: seq<Error>) {
    match test
    case RequiresNames(names) =>
      if !i.Obj? then []
      else
        var all := Errors(MissingKinds(Missing(names, i.members)), path);
        if mode == Every then all else Head(all)
    case _ => if TestPasses(env, test, i) then [] else [Error(TestFailed(test), Some(path))]
  }

  /** `SchemaNode::is_valid`, `validate` and `iter_errors`. */
  function Run(mode: Mode, env: Env, t: Node, i: Json, path: seq<Segment>, marks: set<string>): Outcome
    decreases t, 1
  {
    match t
    case AlwaysValid => Outcome([], marks)
    case AlwaysInvalid => Outcome([Error(FalseSchema, None)], marks)
    case Validators(vs) => RunFrom(mode, env, vs, 0, i, path, marks)
  }

  /** The validators from `k` on: `is_valid` and `validate` stop at the first that fails. */
  function RunFrom(mode: Mode, env: Env, vs: seq<Validator>, k: nat, i: Json, path: seq<Segment>,
        marks: set<string>): Outcome
    requires k <= |vs|
    decreases vs, |vs| - k
  {
    if k == |vs| then Outcome([], marks)
    else
      var r := Apply(mode, env, vs[k], i, path, marks);
      if r.errors != [] && mode != Every then r
      else
        var rest := RunFrom(mode, env, vs, k + 1, i, path, r.marks);
        Outcome(r.errors + rest.errors, rest.marks)
  }

  /** The `Validate` methods of one validator. */
  function Apply(mode: Mode, env: Env, v: Validator, i: Json, path: seq<Segment>, marks: set<string>): Outcome
    decreases v, 2
  {
    match v
    case Assertion(test) => Outcome(TestErrors(mode, env, test, i, path), marks)
    case AnyOfV(ts) =>
      var c := TryAll(mode, env, ts, 0, i, path, marks);
      if c.matched then Outcome([], c.marks)
      else if mode == First && c.failures != [] then Outcome([c.failures[0]], marks)
      else Outcome([Error(NoAlternative, Some(path))], marks)
    case OneOfV(ts) =>
      var c := TryEach(env, ts, 0, i, path, marks);
      if c.0 == 1 then Outcome([], c.1)
      else Outcome([Error(if c.0 == 0 then NoneOfOne else SeveralOfOne, Some(path))], marks)
    case NotV(t) =>
      if Run(Quick, env, t, i, path, marks).errors == [] then Outcome([Error(Negated, Some(path))], marks)
      else Outcome([], marks)
    case IfThenElse(c, thn, els) =>
      var r := Run(Quick, env, c, i, path, marks);
      if r.errors == [] then RunOptional(mode, env, thn, i, path, r.marks)
      else RunOptional(mode, env, els, i, path, marks)
    case ContainsV(t, min, max) =>
      if !i.Arr? then Outcome([], marks)
      else
        var c := CountMatches(env, t, i.items, 0, path, marks);
        if c.0 < min then Outcome([Error(TooFewMatches(min, c.0), Some(path))], c.1)
        else if max.Some? && c.0 > max.value then Outcome([Error(TooManyMatches(max.value, c.0), Some(path))], c.1)
        else Outcome([], c.1)
    case _ =>
      var plan := Plan(mode, env, v, i, path);
      PlanRuns(mode, env, v, i, path);
      RunTasks(mode, env, v, plan, 0, marks)
  }

  function RunOptional(mode: Mode, env: Env, t: Option<Node>, i: Json, path: seq<Segment>, marks: set<string>): Outcome
    decreases t
  {
    if t.Some? then Run(mode, env, t.value, i, path, marks) else Outcome([], marks)
  }

  function RunTasks(mode: Mode, env: Env, v: Validator, tasks: seq<Task>, k: nat, marks: set<string>): Outcome
    requires k <= |tasks|
    requires AllRun(v, tasks)
    decreases v, 1, |tasks| - k
  {
    if k == |tasks| then Outcome([], marks)
    else
      var r := RunTask(mode, env, v, tasks[k], marks);
      if r.errors != [] && Stops(mode, v) then r
      else
        var rest := RunTasks(mode, env, v, tasks, k + 1, r.marks);
        Outcome(r.errors + rest.errors, rest.marks)
  }

  /** One turn: a failure that ends the loop skips the marks of its turn. */
  function RunTask(mode: Mode, env: Env, v: Validator, task: Task, marks: set<string>): Outcome
    requires Runs(v, task)
    decreases v, 0
  {
    if task.unless.Some? && task.unless.value in marks then Outcome([], marks)
    else
      var r := RunJob(mode, env, v, task.job, marks + task.before);
      var merged := if task.policy == Merge then r.marks + marks else r.marks;
      if r.errors == [] then Outcome([], merged + task.after)
      else if task.policy == Undo then Outcome(r.errors, marks)
      else if Stops(mode, v) then r
      else Outcome(r.errors, merged + task.after)
  }

  function RunJob(mode: Mode, env: Env, v: Validator, job: Job, marks: set<string>): Outcome
    requires job.Check? ==> job.node in Children(v)
    decreases v, 0, 0
  {
    match job
    case Nothing => Outcome([], marks)
    case Refuse(e) => Outcome([e], marks)
    case Check(t, value, path) => Run(mode, env, t, value, path, marks)
  }

  datatype Attempts = Attempts(matched: bool, failures: seq<Error>, marks: set<string>)

  /** The loop of `anyOf`: every alternative is tried, the marks of the failing ones are taken back. `validate` runs
      `validate` on the alternatives, the other two run `is_valid`. */
  function TryAll(mode: Mode, env: Env, ts: seq<Node>, k: nat, i: Json, path: seq<Segment>,
        marks: set<string>): Attempts
    requires k <= |ts|
    decreases ts, |ts| - k
  {
    if k == |ts| then Attempts(false, [], marks)
    else
      var r := Run(if mode == First then First else Quick, env, ts[k], i, path, marks);
      var rest := TryAll(mode, env, ts, k + 1, i, path, if r.errors == [] then r.marks else marks);
      Attempts(r.errors == [] || rest.matched, Head(r.errors) + rest.failures, rest.marks)
  }

  /** The loop of `oneOf`: how many alternatives match, each tried from the same marks, and the marks of the last. */
  function TryEach(env: Env, ts: seq<Node>, k: nat, i: Json, path: seq<Segment>, marks: set<string>): (nat, set<string>)
    requires k <= |ts|
    decreases ts, |ts| - k
  {
    if k == |ts| then (0, marks)
    else
      var r := Run(Quick, env, ts[k], i, path, marks);
      var rest := TryEach(env, ts, k + 1, i, path, marks);
      if r.errors != [] then rest
      else (rest.0 + 1, if rest.0 == 0 then r.marks else rest.1)
  }

  /** The loop of `contains`: the marks of every item stay, matching or not. */
  function CountMatches(env: Env, t: Node, items: seq<Json>, k: nat, path: seq<Segment>, marks: set<string>): (nat,
        set<string>)
    requires k <= |items|
    decreases t, 2, |items| - k
  {
    if k == |items| then (0, marks)
    else
      var r := Run(Quick, env, t, items[k], path, marks);
      var rest := CountMatches(env, t, items, k + 1, path, r.marks);
      (rest.0 + if r.errors == [] then 1 else 0, rest.1)
  }

  // ----- the public entry points: each starts from a fresh context -----

  /** `Validator::is_valid` */
  predicate IsValid(env: Env, t: Node, i: Json) {
    Run(Quick, env, t, i, [], {}).errors == []
  }

  /** `Validator::validate`: the error, if any. */
  function Validate(env: Env, t: Node, i: Json): Option<Error> {
    var errors := Run(First, env, t, i, [], {}).errors;
    if errors == [] then None else Some(errors[0])
  }

  /** `Validator::iter_errors` */
  function IterErrors(env: Env, t: Node, i: Json): seq<Error> {
    Run(Every, env, t, i, [], {}).errors
  }

  /** `validate_schema_with_draft`, given the compiled meta-schema: the fall-through answers `Ok`. */
  function ValidateSchema(env: Env, meta: Node, schema: Json): Option<Error> {
    if IsValid(env, meta, schema) then None
    else if IterErrors(env, meta, schema) != [] then Some(IterErrors(env, meta, schema)[0])
    else None
  }
}
