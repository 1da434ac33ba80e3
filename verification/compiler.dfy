/** The schema compiler as a state-passing function: one function for each keyword compiler, the shared set of
    references in progress threaded through every call in the order the calls are made. */
module Compiler {
  import opened JsonValues
  import opened Keywords
  import opened SchemaTree
  import opened SchemaMeaning

  datatype CompileError = TooDeep | NotASchema

  datatype Result<+T> = Ok(value: T) | Err(error: CompileError)

  /** The shared in-progress set, and what else the results speak of: the references in flight on the call stack,
      that stack as it was at each reference taken so far, and a tally of the depth rejections, of the reference
      targets that failed to compile and of the references cut. */
  datatype State = State(
    keys: set<string>,
    inFlight: seq<string>,
    stacks: seq<seq<string>>,
    tooDeep: nat,
    broken: nat,
    cuts: nat)
  {
    /** `mark_in_progress`, on the way into a reference target. */
    function Mark(key: string): State {
      this.(keys := keys + {key}, inFlight := inFlight + [key], stacks := stacks + [inFlight + [key]])
    }

    /** `mark_done`, on the way out of a target that compiled. */
    function Done(key: string, outer: seq<string>): State {
      this.(keys := keys - {key}, inFlight := outer)
    }

    /** A reference already in progress. */
    function Cut(): State {
      this.(cuts := cuts + 1)
    }

    /** The way out of a target that failed: the early return skips `mark_done`. */
    function Abandon(outer: seq<string>): State {
      this.(inFlight := outer, broken := broken + 1)
    }
  }

  const START := State({}, [], [], 0, 0, 0)

  const MAX_DEPTH: nat := 128

  /** What is left of the depth allowance; every nested `compile_node` runs two deeper. */
  function Remaining(depth: nat): nat {
    if depth <= MAX_DEPTH + 2 then MAX_DEPTH + 2 - depth else 0
  }

  /** `Draft::id_keyword` */
  function IdKeyword(draft: Draft): string {
    if draft == Draft4 then "id" else "$id"
  }

  /** The base URI a root schema gives itself: its identifier without one trailing `#`, or nothing. */
  function BaseUri(draft: Draft, s: Json): string {
    var id := if s.Obj? then Get(s.members, IdKeyword(draft)) else None;
    if id.None? || !id.value.Str? then ""
    else
      var text := id.value.s;
      if text != [] && text[|text| - 1] == '#' then text[..|text| - 1] else text
  }

  /** The resolver a root schema is compiled with. */
  function Root(draft: Draft, s: Json): Resolver {
    Resolver(BaseUri(draft, s), [])
  }

  /** `compile`, against any resolver. */
  function Compile(env: Env, base: Resolver, s: Json): (Result<Node>, State) {
    CompileNode(env, base, s, 0, START)
  }

  function CompileNode(env: Env, base: Resolver, s: Json, depth: nat, st: State): (Result<Node>, State)
    decreases Remaining(depth), 4
  {
    if depth > MAX_DEPTH then (Err(TooDeep), st.(tooDeep := st.tooDeep + 1))
    else match s
      case Bool(b) => (Ok(if b then AlwaysValid else AlwaysInvalid), st)
      case Obj(schema) =>
        var (vs, st') := CompileEntries(env, base, schema, 0, depth, st);
        (Ok(Validators(vs)), st')
      case _ => (Err(NotASchema), st)
  }

  /** The keyword loop of `compile_node`, from entry `k` on. */
  function CompileEntries(env: Env, base: Resolver, schema: seq<Member>, k: nat, depth: nat,
        st: State): (seq<Validator>, State)
    requires k <= |schema| && depth <= MAX_DEPTH
    decreases Remaining(depth), 3, |schema| - k
  {
    if k == |schema| then ([], st)
    else
      var (v, st1) := CompileKeyword(env, base, schema, Active(env.draft, schema, schema[k].key), schema[k].value,
          depth, st);
      var (vs, st2) := CompileEntries(env, base, schema, k + 1, depth, st1);
      (if v.Some? then [v.value] + vs else vs, st2)
  }

  /** Compiles subschemas one after the other and gives up at the first that fails. */
  function CompileAll(env: Env, base: Resolver, subs: seq<Json>, depth: nat, st: State): (Option<seq<Node>>, State)
    ensures var r := CompileAll(env, base, subs, depth, st).0; r.Some? ==> |r.value| == |subs|
    decreases Remaining(depth), 5, |subs|
  {
    if subs == [] then (Some([]), st)
    else
      var (r, st1) := CompileNode(env, base, subs[0], depth, st);
      if r.Err? then (None, st1)
      else
        var (rs, st2) := CompileAll(env, base, subs[1..], depth, st1);
        (if rs.Some? then Some([r.value] + rs.value) else None, st2)
  }

  function CompileOne(env: Env, base: Resolver, sub: Json, depth: nat, st: State): (Option<Node>, State)
    decreases Remaining(depth), 5
  {
    var (r, st') := CompileNode(env, base, sub, depth, st);
    (if r.Ok? then Some(r.value) else None, st')
  }

  function CompileOptional(env: Env, base: Resolver, sub: Option<Json>, depth: nat, st: State): (Option<Option<Node>>,
        State)
    decreases Remaining(depth), 6
  {
    if sub.None? then (Some(None), st)
    else
      var (r, st') := CompileOne(env, base, sub.value, depth, st);
      (if r.Some? then Some(r) else None, st')
  }

  function Name(members: seq<Member>, nodes: seq<Node>): (r: seq<Named>)
    requires |members| == |nodes|
    ensures |r| == |nodes|
    ensures forall k :: 0 <= k < |r| ==> r[k] == Named(members[k].key, nodes[k])
  {
    seq(|nodes|, k requires 0 <= k < |nodes| => Named(members[k].key, nodes[k]))
  }

  lemma ValuesPrepend(m: Member, members: seq<Member>)
    ensures Values([m] + members) == [m.value] + Values(members)
  {
  }

  function SchemaMembers(members: seq<Member>): (r: seq<Member>)
    ensures Values(r) == SchemasAmong(Values(members))
    ensures forall m :: m in r <==> m in members && IsSchema(m.value)
  {
    if members == [] then []
    else
      var rest := SchemaMembers(members[1..]);
      assert members == [members[0]] + members[1..];
      assert Values(members)[1..] == Values(members[1..]);
      ValuesPrepend(members[0], rest);
      if IsSchema(members[0].value) then [members[0]] + rest else rest
  }

  /** `compile_keyword`, for an entry that may be suppressed or outside the vocabulary. */
  function CompileKeyword(env: Env, base: Resolver, schema: seq<Member>, kw: Keyword, arg: Json, depth: nat,
        st: State): (Option<Validator>, State)
    requires depth <= MAX_DEPTH
    decreases Remaining(depth), 2
  {
    var deeper := depth + 2;
    match kw
    case Combine(how) => CompileCombination(env, base, how, arg, deeper, st)
    case Not => CompileNot(env, base, arg, deeper, st)
    case If => CompileConditional(env, base, schema, deeper, st)
    case Branch => CompileConditional(env, base, schema, deeper, st)
    case Properties => CompileProperties(env, base, arg, deeper, st)
    case PatternProperties => CompilePatternProperties(env, base, arg, deeper, st)
    case AdditionalProperties => CompileAdditionalProperties(env, base, schema, arg, deeper, st)
    case DependentSchemas => CompileDependentSchemas(env, base, arg, deeper, st)
    case Dependencies => CompileDependencies(env, base, arg, deeper, st)
    case Items => CompileItems(env, base, schema, arg, deeper, st)
    case PrefixItems => CompilePrefixItems(env, base, arg, deeper, st)
    case Contains => CompileContains(env, base, schema, arg, deeper, st)
    case PropertyNames => CompilePropertyNames(env, base, arg, deeper, st)
    case Reference(kind) => CompileRef(env, base, kind, arg, deeper, st)
    case Leaf(plain) =>
      var test := CompileLeaf(env, schema, plain, arg);
      (if test.Some? then Some(Assertion(test.value)) else None, st)
    case Unmodelled => (None, st)
  }

  /** `compile_all_of`, `compile_any_of` and `compile_one_of` */
  function CompileCombination(env: Env, base: Resolver, how: Combination, arg: Json, depth: nat,
        st: State): (Option<Validator>, State)
    decreases Remaining(depth), 7
  {
    if !arg.Arr? then (None, st)
    else
      var (rs, st') := CompileAll(env, base, arg.items, depth, st);
      (if rs.Some? then Some(CombineAll(how, rs.value)) else None, st')
  }

  function CombineAll(how: Combination, nodes: seq<Node>): Validator {
    match how
    case AllOf => AllOfV(nodes)
    case AnyOf => AnyOfV(nodes)
    case OneOf => OneOfV(nodes)
  }

  /** `compile_prefix_items` */
  function CompilePrefixItems(env: Env, base: Resolver, arg: Json, depth: nat, st: State): (Option<Validator>, State)
    decreases Remaining(depth), 7
  {
    if !arg.Arr? then (None, st)
    else
      var (rs, st') := CompileAll(env, base, arg.items, depth, st);
      (if rs.Some? then Some(PrefixItemsV(rs.value)) else None, st')
  }

  /** `compile_not` */
  function CompileNot(env: Env, base: Resolver, arg: Json, depth: nat, st: State): (Option<Validator>, State)
    decreases Remaining(depth), 7
  {
    var (r, st') := CompileOne(env, base, arg, depth, st);
    (if r.Some? then Some(NotV(r.value)) else None, st')
  }

  /** `compile_contains` */
  function CompileContains(env: Env, base: Resolver, schema: seq<Member>, arg: Json, depth: nat,
        st: State): (Option<Validator>, State)
    decreases Remaining(depth), 7
  {
    var (r, st') := CompileOne(env, base, arg, depth, st);
    var min, max := MinContains(env.draft, schema), MaxContains(env.draft, schema);
    (if r.Some? then Some(ContainsV(r.value, min, max)) else None, st')
  }

  /** `compile_property_names`: a schema that fails to compile accepts every name. */
  function CompilePropertyNames(env: Env, base: Resolver, arg: Json, depth: nat, st: State): (Option<Validator>, State)
    decreases Remaining(depth), 7
  {
    var (r, st') := CompileOne(env, base, arg, depth, st);
    (Some(PropertyNamesV(if r.Some? then r.value else AlwaysValid)), st')
  }

  /** `compile_properties` */
  function CompileProperties(env: Env, base: Resolver, arg: Json, depth: nat, st: State): (Option<Validator>, State)
    decreases Remaining(depth), 7
  {
    if !arg.Obj? then (None, st)
    else
      var (rs, st') := CompileAll(env, base, Values(arg.members), depth, st);
      (if rs.Some? then Some(PropertiesV(Name(arg.members, rs.value))) else None, st')
  }

  /** `compile_pattern_properties` */
  function CompilePatternProperties(env: Env, base: Resolver, arg: Json, depth: nat, st: State): (Option<Validator>,
        State)
    decreases Remaining(depth), 7
  {
    if !arg.Obj? then (None, st)
    else
      var (rs, st') := CompilePatterns(env, base, arg.members, depth, st);
      (if rs.Some? then Some(PatternPropertiesV(Name(arg.members, rs.value))) else None, st')
  }

  /** `compile_dependent_schemas` */
  function CompileDependentSchemas(env: Env, base: Resolver, arg: Json, depth: nat, st: State): (Option<Validator>,
        State)
    decreases Remaining(depth), 7
  {
    if !arg.Obj? then (None, st)
    else
      var deps := SchemaMembers(arg.members);
      var (rs, st') := CompileAll(env, base, Values(deps), depth, st);
      (if rs.Some? && deps != [] then Some(DependentSchemasV(Name(deps, rs.value))) else None, st')
  }

  /** `compile_dependencies` */
  function CompileDependencies(env: Env, base: Resolver, arg: Json, depth: nat, st: State): (Option<Validator>, State)
    decreases Remaining(depth), 7
  {
    if !arg.Obj? then (None, st)
    else
      var (deps, st') := CompileDependencyList(env, base, arg.members, depth, st);
      (if deps != [] then Some(DependenciesV(deps)) else None, st')
  }

  /** `compile_if_then_else`, run for each of the three keywords that is present. */
  function CompileConditional(env: Env, base: Resolver, schema: seq<Member>, depth: nat, st: State): (Option<Validator>,
        State)
    decreases Remaining(depth), 7
  {
    if !Has(schema, "if") then (None, st)
    else
      var (c, st1) := CompileOne(env, base, Get(schema, "if").value, depth, st);
      if c.None? then (None, st1) else
      var (thn, st2) := CompileOptional(env, base, Get(schema, "then"), depth, st1);
      if thn.None? then (None, st2) else
      var (els, st3) := CompileOptional(env, base, Get(schema, "else"), depth, st2);
      (if els.Some? then Some(IfThenElse(c.value, thn.value, els.value)) else None, st3)
  }

  /** The loop of `compile_pattern_properties`: a pattern that is no regex stops the loop before its schema is
      compiled. */
  function CompilePatterns(env: Env, base: Resolver, members: seq<Member>, depth: nat, st: State): (Option<seq<Node>>,
        State)
    ensures var r := CompilePatterns(env, base, members, depth, st).0; r.Some? ==> |r.value| == |members|
    decreases Remaining(depth), 6, |members|
  {
    if members == [] then (Some([]), st)
    else if !env.regexOk(members[0].key) then (None, st)
    else
      var (r, st1) := CompileOne(env, base, members[0].value, depth, st);
      if r.None? then (None, st1)
      else
        var (rs, st2) := CompilePatterns(env, base, members[1..], depth, st1);
        (if rs.Some? then Some([r.value] + rs.value) else None, st2)
  }

  /** `compile_additional_properties` */
  function CompileAdditionalProperties(env: Env, base: Resolver, schema: seq<Member>, arg: Json, depth: nat,
        st: State): (Option<Validator>, State)
    decreases Remaining(depth), 7
  {
    var defined := Keys(MembersOf(Get(schema, "properties")));
    var patterns := ValidPatterns(env, MembersOf(Get(schema, "patternProperties")));
    match arg
    case Bool(b) =>
      var others := if b then ExtraSchema(AlwaysValid) else RejectExtra;
      (Some(AdditionalPropertiesV(Some(others), defined, patterns)), st)
    case Obj(_) | Arr(_) =>
      var (r, st') := CompileOne(env, base, arg, depth, st);
      (if r.Some? then Some(AdditionalPropertiesV(Some(ExtraSchema(r.value)), defined, patterns)) else None, st')
    case _ => (Some(AdditionalPropertiesV(None, defined, patterns)), st)
  }

  function ValidPatterns(env: Env, members: seq<Member>): (r: seq<string>)
    ensures forall x :: x in r <==> env.regexOk(x) && x in Keys(members)
  {
    if members == [] then []
    else
      assert Keys(members) == {members[0].key} + Keys(members[1..]) by {
        assert forall k :: 0 < k < |members| ==> members[k] == members[1..][k - 1];
        assert forall k :: 0 <= k < |members[1..]| ==> members[1..][k] == members[k + 1];
      }
      (if env.regexOk(members[0].key) then [members[0].key] else []) + ValidPatterns(env, members[1..])
  }

  function NamesIn(items: seq<Json>): (r: seq<string>)
    ensures forall x :: x in r <==> Str(x) in items
  {
    if items == [] then []
    else (if items[0].Str? then [items[0].s] else []) + NamesIn(items[1..])
  }

  /** The entries of `dependentRequired` that name anything. */
  function NeedsIn(members: seq<Member>): seq<Needs> {
    if members == [] then []
    else
      var dep := members[0].value;
      var names := if dep.Arr? then NamesIn(dep.items) else [];
      (if names != [] then [Needs(members[0].key, names)] else []) + NeedsIn(members[1..])
  }

  /** The loop of `compile_dependencies`: entries that fail to compile are left out. */
  function CompileDependencyList(env: Env, base: Resolver, members: seq<Member>, depth: nat,
        st: State): (seq<Dependency>, State)
    decreases Remaining(depth), 6, |members|
  {
    if members == [] then ([], st)
    else
      var dep := members[0].value;
      var name := members[0].key;
      if dep.Arr? then
        var (rest, st') := CompileDependencyList(env, base, members[1..], depth, st);
        (if NamesIn(dep.items) != [] then [NeedsNames(name, NamesIn(dep.items))] + rest else rest, st')
      else if IsSchema(dep) then
        var (r, st1) := CompileOne(env, base, dep, depth, st);
        var (rest, st2) := CompileDependencyList(env, base, members[1..], depth, st1);
        (if r.Some? then [NeedsSchema(name, r.value)] + rest else rest, st2)
      else CompileDependencyList(env, base, members[1..], depth, st)
  }

  /** The number of leading array positions `items` skips in draft 2020-12. */
  function PrefixLength(draft: Draft, schema: seq<Member>): nat {
    if draft == Draft202012 && Has(schema, "prefixItems") && Get(schema, "prefixItems").value.Arr?
    then |Get(schema, "prefixItems").value.items| else 0
  }

  /** `compile_items` and `compile_additional_schema` */
  function CompileItems(env: Env, base: Resolver, schema: seq<Member>, arg: Json, depth: nat,
        st: State): (Option<Validator>, State)
    decreases Remaining(depth), 7
  {
    match arg
    case Bool(b) =>
      if env.draft == Draft202012 then
        var (r, st') := CompileOne(env, base, arg, depth, st);
        (if r.Some? then Some(ItemsV(r.value, PrefixLength(env.draft, schema))) else None, st')
      else (if b then None else Some(TupleItems([], RejectAll)), st)
    case Obj(_) =>
      var (r, st') := CompileOne(env, base, arg, depth, st);
      (if r.Some? then Some(ItemsV(r.value, PrefixLength(env.draft, schema))) else None, st')
    case Arr(items) =>
      if env.draft == Draft202012 then (None, st) else
      var (rs, st1) := CompileAll(env, base, items, depth, st);
      if rs.None? then (None, st1) else
      var (extra, st2) := CompileExtraItems(env, base, Get(schema, "additionalItems"), depth, st1);
      (Some(TupleItems(rs.value, extra)), st2)
    case _ => (None, st)
  }

  function CompileExtraItems(env: Env, base: Resolver, arg: Option<Json>, depth: nat, st: State): (ExtraItems, State)
    decreases Remaining(depth), 6
  {
    if arg == Some(Bool(false)) then (RejectAll, st)
    else if arg.Some? && arg.value.Obj? then
      var (r, st') := CompileOne(env, base, arg.value, depth, st);
      (if r.Some? then ValidateExtra(r.value) else AllowAny, st')
    else (AllowAny, st)
  }

  /** `compile_ref`, `compile_dynamic_ref` and `compile_recursive_ref`. A reference already in progress is cut to
      `AlwaysValid`; a target that fails leaves its key in the set. */
  function CompileRef(env: Env, base: Resolver, kind: RefKind, arg: Json, depth: nat, st: State): (Option<Validator>,
        State)
    decreases Remaining(depth), 5
  {
    if !arg.Str? || env.lookup(kind, base, arg.s).None? then (None, st)
    else
      var target := env.lookup(kind, base, arg.s).value;
      var key := CycleKey(target.base, arg.s);
      if key in st.keys then (Some(RefV(AlwaysValid)), st.Cut())
      else
        var (r, st1) := CompileNode(env, target.base, target.schema, depth, st.Mark(key));
        if r.Ok? then (Some(RefV(r.value)), st1.Done(key, st.inFlight))
        else (None, st1.Abandon(st.inFlight))
  }

  /** The keyword compilers without subschemas. */
  function CompileLeaf(env: Env, schema: seq<Member>, kw: Plain, arg: Json): Option<Test> {
    match kw
    case Type =>
      if arg.Str? then Some(TypeIn(TypesNamed([arg])))
      else if arg.Arr? then Some(TypeIn(TypesNamed(arg.items)))
      else None
    case Const => Some(Equals(arg))
    case Enum => Some(Among(if arg.Arr? then arg.items else []))
    case MinLength => Some(MinCharCount(NatOr(arg, 0)))
    case MaxLength => Some(MaxCharCount(NatOr(arg, 0)))
    case Pattern => if arg.Str? && env.regexOk(arg.s) then Some(MatchesPattern(arg.s)) else None
    case Minimum => Some(AtLeast(RealOr(arg, 0.0), Draft4Exclusive(env, schema, "exclusiveMinimum")))
    case Maximum => Some(AtMost(RealOr(arg, 0.0), Draft4Exclusive(env, schema, "exclusiveMaximum")))
    case ExclusiveMinimum => if env.draft == Draft4 then None else Some(AtLeast(RealOr(arg, 0.0), true))
    case ExclusiveMaximum => if env.draft == Draft4 then None else Some(AtMost(RealOr(arg, 0.0), true))
    case MinItems => Some(MinItemCount(NatOr(arg, 0)))
    case MaxItems => Some(MaxItemCount(NatOr(arg, 0)))
    case UniqueItems => if arg == Bool(true) then Some(DistinctItems) else None
    case Required => Some(RequiresNames(if arg.Arr? then NamesIn(arg.items) else []))
    case MinProperties => Some(MinMemberCount(NatOr(arg, 0)))
    case MaxProperties => Some(MaxMemberCount(NatOr(arg, 0)))
    case DependentRequired => Some(RequiresWith(NeedsIn(MembersOf(Some(arg)))))
  }

  /** `parse_type_name` */
  function ParseTypeName(name: string): set<JsonType> {
    if name == "null" then {NullType}
    else if name == "boolean" then {BooleanType}
    else if name == "object" then {ObjectType}
    else if name == "array" then {ArrayType}
    else if name == "string" then {StringType}
    else if name == "number" then {NumberType}
    else if name == "integer" then {IntegerType}
    else {}
  }

  function TypesNamed(names: seq<Json>): set<JsonType> {
    if names == [] then {}
    else (if names[0].Str? then ParseTypeName(names[0].s) else {}) + TypesNamed(names[1..])
  }
}
