/** The compiled validator tree, and what a tree means as a predicate on instances.
    The meaning ignores the order of evaluation and the evaluation context. */
module SchemaTree {
  import opened JsonValues
  import opened Keywords

  datatype JsonType = NullType | BooleanType | IntegerType | NumberType | StringType | ArrayType | ObjectType

  /** What a reference is resolved against: the base URI and the dynamic scope. */
  datatype Resolver = Resolver(uri: string, scope: seq<string>)

  /** A resolved reference: the schema found and what further references are resolved against. */
  datatype Target = Target(schema: Json, base: Resolver)

  /** What compilation and validation take as given: the draft, the regex engine and the resolver. */
  datatype Env = Env(
    draft: Draft,
    regexOk: string -> bool,
    regexMatches: (string, string) -> bool,
    lookup: (RefKind, Resolver, string) -> Option<Target>)
  {
    predicate Matches(pattern: string, name: string) {
      regexOk(pattern) && regexMatches(pattern, name)
    }
  }

  /** `SchemaNode` */
  datatype Node = AlwaysValid | AlwaysInvalid | Validators(validators: seq<Validator>)

  datatype Named = Named(name: string, node: Node)

  /** `AdditionalItemsPolicy` */
  datatype ExtraItems = AllowAny | RejectAll | ValidateExtra(node: Node)

  /** `AdditionalSchema` */
  datatype ExtraProperties = RejectExtra | ExtraSchema(node: Node)

  /** `Dependency` */
  datatype Dependency = NeedsNames(name: string, names: seq<string>) | NeedsSchema(name: string, node: Node)

  /** An entry of `dependentRequired`. */
  datatype Needs = Needs(name: string, names: seq<string>)

  /** The validators without subschemas. */
  datatype Test =
    | TypeIn(types: set<JsonType>)
    | Equals(expected: Json)
    | Among(options: seq<Json>)
    | MinCharCount(count: nat)
    | MaxCharCount(count: nat)
    | MatchesPattern(pattern: string)
    | AtLeast(limit: real, exclusive: bool)
    | AtMost(limit: real, exclusive: bool)
    | MinItemCount(count: nat)
    | MaxItemCount(count: nat)
    | DistinctItems
    | RequiresNames(names: seq<string>)
    | MinMemberCount(count: nat)
    | MaxMemberCount(count: nat)
    | RequiresWith(needs: seq<Needs>)

  /** The boxed keyword validators, one constructor for each validator type. */
  datatype Validator =
    | Assertion(test: Test)
    | AllOfV(schemas: seq<Node>)
    | AnyOfV(schemas: seq<Node>)
    | OneOfV(schemas: seq<Node>)
    | NotV(schema: Node)
    | IfThenElse(cond: Node, thn: Option<Node>, els: Option<Node>)
    | ItemsV(schema: Node, skip: nat)
    | PrefixItemsV(schemas: seq<Node>)
    | TupleItems(schemas: seq<Node>, extra: ExtraItems)
    | ContainsV(schema: Node, min: nat, max: Option<nat>)
    | PropertiesV(props: seq<Named>)
    | PatternPropertiesV(props: seq<Named>)
    | AdditionalPropertiesV(others: Option<ExtraProperties>, defined: set<string>, patterns: seq<string>)
    | PropertyNamesV(schema: Node)
    | DependentSchemasV(props: seq<Named>)
    | DependenciesV(deps: seq<Dependency>)
    | RefV(schema: Node)

  /** `JsonType::of` */
  function TypeOf(i: Json): JsonType {
    match i
    case Null => NullType
    case Bool(_) => BooleanType
    case Num(n) => if n.Floor as real == n then IntegerType else NumberType
    case Str(_) => StringType
    case Arr(_) => ArrayType
    case Obj(_) => ObjectType
  }

  predicate TestPasses(env: Env, test: Test, i: Json) {
    match test
    case TypeIn(types) => TypeOf(i) in types || (TypeOf(i) == IntegerType && NumberType in types)
    case Equals(v) => i == v
    case Among(options) => i in options
    case MinCharCount(count) => i.Str? ==> |i.s| >= count
    case MaxCharCount(count) => i.Str? ==> |i.s| <= count
    case MatchesPattern(p) => i.Str? ==> env.Matches(p, i.s)
    case AtLeast(limit, exclusive) => i.Num? ==> if exclusive then i.n > limit else i.n >= limit
    case AtMost(limit, exclusive) => i.Num? ==> if exclusive then i.n < limit else i.n <= limit
    case MinItemCount(count) => i.Arr? ==> |i.items| >= count
    case MaxItemCount(count) => i.Arr? ==> |i.items| <= count
    case DistinctItems => i.Arr? ==> forall a, b :: 0 <= a < b < |i.items| ==> i.items[a] != i.items[b]
    case RequiresNames(names) => i.Obj? ==> forall k :: 0 <= k < |names| ==> Has(i.members, names[k])
    case MinMemberCount(count) => i.Obj? ==> |i.members| >= count
    case MaxMemberCount(count) => i.Obj? ==> |i.members| <= count
    case RequiresWith(needs) => i.Obj? ==> forall k :: 0 <= k < |needs| ==> NeedMet(needs[k], i.members)
  }

  predicate NeedMet(need: Needs, members: seq<Member>) {
    Has(members, need.name) ==> forall k :: 0 <= k < |need.names| ==> Has(members, need.names[k])
  }

  /** `BTreeMap::get` on a property table. */
  function Find(props: seq<Named>, name: string): (r: Option<nat>)
    ensures r.Some? ==> r.value < |props| && props[r.value].name == name
    ensures r.None? ==> forall k :: 0 <= k < |props| ==> props[k].name != name
  {
    FindFrom(props, name, 0)
  }

  function FindFrom(props: seq<Named>, name: string, from: nat): (r: Option<nat>)
    requires from <= |props|
    ensures r.Some? ==> from <= r.value < |props| && props[r.value].name == name
    ensures r.Some? ==> forall k :: from <= k < r.value ==> props[k].name != name
    ensures r.None? ==> forall k :: from <= k < |props| ==> props[k].name != name
    decreases |props| - from
  {
    if from == |props| then None
    else if props[from].name == name then Some(from)
    else FindFrom(props, name, from + 1)
  }

  /** `is_additional_property` */
  predicate IsAdditional(env: Env, v: Validator, name: string)
    requires v.AdditionalPropertiesV?
  {
    name !in v.defined && forall k :: 0 <= k < |v.patterns| ==> !env.Matches(v.patterns[k], name)
  }

  /** The instances a tree accepts. */
  predicate Accepts(env: Env, t: Node, i: Json)
    decreases t, 0
  {
    match t
    case AlwaysValid => true
    case AlwaysInvalid => false
    case Validators(vs) => forall k :: 0 <= k < |vs| ==> Satisfies(env, vs[k], i)
  }

  predicate Satisfies(env: Env, v: Validator, i: Json)
    decreases v
  {
    match v
    case Assertion(test) => TestPasses(env, test, i)
    case AllOfV(ts) => forall k :: 0 <= k < |ts| ==> Accepts(env, ts[k], i)
    case AnyOfV(ts) => exists k :: 0 <= k < |ts| && Accepts(env, ts[k], i)
    case OneOfV(ts) => |AcceptingSchemas(env, ts, i)| == 1
    case NotV(t) => !Accepts(env, t, i)
    case IfThenElse(c, thn, els) =>
      AcceptsOptional(env, if Accepts(env, c, i) then thn else els, i)
    case ItemsV(t, skip) => i.Arr? ==> forall k :: skip <= k < |i.items| ==> Accepts(env, t, i.items[k])
    case PrefixItemsV(ts) => i.Arr? ==> forall k :: 0 <= k < |i.items| && k < |ts| ==> Accepts(env, ts[k], i.items[k])
    case TupleItems(_, _) => i.Arr? ==> forall k :: 0 <= k < |i.items| ==> TupleItemAccepted(env, v, k, i.items[k])
    case ContainsV(t, min, max) =>
      i.Arr? ==>
        var count := |AcceptedItems(env, t, i.items)|;
        min <= count && (max.Some? ==> count <= max.value)
    case PropertiesV(props) =>
      i.Obj? ==> forall k :: 0 <= k < |i.members| ==>
        var found := Find(props, i.members[k].key);
        found.Some? ==> Accepts(env, props[found.value].node, i.members[k].value)
    case PatternPropertiesV(props) =>
      i.Obj? ==> forall k, p ::
        0 <= k < |i.members| && 0 <= p < |props| && env.Matches(props[p].name, i.members[k].key) ==>
          Accepts(env, props[p].node, i.members[k].value)
    case AdditionalPropertiesV(others, _, _) =>
      i.Obj? && others.Some? ==> forall k :: 0 <= k < |i.members| && IsAdditional(env, v, i.members[k].key) ==>
        others.value.ExtraSchema? && Accepts(env, others.value.node, i.members[k].value)
    case PropertyNamesV(t) => i.Obj? ==> forall k :: 0 <= k < |i.members| ==> Accepts(env, t, Str(i.members[k].key))
    case DependentSchemasV(deps) =>
      i.Obj? ==> forall k :: 0 <= k < |deps| && Has(i.members, deps[k].name) ==> Accepts(env, deps[k].node, i)
    case DependenciesV(deps) => i.Obj? ==> forall k :: 0 <= k < |deps| ==> DependencyMet(env, deps[k], i)
    case RefV(t) => Accepts(env, t, i)
  }

  predicate DependencyMet(env: Env, d: Dependency, i: Json)
    requires i.Obj?
    decreases d
  {
    Has(i.members, d.name) ==>
      match d
      case NeedsNames(_, names) => forall x :: 0 <= x < |names| ==> Has(i.members, names[x])
      case NeedsSchema(_, t) => Accepts(env, t, i)
  }

  /** A tuple validator accepts the item at position `k`. */
  predicate TupleItemAccepted(env: Env, v: Validator, k: nat, item: Json)
    requires v.TupleItems?
    decreases v, 0
  {
    if k < |v.schemas| then Accepts(env, v.schemas[k], item)
    else v.extra.AllowAny? || (v.extra.ValidateExtra? && Accepts(env, v.extra.node, item))
  }

  predicate AcceptsOptional(env: Env, t: Option<Node>, i: Json)
    decreases t
  {
    t.Some? ==> Accepts(env, t.value, i)
  }

  /** The positions of the schemas that accept the instance. */
  function AcceptingSchemas(env: Env, ts: seq<Node>, i: Json): set<int>
    decreases ts
  {
    set k | 0 <= k < |ts| && Accepts(env, ts[k], i)
  }

  /** The positions of the array items the schema accepts. */
  function AcceptedItems(env: Env, t: Node, items: seq<Json>): set<int>
    decreases t, 1
  {
    set k | 0 <= k < |items| && Accepts(env, t, items[k])
  }
}
