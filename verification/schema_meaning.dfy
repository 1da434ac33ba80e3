/** What a raw schema means: direct recursive evaluation of the JSON document, keyword by keyword, as the
    applicator sections of JSON Schema Core describe it (10.2.1, 10.2.2, 10.3.1 and 10.3.2 of the 2020-12
    edition), with the older forms of `items` and `dependencies` for the older drafts.

    `Eval(n, ...)` unfolds the schema `n` schema objects deep and lets anything below that pass, so references
    may be cyclic; a schema without references nested less than `n` deep is evaluated completely. */
module SchemaMeaning {
  import opened JsonValues
  import opened Keywords
  import opened SchemaTree
  import opened TreeFeatures

  /** The instance has the type a `type` keyword names; an integer is also a number. */
  predicate HasTypeNamed(name: Json, i: Json) {
    name.Str? &&
    match i
    case Null => name.s == "null"
    case Bool(_) => name.s == "boolean"
    case Num(x) => name.s == "number" || (name.s == "integer" && x == x.Floor as real)
    case Str(_) => name.s == "string"
    case Arr(_) => name.s == "array"
    case Obj(_) => name.s == "object"
  }

  /** Draft 4 writes an exclusive bound as a boolean beside `minimum` or `maximum`. */
  predicate Draft4Exclusive(env: Env, schema: seq<Member>, modifier: string) {
    env.draft == Draft4 && Get(schema, modifier) == Some(Bool(true))
  }

  /** A property name that neither `properties` nor a pattern of `patternProperties` covers. */
  predicate Uncovered(env: Env, schema: seq<Member>, name: string) {
    && !Has(MembersOf(Get(schema, "properties")), name)
    && var patterns := MembersOf(Get(schema, "patternProperties"));
       forall p :: 0 <= p < |patterns| ==> !env.Matches(patterns[p].key, name)
  }

  /** Position `x` of an array belongs to `prefixItems`, which exists in draft 2020-12 only. */
  predicate PrefixCovers(draft: Draft, schema: seq<Member>, x: nat) {
    var prefix := Get(schema, "prefixItems");
    draft == Draft202012 && prefix.Some? && prefix.value.Arr? && x < |prefix.value.items|
  }

  function MinContains(draft: Draft, schema: seq<Member>): nat {
    if CountsContains(draft) && Has(schema, "minContains") then NatOr(Get(schema, "minContains").value, 1) else 1
  }

  function MaxContains(draft: Draft, schema: seq<Member>): Option<nat> {
    if CountsContains(draft) && Has(schema, "maxContains") then ToU64(Get(schema, "maxContains").value) else None
  }

  predicate NamesPresent(names: seq<Json>, i: Json)
    requires i.Obj?
  {
    forall x :: 0 <= x < |names| && names[x].Str? ==> Has(i.members, names[x].s)
  }

  /** What a keyword without subschemas says. */
  predicate LeafMeans(env: Env, schema: seq<Member>, kw: Plain, arg: Json, i: Json) {
    match kw
    case Type => if arg.Arr? then exists x :: 0 <= x < |arg.items| && HasTypeNamed(arg.items[x], i)
                 else arg.Str? ==> HasTypeNamed(arg, i)
    case Const => i == arg
    case Enum => arg.Arr? && i in arg.items
    case MinLength => i.Str? ==> NatOr(arg, 0) <= |i.s|
    case MaxLength => i.Str? ==> |i.s| <= NatOr(arg, 0)
    case Pattern => arg.Str? && env.regexOk(arg.s) && i.Str? ==> env.Matches(arg.s, i.s)
    case Minimum =>
      i.Num? ==>
        if Draft4Exclusive(env, schema, "exclusiveMinimum") then i.n > RealOr(arg, 0.0) else i.n >= RealOr(arg, 0.0)
    case Maximum =>
      i.Num? ==>
        if Draft4Exclusive(env, schema, "exclusiveMaximum") then i.n < RealOr(arg, 0.0) else i.n <= RealOr(arg, 0.0)
    case ExclusiveMinimum => env.draft != Draft4 && i.Num? ==> i.n > RealOr(arg, 0.0)
    case ExclusiveMaximum => env.draft != Draft4 && i.Num? ==> i.n < RealOr(arg, 0.0)
    case MinItems => i.Arr? ==> NatOr(arg, 0) <= |i.items|
    case MaxItems => i.Arr? ==> |i.items| <= NatOr(arg, 0)
    case UniqueItems =>
      arg == Bool(true) && i.Arr? ==> forall a, b :: 0 <= a < b < |i.items| ==> i.items[a] != i.items[b]
    case Required => i.Obj? && arg.Arr? ==> NamesPresent(arg.items, i)
    case MinProperties => i.Obj? ==> NatOr(arg, 0) <= |i.members|
    case MaxProperties => i.Obj? ==> |i.members| <= NatOr(arg, 0)
    case DependentRequired =>
      i.Obj? && arg.Obj? ==> forall p :: 0 <= p < |arg.members| ==> RequirementHolds(arg.members[p], i)
  }

  /** One entry of `dependentRequired`. */
  predicate RequirementHolds(dep: Member, i: Json)
    requires i.Obj?
  {
    Has(i.members, dep.key) && dep.value.Arr? ==> NamesPresent(dep.value.items, i)
  }

  /** The instance satisfies the schema, unfolded `n` objects deep. */
  predicate Eval(n: nat, env: Env, base: Resolver, s: Json, i: Json)
    decreases n, 1
  {
    match s
    case Bool(b) => b
    case Obj(schema) => n == 0 || forall k :: 0 <= k < |schema| ==>
        Holds(n, env, base, schema, Active(env.draft, schema, schema[k].key), schema[k].value, i)
    case _ => true
  }

  /** The entry `kw: arg` of a schema object holds of the instance. */
  predicate Holds(n: nat, env: Env, base: Resolver, schema: seq<Member>, kw: Keyword, arg: Json, i: Json)
    requires n > 0
    decreases n, 0
  {
    match kw
    case Properties =>
      i.Obj? && arg.Obj? ==> forall x :: 0 <= x < |i.members| ==>
        var sub := Get(arg.members, i.members[x].key);
        sub.Some? ==> Eval(n - 1, env, base, sub.value, i.members[x].value)
    case PatternProperties =>
      i.Obj? && arg.Obj? ==> forall x, p ::
        0 <= x < |i.members| && 0 <= p < |arg.members| && env.Matches(arg.members[p].key, i.members[x].key) ==>
          Eval(n - 1, env, base, arg.members[p].value, i.members[x].value)
    case AdditionalProperties =>
      i.Obj? ==> forall x :: 0 <= x < |i.members| && Uncovered(env, schema, i.members[x].key) ==>
        Eval(n - 1, env, base, arg, i.members[x].value)
    case PropertyNames =>
      i.Obj? ==> forall x :: 0 <= x < |i.members| ==> Eval(n - 1, env, base, arg, Str(i.members[x].key))
    case DependentSchemas =>
      i.Obj? && arg.Obj? ==> forall p :: 0 <= p < |arg.members| && Has(i.members, arg.members[p].key) ==>
        Eval(n - 1, env, base, arg.members[p].value, i)
    case Dependencies =>
      i.Obj? && arg.Obj? ==> forall p :: 0 <= p < |arg.members| ==> DependencyHolds(n, env, base, arg.members[p], i)
    case Items =>
      i.Arr? ==> forall x :: 0 <= x < |i.items| ==> ItemHolds(n, env, base, schema, arg, x, i.items[x])
    case PrefixItems =>
      i.Arr? && arg.Arr? ==> forall x :: 0 <= x < |i.items| && x < |arg.items| ==>
        Eval(n - 1, env, base, arg.items[x], i.items[x])
    case Contains =>
      i.Arr? && IsSchema(arg) ==>
        var count := |MatchingItems(n - 1, env, base, arg, i.items)|;
        var max := MaxContains(env.draft, schema);
        MinContains(env.draft, schema) <= count && (max.Some? ==> count <= max.value)
    case Combine(how) =>
      arg.Arr? ==>
        var satisfied := MatchingSchemas(n - 1, env, base, arg.items, i);
        match how {
          case AllOf => forall x :: 0 <= x < |arg.items| ==> x in satisfied
          case AnyOf => satisfied != {}
          case OneOf => |satisfied| == 1
        }
    case Not => IsSchema(arg) ==> !Eval(n - 1, env, base, arg, i)
    case If =>
      // Evaluated once for the schema object: `then` and `else` mean nothing on their own.
      EvalOptional(n - 1, env, base, Get(schema, if Eval(n - 1, env, base, arg, i) then "then" else "else"), i)
    case Branch => true
    case Reference(kind) =>
      arg.Str? ==> EvalTarget(n - 1, env, env.lookup(kind, base, arg.s), i)
    case Leaf(plain) => LeafMeans(env, schema, plain, arg, i)
    case Unmodelled => true
  }

  predicate EvalOptional(n: nat, env: Env, base: Resolver, s: Option<Json>, i: Json)
    decreases n, 2
  {
    s.Some? ==> Eval(n, env, base, s.value, i)
  }

  /** One entry of the old `dependencies` keyword: an array lists required names, anything else is a schema. */
  predicate DependencyHolds(n: nat, env: Env, base: Resolver, dep: Member, i: Json)
    requires n > 0 && i.Obj?
    decreases n - 1, 3
  {
    Has(i.members, dep.key) ==>
      if dep.value.Arr? then NamesPresent(dep.value.items, i)
      else Eval(n - 1, env, base, dep.value, i)
  }

  predicate EvalTarget(n: nat, env: Env, target: Option<Target>, i: Json)
    decreases n, 2
  {
    target.Some? ==> Eval(n, env, target.value.base, target.value.schema, i)
  }

  /** What `items: arg` asks of the item at position `x`. */
  predicate ItemHolds(n: nat, env: Env, base: Resolver, schema: seq<Member>, arg: Json, x: nat, item: Json)
    requires n > 0
    decreases n - 1, 3
  {
    if arg.Arr? then
      env.draft != Draft202012 ==>
        if x < |arg.items| then Eval(n - 1, env, base, arg.items[x], item)
        else EvalOptional(n - 1, env, base, Get(schema, "additionalItems"), item)
    else !PrefixCovers(env.draft, schema, x) ==> Eval(n - 1, env, base, arg, item)
  }

  /** The positions of the schemas the instance satisfies. */
  function MatchingSchemas(n: nat, env: Env, base: Resolver, subs: seq<Json>, i: Json): set<int>
    decreases n, 2
  {
    set x | 0 <= x < |subs| && Eval(n, env, base, subs[x], i)
  }

  /** The positions of the array items that satisfy the schema. */
  function MatchingItems(n: nat, env: Env, base: Resolver, s: Json, items: seq<Json>): set<int>
    decreases n, 2
  {
    set x | 0 <= x < |items| && Eval(n, env, base, s, items[x])
  }

  /** The subschemas compiling the entry `kw: arg` visits, in order, references aside. */
  function Subschemas(draft: Draft, schema: seq<Member>, kw: Keyword, arg: Json): seq<Json> {
    match kw
    case Properties => if arg.Obj? then Values(arg.members) else []
    case PatternProperties => if arg.Obj? then Values(arg.members) else []
    case DependentSchemas => if arg.Obj? then SchemasAmong(Values(arg.members)) else []
    case Dependencies => if arg.Obj? then SchemasAmong(Values(arg.members)) else []
    case AdditionalProperties => if arg.Bool? then [] else [arg]
    case Items => ItemSubschemas(draft, schema, arg)
    case PrefixItems => if arg.Arr? then arg.items else []
    case Combine(_) => if arg.Arr? then arg.items else []
    case Contains => [arg]
    case Not => [arg]
    case PropertyNames => [arg]
    case If => ConditionalSubschemas(schema)
    case Branch => ConditionalSubschemas(schema)
    case _ => []
  }

  function ItemSubschemas(draft: Draft, schema: seq<Member>, arg: Json): seq<Json> {
    if arg.Arr? then
      if draft == Draft202012 then [] else
      var extra := Get(schema, "additionalItems");
      arg.items + if extra.Some? && extra.value.Obj? then [extra.value] else []
    else if arg.Bool? && draft != Draft202012 then [] else [arg]
  }

  function ConditionalSubschemas(schema: seq<Member>): seq<Json> {
    if Has(schema, "if")
    then [Get(schema, "if").value] + OptionAsSeq(Get(schema, "then")) + OptionAsSeq(Get(schema, "else"))
    else []
  }

  function OptionAsSeq(o: Option<Json>): seq<Json> {
    if o.Some? then [o.value] else []
  }

  function SchemasAmong(js: seq<Json>): (r: seq<Json>)
    ensures forall x :: x in r <==> x in js && IsSchema(x)
  {
    if js == [] then []
    else (if IsSchema(js[0]) then [js[0]] else []) + SchemasAmong(js[1..])
  }

  /** The schema an entry refers to, if it is a reference that resolves. */
  function Referred(env: Env, base: Resolver, kw: Keyword, arg: Json): Option<Target> {
    if kw.Reference? && arg.Str? then env.lookup(kw.kind, base, arg.s) else None
  }

  /** `resolve_ref_uri`: the key a reference is tracked under. */
  function CycleKey(base: Resolver, reference: string): string {
    if |reference| > 0 && reference[0] == '#' then base.uri + reference else reference
  }

  /** An entry whose argument has a shape the compiler does not drop. */
  predicate ShapeOk(env: Env, base: Resolver, schema: seq<Member>, kw: Keyword, arg: Json) {
    match kw
    case Reference(_) => arg.Str? && Referred(env, base, kw, arg).Some?
    case Leaf(plain) =>
      (plain == Type ==> arg.Str? || arg.Arr?) && (plain == Pattern ==> arg.Str? && env.regexOk(arg.s))
    case Properties => arg.Obj?
    case PatternProperties => arg.Obj? && forall p :: 0 <= p < |arg.members| ==> env.regexOk(arg.members[p].key)
    case DependentSchemas => arg.Obj? && forall p :: 0 <= p < |arg.members| ==> IsSchema(arg.members[p].value)
    case Dependencies =>
      arg.Obj? && forall p :: 0 <= p < |arg.members| ==> arg.members[p].value.Arr? || IsSchema(arg.members[p].value)
    case Items => IsSchema(arg) || (arg.Arr? && env.draft != Draft202012)
    case PrefixItems => arg.Arr?
    case Combine(_) => arg.Arr?
    case If => Get(schema, "if") == Some(arg)
    case _ => true
  }

  /** A schema in which nothing is dropped for its shape, which nests schemas at most `h` edges deep, following a
      reference being an edge, and in which no chain of references repeats a key or uses an `open` one. */
  predicate WellFormed(env: Env, open: set<string>, base: Resolver, s: Json, h: nat)
    decreases h
  {
    s.Bool? || (s.Obj? && forall k :: 0 <= k < |s.members| ==>
      EntryWellFormed(env, open, base, s.members, Active(env.draft, s.members, s.members[k].key), s.members[k].value,
        h))
  }

  predicate EntryWellFormed(env: Env, open: set<string>, base: Resolver, schema: seq<Member>, kw: Keyword, arg: Json,
        h: nat)
    decreases h, 0
  {
    && ShapeOk(env, base, schema, kw, arg)
    && (var subs := Subschemas(env.draft, schema, kw, arg);
        forall x :: 0 <= x < |subs| ==> h > 0 && WellFormed(env, open, base, subs[x], h - 1))
    && (kw.Reference? ==>
          var target := Referred(env, base, kw, arg).value;
          var key := CycleKey(target.base, arg.s);
          key !in open && h > 0 && WellFormed(env, open + {key}, target.base, target.schema, h - 1))
  }

  /** Schemas nest at most `h` edges deep, following a reference being an edge; nothing is said about their shape. */
  predicate NestsWithin(env: Env, base: Resolver, s: Json, h: nat)
    decreases h
  {
    s.Obj? ==> forall k :: 0 <= k < |s.members| ==>
      EntryNests(env, base, s.members, Active(env.draft, s.members, s.members[k].key), s.members[k].value, h)
  }

  predicate EntryNests(env: Env, base: Resolver, schema: seq<Member>, kw: Keyword, arg: Json, h: nat)
    decreases h, 0
  {
    && (var subs := Subschemas(env.draft, schema, kw, arg);
        forall x :: 0 <= x < |subs| ==> h > 0 && NestsWithin(env, base, subs[x], h - 1))
    && (var target := Referred(env, base, kw, arg);
        target.Some? ==> h > 0 && NestsWithin(env, target.value.base, target.value.schema, h - 1))
  }

  /** The features of the validator an active entry compiles to. */
  function EntryFeatures(draft: Draft, schema: seq<Member>, kw: Keyword): set<Feature> {
    match kw
    case Not => {Negation}
    case Combine(how) => if how == OneOf then {Exclusive} else if how == AnyOf then {Choice} else {}
    case If => {Conditional}
    case Branch => if Has(schema, "if") then {Conditional} else {}
    case Contains => if MaxContains(draft, schema).Some? then {CountLimit} else {}
    case AdditionalProperties => {Additional}
    case Reference(_) => {Linked}
    case Properties => {ByName}
    case PatternProperties => {ByPattern}
    case _ => {}
  }

  /** No active entry with a banned feature within the first `h` levels, following references. */
  predicate Avoids(env: Env, base: Resolver, s: Json, h: nat, ban: set<Feature>)
    decreases h
  {
    s.Obj? ==> forall k :: 0 <= k < |s.members| ==>
      EntryAvoids(env, base, s.members, Active(env.draft, s.members, s.members[k].key), s.members[k].value, h, ban)
  }

  predicate EntryAvoids(env: Env, base: Resolver, schema: seq<Member>, kw: Keyword, arg: Json, h: nat,
        ban: set<Feature>)
    decreases h, 0
  {
    && EntryFeatures(env.draft, schema, kw) !! ban
    && (var subs := Subschemas(env.draft, schema, kw, arg);
        forall x :: 0 <= x < |subs| && h > 0 ==> Avoids(env, base, subs[x], h - 1, ban))
    && (var target := Referred(env, base, kw, arg);
        target.Some? && h > 0 ==> Avoids(env, target.value.base, target.value.schema, h - 1, ban))
  }

  /** No active `not`, `oneOf`, `if` or upper `contains` bound within the first `h` levels. */
  predicate Positive(env: Env, base: Resolver, s: Json, h: nat) {
    Avoids(env, base, s, h, NEGATIVE)
  }

  predicate EntryPositive(env: Env, base: Resolver, schema: seq<Member>, kw: Keyword, arg: Json, h: nat): (r: bool)
    ensures r ==> kw != Not && kw != Combine(OneOf) && kw != If && (kw == Branch ==> !Has(schema, "if"))
    ensures r ==> (kw == Contains ==> MaxContains(env.draft, schema).None?)
  {
    EntryAvoids(env, base, schema, kw, arg, h, NEGATIVE)
  }
}
