/** References by their literal names and texts: what they are keyed by, which are followed and which are ignored. */
module SchemaReferences {
  import opened JsonValues
  import opened Keywords
  import opened SchemaTree
  import opened SchemaMeaning
  import opened Compiler
  import opened SchemaFamilies

  // ----- keys -----

  predicate IsFragment(reference: string) {
    |reference| > 0 && reference[0] == '#'
  }

  lemma HashSooner(a: string, x: string, b: string, y: string)
    requires IsFragment(x) && '#' !in b && |a| < |b|
    ensures a + x != b + y
  {
    assert (a + x)[|a|] == '#' && (b + y)[|a|] == b[|a|];
  }

  lemma HeadBeforeHash(a: string, x: string, b: string, y: string)
    requires IsFragment(x) && IsFragment(y) && '#' !in a && '#' !in b && a + x == b + y
    ensures a == b && x == y
  {
    if |a| < |b| {
      HashSooner(a, x, b, y);
    } else if |b| < |a| {
      HashSooner(b, y, a, x);
    } else {
      assert (a + x)[..|a|] == a && (b + y)[..|b|] == b;
      assert (a + x)[|a|..] == x && (b + y)[|b|..] == y;
    }
  }

  /** Under base URIs without `#`: two fragments have the same key iff both the base URI and the text are the same; of
      two other references only the texts count; and a fragment collides with another reference iff that one spells
      out the base URI and the fragment. */
  lemma KeysCoincideIff(base: Resolver, a: string, other: Resolver, b: string)
    requires '#' !in base.uri && '#' !in other.uri
    ensures CycleKey(base, a) == CycleKey(other, b) <==>
      if IsFragment(a) && IsFragment(b) then base.uri == other.uri && a == b
      else if IsFragment(a) then base.uri + a == b
      else if IsFragment(b) then a == other.uri + b
      else a == b
  {
    if IsFragment(a) && IsFragment(b) && base.uri + a == other.uri + b {
      HeadBeforeHash(base.uri, a, other.uri, b);
    }
  }

  // ----- references that are followed -----

  /** `{name: r}` */
  function RefBy(name: string, r: string): Json {
    Sole(name, Str(r))
  }

  /** Whatever is in progress, the schema compiles to the tree and leaves the shared state as it was. */
  ghost predicate CompilesAnywhere(env: Env, base: Resolver, s: Json, depth: nat, t: Node) {
    forall st :: CompileNode(env, base, s, depth, st) == (Ok(t), st)
  }

  lemma RefSatisfied(env: Env, t: Node, i: Json)
    ensures Accepts(env, Validators([RefV(t)]), i) <==> Accepts(env, t, i)
  {
    assert Validators([RefV(t)]).validators[0] == RefV(t);
    assert Satisfies(env, RefV(t), i) <==> Accepts(env, t, i);
  }

  /** The kind of reference a name stands for in a draft that has it. */
  lemma ReferenceNames(draft: Draft)
    ensures Parse("$ref") == Reference(Static) && InVocabulary(draft, Parse("$ref"))
    ensures Parse("$dynamicRef") == Reference(Dynamic) && Parse("$recursiveRef") == Reference(Recursive)
    ensures InVocabulary(draft, Parse("$dynamicRef")) <==> draft == Draft202012
    ensures InVocabulary(draft, Parse("$recursiveRef")) <==> draft == Draft201909
  {
  }

  lemma FollowedByKind(env: Env, base: Resolver, name: string, kind: RefKind, r: string, target: Target, t: Node,
        depth: nat, st: State)
    requires Parse(name) == Reference(kind) && InVocabulary(env.draft, Parse(name)) && depth <= MAX_DEPTH
    requires env.lookup(kind, base, r) == Some(target) && CycleKey(target.base, r) !in st.keys
    requires var marked := st.Mark(CycleKey(target.base, r));
      CompileNode(env, target.base, target.schema, depth + 2, marked).0 == Ok(t)
    ensures var (tree, st1) := CompileNode(env, base, RefBy(name, r), depth, st);
      var marked := st.Mark(CycleKey(target.base, r));
      && tree == Ok(Validators([RefV(t)]))
      && st1 == CompileNode(env, target.base, target.schema, depth + 2, marked).1
          .Done(CycleKey(target.base, r), st.inFlight)
  {
    hide CompileNode, Parse, CycleKey;
    SoleCompiles(env, base, name, Str(r), depth, st);
  }

  /** `$ref`, `$dynamicRef` in draft 2020-12 and `$recursiveRef` in draft 2019-09 mean what they lead to. */
  lemma ReferenceMeansTarget(env: Env, base: Resolver, r: string, target: Target, t: Node, i: Json)
    requires CompilesAnywhere(env, target.base, target.schema, 2, t)
    ensures env.lookup(Static, base, r) == Some(target) ==>
      var tree := Compile(env, base, RefBy("$ref", r)).0;
      tree.Ok? && (Accepts(env, tree.value, i) <==> Accepts(env, t, i))
    ensures env.draft == Draft202012 && env.lookup(Dynamic, base, r) == Some(target) ==>
      var tree := Compile(env, base, RefBy("$dynamicRef", r)).0;
      tree.Ok? && (Accepts(env, tree.value, i) <==> Accepts(env, t, i))
    ensures env.draft == Draft201909 && env.lookup(Recursive, base, r) == Some(target) ==>
      var tree := Compile(env, base, RefBy("$recursiveRef", r)).0;
      tree.Ok? && (Accepts(env, tree.value, i) <==> Accepts(env, t, i))
  {
    hide CompileNode, Parse, Accepts, InVocabulary, CycleKey;
    ReferenceNames(env.draft);
    RefSatisfied(env, t, i);
    assert CompileNode(env, target.base, target.schema, 2, START.Mark(CycleKey(target.base, r))).0 == Ok(t);
    if env.lookup(Static, base, r) == Some(target) {
      FollowedByKind(env, base, "$ref", Static, r, target, t, 0, START);
    }
    if env.draft == Draft202012 && env.lookup(Dynamic, base, r) == Some(target) {
      FollowedByKind(env, base, "$dynamicRef", Dynamic, r, target, t, 0, START);
    }
    if env.draft == Draft201909 && env.lookup(Recursive, base, r) == Some(target) {
      FollowedByKind(env, base, "$recursiveRef", Recursive, r, target, t, 0, START);
    }
  }

  /** A reference that does not resolve, or whose value is no string, asks nothing. */
  lemma UnresolvedAsksNothing(env: Env, base: Resolver, arg: Json)
    requires arg.Str? ==> env.lookup(Static, base, arg.s).None?
    ensures Compile(env, base, Sole("$ref", arg)) == (Ok(Validators([])), START)
  {
    hide CompileNode, Parse;
    ReferenceNames(env.draft);
    SoleCompiles(env, base, "$ref", arg, 0, START);
  }

  // ----- chains of fragments -----

  lemma LeafAnywhere(env: Env, base: Resolver, k: nat, depth: nat)
    requires depth <= MAX_DEPTH && k <= U64_MAX
    ensures CompilesAnywhere(env, base, Sole("minLength", Num(k as real)), depth,
      Validators([Assertion(MinCharCount(k))]))
  {
    forall st
      ensures CompileNode(env, base, Sole("minLength", Num(k as real)), depth, st)
        == (Ok(Validators([Assertion(MinCharCount(k))])), st)
    {
      hide CompileNode;
      SoleCompiles(env, base, "minLength", Num(k as real), depth, st);
    }
  }

  /** Two different fragments of one document in a row are both followed: nothing is cut, nothing stays in progress,
      and the tree accepts exactly what the schema behind the second one does. */
  lemma ChainIsFollowed(env: Env, base: Resolver, a: string, b: string, mid: Resolver, target: Target, t: Node,
        i: Json)
    requires IsFragment(a) && IsFragment(b) && a != b && mid.uri == target.base.uri && '#' !in mid.uri
    requires env.lookup(Static, base, a) == Some(Target(RefTo(b), mid)) && env.lookup(Static, mid, b) == Some(target)
    requires CompilesAnywhere(env, target.base, target.schema, 4, t)
    ensures var (r, st) := Compile(env, base, RefTo(a));
      && r == Ok(Validators([RefV(Validators([RefV(t)]))]))
      && st.cuts == 0 && st.keys == {} && (Accepts(env, r.value, i) <==> Accepts(env, t, i))
  {
    hide CompileNode, Accepts, CycleKey, InVocabulary, Parse;
    var inner := Validators([RefV(t)]);
    KeysCoincideIff(mid, a, target.base, b);
    ReferenceNames(env.draft);
    var marked := START.Mark(CycleKey(mid, a));
    var twice := marked.Mark(CycleKey(target.base, b));
    assert CompileNode(env, target.base, target.schema, 4, twice) == (Ok(t), twice);
    FollowedByKind(env, mid, "$ref", Static, b, target, t, 2, marked);
    assert twice.Done(CycleKey(target.base, b), marked.inFlight).keys == marked.keys;
    FollowedByKind(env, base, "$ref", Static, a, Target(RefTo(b), mid), inner, 0, START);
    RefSatisfied(env, t, i);
    RefSatisfied(env, inner, i);
  }

  /** For example `{"$ref": "#/a"}`, where `#/a` leads to `{"$ref": "#/b"}` and that to `{"minLength": k}`. */
  lemma ShortStringsAreRefused(env: Env, base: Resolver, k: nat, i: Json)
    requires '#' !in base.uri && k <= 18446744073709551615
    requires env.lookup(Static, base, "#/a") == Some(Target(RefTo("#/b"), base))
    requires env.lookup(Static, base, "#/b") == Some(Target(Sole("minLength", Num(k as real)), base))
    ensures var r := Compile(env, base, RefTo("#/a")).0;
      r.Ok? && (Accepts(env, r.value, i) <==> (i.Str? ==> |i.s| >= k))
  {
    hide CompileNode, CompilesAnywhere, Accepts;
    var t := Validators([Assertion(MinCharCount(k))]);
    LeafAnywhere(env, base, k, 4);
    ChainIsFollowed(env, base, "#/a", "#/b", base, Target(Sole("minLength", Num(k as real)), base), t, i);
    CountAccepts(env, k, i);
  }

  lemma CountAccepts(env: Env, k: nat, i: Json)
    ensures Accepts(env, Validators([Assertion(MinCharCount(k))]), i) <==> (i.Str? ==> |i.s| >= k)
  {
    assert Validators([Assertion(MinCharCount(k))]).validators[0] == Assertion(MinCharCount(k));
    assert Satisfies(env, Assertion(MinCharCount(k)), i) <==> TestPasses(env, MinCharCount(k), i);
  }

  // ----- the siblings of `$ref` -----

  lemma {:induction false} OthersSuppressed(env: Env, base: Resolver, schema: seq<Member>, k: nat, depth: nat,
        st: State)
    requires env.draft != Draft202012 && Has(schema, "$ref") && k <= |schema| && depth <= MAX_DEPTH
    requires forall x :: k <= x < |schema| ==> schema[x].key != "$ref"
    ensures CompileEntries(env, base, schema, k, depth, st) == ([], st)
    decreases |schema| - k
  {
    hide Has, Parse;
    if k < |schema| {
      OthersSuppressed(env, base, schema, k + 1, depth, st);
      assert Active(env.draft, schema, schema[k].key) == Unmodelled;
    }
  }

  lemma {:induction false} OnlyReference(env: Env, base: Resolver, schema: seq<Member>, p: nat, k: nat, depth: nat,
        st: State)
    requires env.draft != Draft202012 && Has(schema, "$ref") && k <= p < |schema| && depth <= MAX_DEPTH
    requires forall x :: 0 <= x < |schema| ==> (schema[x].key == "$ref" <==> x == p)
    ensures var (v, st1) := CompileKeyword(env, base, schema, Reference(Static), schema[p].value, depth, st);
      CompileEntries(env, base, schema, k, depth, st) == (if v.Some? then [v.value] else [], st1)
    decreases p - k
  {
    hide Has, CompileKeyword;
    ReferenceNames(env.draft);
    if k < p {
      OnlyReference(env, base, schema, p, k + 1, depth, st);
      assert Active(env.draft, schema, schema[k].key) == Unmodelled;
      assert CompileKeyword(env, base, schema, Unmodelled, schema[k].value, depth, st) == (None, st) by {
        NothingCompiled(env, base, schema, schema[k].value, depth, st);
      }
    } else {
      assert Active(env.draft, schema, "$ref") == Reference(Static);
      var (v, st1) := CompileKeyword(env, base, schema, Reference(Static), schema[p].value, depth, st);
      OthersSuppressed(env, base, schema, p + 1, depth, st1);
      var empty: seq<Validator> := [];
      assert v.Some? ==> [v.value] + empty == [v.value];
    }
  }

  lemma NothingCompiled(env: Env, base: Resolver, schema: seq<Member>, arg: Json, depth: nat, st: State)
    requires depth <= MAX_DEPTH
    ensures CompileKeyword(env, base, schema, Unmodelled, arg, depth, st) == (None, st)
  {
  }

  /** Before draft 2020-12 a schema object with `$ref` compiles as if that were its only entry, whatever stands beside
      it and wherever. */
  lemma SiblingsIgnored(env: Env, base: Resolver, schema: seq<Member>, p: nat)
    requires env.draft != Draft202012 && p < |schema|
    requires forall x :: 0 <= x < |schema| ==> (schema[x].key == "$ref" <==> x == p)
    ensures Compile(env, base, Obj(schema)) == Compile(env, base, Sole("$ref", schema[p].value))
  {
    hide CompileEntries, CompileKeyword, Parse;
    ReferenceNames(env.draft);
    assert Has(schema, "$ref");
    OnlyReference(env, base, schema, p, 0, 0, START);
    SoleCompiles(env, base, "$ref", schema[p].value, 0, START);
    SameReference(env, base, schema, [Member("$ref", schema[p].value)], schema[p].value, 0, START);
  }

  lemma SameReference(env: Env, base: Resolver, schema: seq<Member>, other: seq<Member>, arg: Json, depth: nat,
        st: State)
    requires depth <= MAX_DEPTH
    ensures CompileKeyword(env, base, schema, Reference(Static), arg, depth, st)
      == CompileKeyword(env, base, other, Reference(Static), arg, depth, st)
  {
    hide CompileRef;
  }

  /** In draft 2020-12 the siblings count: `{"$ref": r, "minLength": k}` asks for both. */
  lemma SiblingsCount(env: Env, base: Resolver, r: string, target: Target, t: Node, k: nat, i: Json)
    requires env.draft == Draft202012 && k <= 18446744073709551615
    requires env.lookup(Static, base, r) == Some(target) && CompilesAnywhere(env, target.base, target.schema, 2, t)
    ensures var tree := Compile(env, base, Obj([Member("$ref", Str(r)), Member("minLength", Num(k as real))])).0;
      tree.Ok? && (Accepts(env, tree.value, i) <==> Accepts(env, t, i) && (i.Str? ==> |i.s| >= k))
  {
    hide CompileEntries, Accepts, Parse, CycleKey;
    var schema := [Member("$ref", Str(r)), Member("minLength", Num(k as real))];
    ReferenceNames(env.draft);
    LengthNames();
    assert Active(env.draft, schema, "$ref") == Reference(Static);
    assert Active(env.draft, schema, "minLength") == Leaf(MinLength);
    ReferenceEntry(env, base, schema, r, target, t);
    LengthEntry(env, base, schema, k);
    PairCompiles(env, base, schema, RefV(t), Assertion(MinCharCount(k)), 0, START);
    PairAccepts(env, t, k, i);
  }

  lemma LengthNames()
    ensures Parse("minLength") == Leaf(MinLength)
  {
  }

  lemma ReferenceEntry(env: Env, base: Resolver, schema: seq<Member>, r: string, target: Target, t: Node)
    requires env.lookup(Static, base, r) == Some(target) && CompilesAnywhere(env, target.base, target.schema, 2, t)
    ensures CompileKeyword(env, base, schema, Reference(Static), Str(r), 0, START).0 == Some(RefV(t))
  {
    hide CompileNode, CycleKey;
    var marked := START.Mark(CycleKey(target.base, r));
    assert CompileNode(env, target.base, target.schema, 2, marked) == (Ok(t), marked);
  }

  lemma LengthEntry(env: Env, base: Resolver, schema: seq<Member>, k: nat)
    requires k <= U64_MAX
    ensures forall st ::
      CompileKeyword(env, base, schema, Leaf(MinLength), Num(k as real), 0, st)
        == (Some(Assertion(MinCharCount(k))), st)
  {
  }

  lemma PairAccepts(env: Env, t: Node, k: nat, i: Json)
    ensures Accepts(env, Validators([RefV(t), Assertion(MinCharCount(k))]), i) <==>
      Accepts(env, t, i) && (i.Str? ==> |i.s| >= k)
  {
    var vs := [RefV(t), Assertion(MinCharCount(k))];
    assert vs[0] == RefV(t) && vs[1] == Assertion(MinCharCount(k));
    assert Satisfies(env, vs[0], i) <==> Accepts(env, t, i);
    assert Satisfies(env, vs[1], i) <==> TestPasses(env, MinCharCount(k), i);
  }

  // ----- the base URI of a document -----

  /** A root schema names its own base URI under `id` in draft 4 and under `$id` later; one `#` at its end is dropped,
      a second one is not; without a string there, the base URI is empty. */
  lemma RootUris(draft: Draft, uri: string, other: Json)
    requires uri != "" ==> uri[|uri| - 1] != '#'
    ensures var key := if draft == Draft4 then "id" else "$id";
      var foreign := if draft == Draft4 then "$id" else "id";
      && Root(draft, Sole(key, Str(uri))) == Resolver(uri, [])
      && Root(draft, Sole(key, Str(uri + "#"))) == Resolver(uri, [])
      && Root(draft, Sole(key, Str(uri + "##"))) == Resolver(uri + "#", [])
      && Root(draft, Sole(foreign, Str(uri))) == Resolver("", [])
      && (!other.Str? ==> Root(draft, Sole(key, other)) == Resolver("", []))
  {
    hide BaseUri, IdKeyword;
    var key := if draft == Draft4 then "id" else "$id";
    var foreign := if draft == Draft4 then "$id" else "id";
    IdentifierRead(draft, key, Str(uri));
    IdentifierRead(draft, key, Str(uri + "#"));
    IdentifierRead(draft, key, Str(uri + "##"));
    IdentifierRead(draft, key, other);
    assert (uri + "#")[..|uri|] == uri && (uri + "##")[..|uri| + 1] == uri + "#";
    ForeignIdentifier(draft, key, Member(foreign, Str(uri)));
  }

  lemma IdentifierRead(draft: Draft, key: string, value: Json)
    requires key == if draft == Draft4 then "id" else "$id"
    ensures BaseUri(draft, Sole(key, value)) ==
      if !value.Str? then ""
      else if value.s != "" && value.s[|value.s| - 1] == '#' then value.s[..|value.s| - 1] else value.s
  {
  }

  lemma ForeignIdentifier(draft: Draft, key: string, m: Member)
    requires key == (if draft == Draft4 then "id" else "$id") && m.key != key
    ensures BaseUri(draft, Obj([m])) == ""
  {
    NotMember(m, key);
  }
}
