/** What compilation promises about the tree, and about depth. */
module CompilerResults {
  import opened JsonValues
  import opened SchemaTree
  import opened SchemaMeaning
  import opened Compiler
  import opened CompilerMeaning
  import opened CompilerDepth
  import opened CompilerCorrectness

  /** A well-formed schema, nested at most 64 edges deep counting the references it follows, compiles; the tree accepts
      exactly the instances that satisfy the schema, at every level of unfolding beyond its nesting; and nothing is left
      in progress. */
  lemma CompilationPreservesMeaning(env: Env, base: Resolver, s: Json, h: nat, n: nat, i: Json)
    requires WellFormed(env, {}, base, s, h) && h <= 64 && n > h
    ensures var (r, st) := Compile(env, base, s);
      && r.Ok? && st.keys == {} && st.tooDeep == 0 && st.broken == 0 && st.cuts == 0
      && (Accepts(env, r.value, i) <==> Eval(n, env, base, s, i))
  {
    NodeCompiles(true, n, env, {}, base, s, 0, START, h);
    var (r, _) := Compile(env, base, s);
    assert RelAt(true, n, env, base, s, r.value, i);
  }

  /** Whatever the reference graph, and whatever is dropped or cut on the way: the tree of a positive schema accepts
      every instance that satisfies the schema unfolded 65 levels deep or deeper. */
  lemma CompilationOnlyWidens(env: Env, base: Resolver, s: Json, n: nat, i: Json)
    requires Positive(env, base, s, 64) && n >= 65
    ensures var r := Compile(env, base, s).0; r.Ok? && Eval(n, env, base, s, i) ==> Accepts(env, r.value, i)
  {
    NodeCompiles(false, n, env, {}, base, s, 0, START, 64);
    var (r, _) := Compile(env, base, s);
    assert r.Ok? ==> RelAt(false, n, env, base, s, r.value, i);
  }

  /** A schema of any shape, nested at most 64 edges deep counting the references it follows, never hits the depth
      error. */
  lemma Within64EdgesNeverTooDeep(env: Env, base: Resolver, s: Json)
    requires NestsWithin(env, base, s, 64)
    ensures Compile(env, base, s).1.tooDeep == 0
  {
    NodeNeverTooDeep(env, base, s, 0, START, 64);
  }

  /** A well-formed schema hits the depth error exactly when it nests more than 64 edges deep. */
  lemma DepthLimitIs64Edges(env: Env, base: Resolver, s: Json, h: nat)
    requires WellFormed(env, {}, base, s, h)
    ensures Compile(env, base, s).1.tooDeep == 0 <==> WellFormed(env, {}, base, s, 64)
  {
    hide WellFormed;
    if WellFormed(env, {}, base, s, 64) {
      CompilationPreservesMeaning(env, base, s, 64, 65, Null);
    } else {
      NodeTooDeep(env, {}, base, s, 0, START, h, 64);
    }
  }
}
