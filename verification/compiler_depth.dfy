/** The depth limit of the compiler, measured in edges: one for each nested subschema and each reference followed. */
module CompilerDepth {
  import opened JsonValues
  import opened Keywords
  import opened SchemaTree
  import opened SchemaMeaning
  import opened Compiler
  import opened CompilerState
  import opened CompilerCorrectness

  // ----- a schema nested within the allowance never hits the limit -----

  /** Schemas compiled at `depth` fit the allowance, whatever their shape. */
  predicate AllNest(env: Env, base: Resolver, subs: seq<Json>, depth: nat, h: int) {
    forall x :: 0 <= x < |subs| ==> Nests(env, base, subs[x], depth, h)
  }

  predicate Nests(env: Env, base: Resolver, s: Json, depth: nat, h: int) {
    h >= 0 && depth + 2 * h <= MAX_DEPTH && NestsWithin(env, base, s, h)
  }

  lemma {:induction false} NodeNeverTooDeep(env: Env, base: Resolver, s: Json, depth: nat, st: State, h: nat)
    requires depth + 2 * h <= MAX_DEPTH && NestsWithin(env, base, s, h)
    ensures CompileNode(env, base, s, depth, st).1.tooDeep == st.tooDeep
    decreases Remaining(depth), 4
  {
    if s.Obj? {
      EntriesNeverTooDeep(env, base, s.members, 0, depth, st, h);
    }
  }

  lemma EntryOfNest(env: Env, base: Resolver, schema: seq<Member>, k: nat, h: nat)
    requires NestsWithin(env, base, Obj(schema), h) && k < |schema|
    ensures EntryNests(env, base, schema, Active(env.draft, schema, schema[k].key), schema[k].value, h)
  {
  }

  lemma {:induction false} EntriesNeverTooDeep(env: Env, base: Resolver, schema: seq<Member>, k: nat, depth: nat,
        st: State, h: nat)
    requires k <= |schema| && depth + 2 * h <= MAX_DEPTH && NestsWithin(env, base, Obj(schema), h)
    ensures CompileEntries(env, base, schema, k, depth, st).1.tooDeep == st.tooDeep
    decreases Remaining(depth), 3, |schema| - k
  {
    hide NestsWithin, EntryNests, CompileKeyword, Active;
    if k < |schema| {
      var kw, arg := Active(env.draft, schema, schema[k].key), schema[k].value;
      EntryOfNest(env, base, schema, k, h);
      KeywordNeverTooDeep(env, base, schema, kw, arg, depth, st, h);
      var (_, st1) := CompileKeyword(env, base, schema, kw, arg, depth, st);
      EntriesNeverTooDeep(env, base, schema, k + 1, depth, st1, h);
    }
  }

  lemma PrefixAmong(members: seq<Member>, k: nat)
    requires k <= |members|
    ensures forall v :: v in Values(members[..k]) ==> v in Values(members)
  {
    forall v | v in Values(members[..k]) ensures v in Values(members) {
      var x :| 0 <= x < k && Values(members[..k])[x] == v;
      assert Values(members)[x] == v;
    }
  }

  /** Whatever stops a keyword early, it visits none but its subschemas. */
  lemma VisitedAmong(env: Env, schema: seq<Member>, kw: Keyword, arg: Json)
    ensures forall v :: v in Visited(env, schema, kw, arg) ==> v in Subschemas(env.draft, schema, kw, arg)
  {
    hide ConditionalSubschemas, ItemSubschemas;
    if kw == PatternProperties && arg.Obj? {
      PrefixAmong(arg.members, LeadingPatterns(env, arg.members));
    }
  }

  lemma VisitedNest(env: Env, base: Resolver, schema: seq<Member>, kw: Keyword, arg: Json, depth: nat, h: nat)
    requires depth + 2 * h <= MAX_DEPTH && EntryNests(env, base, schema, kw, arg, h)
    ensures AllNest(env, base, Visited(env, schema, kw, arg), depth + 2, h - 1)
  {
    hide Visited, Subschemas;
    VisitedAmong(env, schema, kw, arg);
    var visited := Visited(env, schema, kw, arg);
    var subs := Subschemas(env.draft, schema, kw, arg);
    forall x | 0 <= x < |visited| ensures Nests(env, base, visited[x], depth + 2, h - 1) {
      assert visited[x] in subs;
      var y :| 0 <= y < |subs| && subs[y] == visited[x];
    }
  }

  lemma DependenciesNest(env: Env, base: Resolver, schema: seq<Member>, arg: Json, depth: nat, h: nat)
    requires depth + 2 * h <= MAX_DEPTH && EntryNests(env, base, schema, Dependencies, arg, h) && arg.Obj?
    ensures forall p :: 0 <= p < |arg.members| && IsSchema(arg.members[p].value) ==>
      Nests(env, base, arg.members[p].value, depth + 2, h - 1)
  {
    hide NestsWithin;
    var deps := Subschemas(env.draft, schema, Dependencies, arg);
    forall p | 0 <= p < |arg.members| && IsSchema(arg.members[p].value)
      ensures Nests(env, base, arg.members[p].value, depth + 2, h - 1)
    {
      assert Values(arg.members)[p] in Values(arg.members);
      assert arg.members[p].value in deps;
      var x :| 0 <= x < |deps| && deps[x] == arg.members[p].value;
    }
  }

  lemma ReferenceNests(env: Env, base: Resolver, schema: seq<Member>, kind: RefKind, arg: Json, h: nat)
    requires EntryNests(env, base, schema, Reference(kind), arg, h)
    ensures var target := Referred(env, base, Reference(kind), arg);
      target.Some? ==> h > 0 && NestsWithin(env, target.value.base, target.value.schema, h - 1)
  {
  }

  lemma {:induction false} KeywordNeverTooDeep(env: Env, base: Resolver, schema: seq<Member>, kw: Keyword, arg: Json,
        depth: nat, st: State, h: nat)
    requires depth + 2 * h <= MAX_DEPTH && EntryNests(env, base, schema, kw, arg, h)
    ensures CompileKeyword(env, base, schema, kw, arg, depth, st).1.tooDeep == st.tooDeep
    decreases Remaining(depth), 2
  {
    hide NestsWithin, Nests, EntryNests, AllNest, CompileNode, CompileAll, CompileDependencyList, Visited;
    if kw.Reference? {
      ReferenceNests(env, base, schema, kw.kind, arg, h);
      ReferenceNeverTooDeep(env, base, kw.kind, arg, depth, st, h);
    } else if kw == Dependencies {
      if arg.Obj? {
        DependenciesVisit(env, base, schema, arg, depth, st);
        DependenciesNest(env, base, schema, arg, depth, h);
        DependenciesNeverTooDeep(env, base, arg.members, depth + 2, st, h - 1);
      }
    } else {
      KeywordVisits(env, base, schema, kw, arg, depth, st);
      VisitedNest(env, base, schema, kw, arg, depth, h);
      AllNeverTooDeep(env, base, Visited(env, schema, kw, arg), depth + 2, st, h - 1);
    }
  }

  /** A reference in progress compiles nothing; any other compiles its target one edge further. */
  lemma {:induction false} ReferenceNeverTooDeep(env: Env, base: Resolver, kind: RefKind, arg: Json, depth: nat,
        st: State, h: nat)
    requires depth + 2 * h <= MAX_DEPTH
    requires var target := Referred(env, base, Reference(kind), arg);
      target.Some? ==> h > 0 && NestsWithin(env, target.value.base, target.value.schema, h - 1)
    ensures CompileRef(env, base, kind, arg, depth + 2, st).1.tooDeep == st.tooDeep
    decreases Remaining(depth), 1
  {
    hide NestsWithin, CompileNode;
    var target := Referred(env, base, Reference(kind), arg);
    if target.Some? {
      var key := CycleKey(target.value.base, arg.s);
      NodeNeverTooDeep(env, target.value.base, target.value.schema, depth + 2, st.Mark(key), h - 1);
    }
  }

  lemma {:induction false} AllNeverTooDeep(env: Env, base: Resolver, subs: seq<Json>, depth: nat, st: State, h: int)
    requires AllNest(env, base, subs, depth, h)
    ensures CompileAll(env, base, subs, depth, st).1.tooDeep == st.tooDeep
    decreases Remaining(depth), 5, |subs|
  {
    hide NestsWithin, CompileNode;
    if subs != [] {
      NodeNeverTooDeep(env, base, subs[0], depth, st, h);
      var (r, st1) := CompileNode(env, base, subs[0], depth, st);
      AllNeverTooDeep(env, base, subs[1..], depth, st1, h);
    }
  }

  lemma {:induction false} DependenciesNeverTooDeep(env: Env, base: Resolver, members: seq<Member>, depth: nat,
        st: State, h: int)
    requires forall p :: 0 <= p < |members| && IsSchema(members[p].value) ==>
      Nests(env, base, members[p].value, depth, h)
    ensures CompileDependencyList(env, base, members, depth, st).1.tooDeep == st.tooDeep
    decreases Remaining(depth), 6, |members|
  {
    hide NestsWithin, CompileNode;
    if members != [] {
      var s := members[0].value;
      if IsSchema(s) {
        NodeNeverTooDeep(env, base, s, depth, st, h);
      }
      var st1 := if IsSchema(s) then CompileNode(env, base, s, depth, st).1 else st;
      DependenciesNeverTooDeep(env, base, members[1..], depth, st1, h);
    }
  }

  // ----- a well-formed schema nested beyond the allowance does -----

  /** A schema fits the `k` edges left of the allowance. */
  predicate Fits(env: Env, open: set<string>, base: Resolver, s: Json, k: int) {
    k >= 0 && WellFormed(env, open, base, s, k)
  }

  /** A schema that is well formed at some nesting can only fail to compile for its depth. */
  lemma FailureIsDepth(env: Env, open: set<string>, base: Resolver, s: Json, depth: nat, st: State, h: nat)
    requires WellFormed(env, open, base, s, h)
    ensures var (r, st') := CompileNode(env, base, s, depth, st);
      r.Err? ==> st'.tooDeep > st.tooDeep
  {
  }

  lemma {:induction false} FirstFalse(oks: seq<bool>) returns (x: nat)
    requires false in oks
    ensures x < |oks| && !oks[x] && forall y :: 0 <= y < x ==> oks[y]
  {
    if !oks[0] {
      x := 0;
    } else {
      x := FirstFalse(oks[1..]);
      x := x + 1;
    }
  }

  /** A schema compiled at `depth` that does not fit the `k` edges left of the allowance runs into the limit. */
  lemma {:induction false} NodeTooDeep(env: Env, open: set<string>, base: Resolver, s: Json, depth: nat, st: State,
        h: nat, k: int)
    requires Sound(st) && st.keys == open && WellFormed(env, open, base, s, h)
    requires depth + 2 * k == MAX_DEPTH && !Fits(env, open, base, s, k)
    ensures CompileNode(env, base, s, depth, st).1.tooDeep > st.tooDeep
    decreases Remaining(depth), 4
  {
    hide EntryWellFormed, EntryFits, CompileEntries, Sound;
    if k >= 0 {
      var j := DeepEntry(env, open, base, s.members, k);
      EntriesTooDeep(env, open, base, s.members, 0, j, depth, st, h, k);
    }
  }

  /** The first entry that does not fit. */
  lemma DeepEntry(env: Env, open: set<string>, base: Resolver, schema: seq<Member>, k: nat) returns (j: nat)
    requires !WellFormed(env, open, base, Obj(schema), k)
    ensures j < |schema| && !EntryFits(env, open, base, schema, j, k)
    ensures forall q :: 0 <= q < j ==> EntryFits(env, open, base, schema, q, k)
  {
    hide EntryWellFormed, Active;
    var x :| 0 <= x < |schema| &&
      !EntryWellFormed(env, open, base, schema, Active(env.draft, schema, schema[x].key), schema[x].value, k);
    var oks := seq(|schema|, q requires 0 <= q < |schema| => EntryFits(env, open, base, schema, q, k));
    assert !oks[x];
    j := FirstFalse(oks);
    forall q | 0 <= q < j ensures EntryFits(env, open, base, schema, q, k) {
      assert oks[q];
    }
  }

  predicate EntryFits(env: Env, open: set<string>, base: Resolver, schema: seq<Member>, j: nat, k: nat)
    requires j < |schema|
  {
    EntryWellFormed(env, open, base, schema, Active(env.draft, schema, schema[j].key), schema[j].value, k)
  }

  lemma EntryOfWellFormed(env: Env, open: set<string>, base: Resolver, schema: seq<Member>, j: nat, h: nat)
    requires WellFormed(env, open, base, Obj(schema), h) && j < |schema|
    ensures EntryFits(env, open, base, schema, j, h)
  {
  }

  /** The entries before the first that does not fit leave the references in progress as they are. */
  lemma {:induction false} EntriesTooDeep(env: Env, open: set<string>, base: Resolver, schema: seq<Member>, from: nat,
        j: nat, depth: nat, st: State, h: nat, k: nat)
    requires Sound(st) && st.keys == open && from <= j < |schema|
    requires WellFormed(env, open, base, Obj(schema), h) && depth + 2 * k == MAX_DEPTH
    requires !EntryFits(env, open, base, schema, j, k)
    requires forall q :: from <= q < j ==> EntryFits(env, open, base, schema, q, k)
    ensures CompileEntries(env, base, schema, from, depth, st).1.tooDeep > st.tooDeep
    decreases Remaining(depth), 3, |schema| - from
  {
    hide EntryWellFormed, WellFormed, CompileKeyword, Active;
    var kw, arg := Active(env.draft, schema, schema[from].key), schema[from].value;
    KeywordAdvances(env, base, schema, kw, arg, depth, st);
    var (_, st1) := CompileKeyword(env, base, schema, kw, arg, depth, st);
    EntriesAdvance(env, base, schema, from + 1, depth, st1);
    if from == j {
      EntryOfWellFormed(env, open, base, schema, from, h);
      KeywordTooDeep(env, open, base, schema, kw, arg, depth, st, h, k);
    } else {
      assert EntryFits(env, open, base, schema, from, k);
      KeywordCompiles(true, k + 1, env, open, base, schema, kw, arg, depth, st, k);
      EntriesTooDeep(env, open, base, schema, from + 1, j, depth, st1, h, k);
    }
  }

  lemma {:induction false} KeywordTooDeep(env: Env, open: set<string>, base: Resolver, schema: seq<Member>, kw: Keyword,
        arg: Json, depth: nat, st: State, h: nat, k: nat)
    requires Sound(st) && st.keys == open && depth + 2 * k == MAX_DEPTH
    requires EntryWellFormed(env, open, base, schema, kw, arg, h)
    requires !EntryWellFormed(env, open, base, schema, kw, arg, k)
    ensures CompileKeyword(env, base, schema, kw, arg, depth, st).1.tooDeep > st.tooDeep
    decreases Remaining(depth), 2
  {
    hide WellFormed, EntryWellFormed, Visited, Sound, CompileKeyword, CompileAll, CompileDependencyList;
    VisitedAll(env, open, base, schema, kw, arg, h);
    if kw.Reference? {
      ReferenceTooDeep(env, open, base, schema, kw.kind, arg, depth, st, h, k);
    } else if kw == Dependencies {
      var p := DeepDependency(env, open, base, schema, arg, h, k);
      DependenciesVisit(env, base, schema, arg, depth, st);
      DependenciesTooDeep(env, open, base, arg.members, p, depth + 2, st, h - 1, k - 1);
    } else {
      hide Subschemas;
      var x := DeepSubschema(env, open, base, schema, kw, arg, h, k);
      var subs := Subschemas(env.draft, schema, kw, arg);
      KeywordVisits(env, base, schema, kw, arg, depth, st);
      AllTooDeep(env, open, base, subs, x, depth + 2, st, h - 1, k - 1);
    }
  }

  /** The first subschema that does not fit. */
  lemma DeepSubschema(env: Env, open: set<string>, base: Resolver, schema: seq<Member>, kw: Keyword, arg: Json, h: nat,
        k: nat)
      returns (x: nat)
    requires EntryWellFormed(env, open, base, schema, kw, arg, h) && !kw.Reference?
    requires !EntryWellFormed(env, open, base, schema, kw, arg, k)
    ensures var subs := Subschemas(env.draft, schema, kw, arg);
      && x < |subs| && !Fits(env, open, base, subs[x], k - 1)
      && (forall y :: 0 <= y < x ==> Fits(env, open, base, subs[y], k - 1))
      && h > 0 && forall y :: 0 <= y < |subs| ==> WellFormed(env, open, base, subs[y], h - 1)
  {
    hide ShapeOk, WellFormed, Subschemas;
    var subs := Subschemas(env.draft, schema, kw, arg);
    var oks := seq(|subs|, y requires 0 <= y < |subs| => Fits(env, open, base, subs[y], k - 1));
    var at :| 0 <= at < |subs| && !Fits(env, open, base, subs[at], k - 1);
    assert !oks[at];
    x := FirstFalse(oks);
    forall y | 0 <= y < x ensures Fits(env, open, base, subs[y], k - 1) {
      assert oks[y];
    }
    assert WellFormed(env, open, base, subs[x], h - 1);
  }

  predicate DependencyFits(env: Env, open: set<string>, base: Resolver, m: Member, k: int) {
    IsSchema(m.value) ==> Fits(env, open, base, m.value, k)
  }

  /** The first entry of `dependencies` whose schema does not fit. */
  lemma DeepDependency(env: Env, open: set<string>, base: Resolver, schema: seq<Member>, arg: Json, h: nat, k: nat)
      returns (p: nat)
    requires EntryWellFormed(env, open, base, schema, Dependencies, arg, h)
    requires !EntryWellFormed(env, open, base, schema, Dependencies, arg, k)
    ensures arg.Obj? && p < |arg.members| && !DependencyFits(env, open, base, arg.members[p], k - 1)
    ensures forall q :: 0 <= q < p ==> DependencyFits(env, open, base, arg.members[q], k - 1)
  {
    hide WellFormed;
    var ms := arg.members;
    var x := DeepSubschema(env, open, base, schema, Dependencies, arg, h, k);
    var subs := Subschemas(env.draft, schema, Dependencies, arg);
    assert subs[x] in subs;
    var at :| 0 <= at < |ms| && Values(ms)[at] == subs[x];
    var oks := seq(|ms|, q requires 0 <= q < |ms| => DependencyFits(env, open, base, ms[q], k - 1));
    assert !oks[at];
    p := FirstFalse(oks);
    forall q | 0 <= q < p ensures DependencyFits(env, open, base, ms[q], k - 1) {
      assert oks[q];
    }
  }

  /** Nothing stops a well-formed entry short of its subschemas. */
  lemma VisitedAll(env: Env, open: set<string>, base: Resolver, schema: seq<Member>, kw: Keyword, arg: Json, h: nat)
    requires EntryWellFormed(env, open, base, schema, kw, arg, h)
    ensures kw != Dependencies && !kw.Reference? ==>
      Visited(env, schema, kw, arg) == Subschemas(env.draft, schema, kw, arg)
    ensures kw == Dependencies ==> arg.Obj?
    ensures kw == Dependencies ==> forall p :: 0 <= p < |arg.members| && IsSchema(arg.members[p].value) ==>
      h > 0 && WellFormed(env, open, base, arg.members[p].value, h - 1)
  {
    var subs := Subschemas(env.draft, schema, kw, arg);
    if kw == PatternProperties {
      AllPatternsLead(env, arg.members);
      assert arg.members[..|arg.members|] == arg.members;
    } else if kw == AdditionalProperties {
      assert !arg.Bool? ==> WellFormed(env, open, base, subs[0], h - 1);
    } else if kw == Dependencies {
      forall p | 0 <= p < |arg.members| && IsSchema(arg.members[p].value)
        ensures h > 0 && WellFormed(env, open, base, arg.members[p].value, h - 1)
      {
        assert Values(arg.members)[p] in Values(arg.members);
        assert arg.members[p].value in subs;
      }
    }
  }

  lemma {:induction false} AllPatternsLead(env: Env, members: seq<Member>)
    requires forall p :: 0 <= p < |members| ==> env.regexOk(members[p].key)
    ensures LeadingPatterns(env, members) == |members|
  {
    if members != [] {
      AllPatternsLead(env, members[1..]);
    }
  }

  lemma {:induction false} ReferenceTooDeep(env: Env, open: set<string>, base: Resolver, schema: seq<Member>,
        kind: RefKind, arg: Json, depth: nat, st: State, h: nat, k: nat)
    requires Sound(st) && st.keys == open && depth + 2 * k == MAX_DEPTH
    requires EntryWellFormed(env, open, base, schema, Reference(kind), arg, h)
    requires !EntryWellFormed(env, open, base, schema, Reference(kind), arg, k)
    ensures CompileKeyword(env, base, schema, Reference(kind), arg, depth, st).1.tooDeep > st.tooDeep
    decreases Remaining(depth), 1
  {
    hide WellFormed, Sound, CompileNode;
    var target := env.lookup(kind, base, arg.s).value;
    var key := CycleKey(target.base, arg.s);
    MarkedSound(st, key);
    NodeTooDeep(env, open + {key}, target.base, target.schema, depth + 2, st.Mark(key), h - 1, k - 1);
  }

  lemma {:induction false} AllTooDeep(env: Env, open: set<string>, base: Resolver, subs: seq<Json>, x: nat, depth: nat,
        st: State, h: nat, k: int)
    requires Sound(st) && st.keys == open && x < |subs|
    requires forall y :: 0 <= y < |subs| ==> WellFormed(env, open, base, subs[y], h)
    requires depth + 2 * k == MAX_DEPTH && !Fits(env, open, base, subs[x], k)
    requires forall y :: 0 <= y < x ==> Fits(env, open, base, subs[y], k)
    ensures CompileAll(env, base, subs, depth, st).1.tooDeep > st.tooDeep
    decreases Remaining(depth), 5, |subs|
  {
    hide WellFormed, CompileNode;
    FailureIsDepth(env, open, base, subs[0], depth, st, h);
    NodeAdvances(env, base, subs[0], depth, st);
    var (r, st1) := CompileNode(env, base, subs[0], depth, st);
    if x == 0 {
      NodeTooDeep(env, open, base, subs[0], depth, st, h, k);
    } else {
      NodeCompiles(true, k + 1, env, open, base, subs[0], depth, st, k);
      AllTooDeep(env, open, base, subs[1..], x - 1, depth, st1, h, k);
    }
    if r.Ok? {
      AllAdvance(env, base, subs[1..], depth, st1);
    }
  }

  lemma {:induction false} DependenciesTooDeep(env: Env, open: set<string>, base: Resolver, members: seq<Member>,
        p: nat,
        depth: nat, st: State, h: nat, k: int)
    requires Sound(st) && st.keys == open && p < |members| && !DependencyFits(env, open, base, members[p], k)
    requires forall q :: 0 <= q < |members| && IsSchema(members[q].value) ==>
      WellFormed(env, open, base, members[q].value, h)
    requires depth + 2 * k == MAX_DEPTH
    requires forall q :: 0 <= q < p ==> DependencyFits(env, open, base, members[q], k)
    ensures CompileDependencyList(env, base, members, depth, st).1.tooDeep > st.tooDeep
    decreases Remaining(depth), 6, |members|
  {
    hide WellFormed, CompileNode;
    var s := members[0].value;
    var st1 := if IsSchema(s) then CompileNode(env, base, s, depth, st).1 else st;
    NodeAdvances(env, base, s, depth, st);
    if p == 0 {
      NodeTooDeep(env, open, base, s, depth, st, h, k);
    } else {
      if IsSchema(s) {
        assert DependencyFits(env, open, base, members[0], k);
        NodeCompiles(true, k + 1, env, open, base, s, depth, st, k);
      }
      DependenciesTooDeep(env, open, base, members[1..], p - 1, depth, st1, h, k);
    }
    DependenciesAdvance(env, base, members[1..], depth, st1);
  }
}
