/** Which marks a tree may leave, and the trees on which marks cannot mislead `additionalProperties`. */
module EvaluatorCoherence {
  import opened SchemaTree
  import opened TreeFeatures

  /** The names a validator itself may mark as evaluated. */
  predicate OwnMark(env: Env, v: Validator, name: string) {
    match v
    case PropertiesV(props) => exists p :: 0 <= p < |props| && props[p].name == name
    case PatternPropertiesV(props) => exists p :: 0 <= p < |props| && env.Matches(props[p].name, name)
    case AdditionalPropertiesV(others, _, _) => others.Some? && IsAdditional(env, v, name)
    case _ => false
  }

  /** The names a run of the tree may leave marked, beyond those marked before. */
  predicate MayMark(env: Env, t: Node, name: string)
    decreases t, 0
  {
    t.Validators? && exists k :: 0 <= k < |t.validators| && MayMarkBy(env, t.validators[k], name)
  }

  predicate MayMarkBy(env: Env, v: Validator, name: string)
    decreases v, 1
  {
    OwnMark(env, v, name) || (!v.NotV? && ChildMark(env, v, name))
  }

  predicate ChildMark(env: Env, v: Validator, name: string)
    decreases v, 0
  {
    exists k :: 0 <= k < |Children(v)| && MayMark(env, Children(v)[k], name)
  }

  /** What may be marked once the validator has run, when at most `d` was marked before. */
  ghost function After(env: Env, v: Validator, d: iset<string>): iset<string> {
    iset n | n in d || MayMarkBy(env, v, n)
  }

  /** With at most `d` marked when the tree is entered, no `additionalProperties` ever meets a marked name that it
      would have to check: neither one marked on entry, nor one marked by what runs before it or below it. */
  ghost predicate Coherent(env: Env, t: Node, d: iset<string>)
    decreases t, 0
  {
    t.Validators? ==> CoherentFrom(env, t.validators, 0, d)
  }

  ghost predicate CoherentFrom(env: Env, vs: seq<Validator>, k: nat, d: iset<string>)
    requires k <= |vs|
    decreases vs, |vs| - k
  {
    k == |vs| || (CoherentBy(env, vs[k], d) && CoherentFrom(env, vs, k + 1, After(env, vs[k], d)))
  }

  ghost predicate CoherentBy(env: Env, v: Validator, d: iset<string>)
    decreases v, 1
  {
    && (forall k :: 0 <= k < |Children(v)| ==> Coherent(env, Children(v)[k], After(env, v, d)))
    && (v.AdditionalPropertiesV? && v.others.Some? ==>
          forall n :: n in d || ChildMark(env, v, n) ==> !IsAdditional(env, v, n))
  }

  /** A tree without `additionalProperties` is coherent whatever was marked. */
  lemma {:induction false} NoAdditionalIsCoherent(env: Env, t: Node, d: iset<string>)
    requires Lacks(t, {Additional})
    ensures Coherent(env, t, d)
    decreases t, 0
  {
    if t.Validators? {
      NoAdditionalFrom(env, t.validators, 0, d);
    }
  }

  lemma {:induction false} NoAdditionalFrom(env: Env, vs: seq<Validator>, k: nat, d: iset<string>)
    requires k <= |vs| && forall x :: 0 <= x < |vs| ==> LacksV(vs[x], {Additional})
    ensures CoherentFrom(env, vs, k, d)
    decreases vs, |vs| - k
  {
    if k < |vs| {
      var v := vs[k];
      assert Additional !in FeaturesOf(v);
      forall x | 0 <= x < |Children(v)| ensures Coherent(env, Children(v)[x], After(env, v, d)) {
        NoAdditionalIsCoherent(env, Children(v)[x], After(env, v, d));
      }
      NoAdditionalFrom(env, vs, k + 1, After(env, v, d));
    }
  }

  ghost predicate MarksNothing(env: Env, t: Node) {
    forall n :: !MayMark(env, t, n)
  }

  /** `{"additionalProperties": ..., ...}`: an object schema whose `additionalProperties` comes first, over a
      subschema that marks nothing, is coherent on a fresh context when the rest has no `additionalProperties`. */
  lemma ClosedRootIsCoherent(env: Env, closed: Validator, rest: seq<Validator>)
    requires closed.AdditionalPropertiesV? && (closed.others.Some? && closed.others.value.ExtraSchema? ==>
      Lacks(closed.others.value.node, {Additional}) && MarksNothing(env, closed.others.value.node))
    requires forall x :: 0 <= x < |rest| ==> LacksV(rest[x], {Additional})
    ensures Coherent(env, Validators([closed] + rest), iset{})
  {
    var vs := [closed] + rest;
    var d := After(env, closed, iset{});
    forall k | 0 <= k < |Children(closed)| ensures Coherent(env, Children(closed)[k], d) {
      NoAdditionalIsCoherent(env, Children(closed)[k], d);
    }
    assert forall n :: !ChildMark(env, closed, n);
    assert CoherentBy(env, closed, iset{});
    RestCoherent(env, vs, 1, d);
  }

  lemma {:induction false} RestCoherent(env: Env, vs: seq<Validator>, k: nat, d: iset<string>)
    requires k <= |vs| && forall x :: k <= x < |vs| ==> LacksV(vs[x], {Additional})
    ensures CoherentFrom(env, vs, k, d)
  {
    NoAdditionalFrom(env, vs[k..], 0, d);
    SuffixCoherent(env, vs, k, 0, d);
  }

  lemma {:induction false} SuffixCoherent(env: Env, vs: seq<Validator>, k: nat, j: nat, d: iset<string>)
    requires k + j <= |vs| && CoherentFrom(env, vs[k..], j, d)
    ensures CoherentFrom(env, vs, k + j, d)
    decreases |vs| - k - j
  {
    hide CoherentBy;
    if k + j < |vs| {
      SuffixCoherent(env, vs, k, j + 1, After(env, vs[k + j], d));
    }
  }
}
