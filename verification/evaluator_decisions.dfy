/** Exactly which kinds of validator have to be absent for an evaluator to decide what the tree means. */
module EvaluatorDecisions {
  import opened JsonValues
  import opened SchemaTree
  import opened TreeFeatures
  import opened Paths
  import opened Evaluators
  import opened EvaluatorResults
  import opened EvaluatorFrontier
  import opened EvaluatorWidening

  // ----- an instance that every evaluator passes and the tree does not accept -----

  /** `additionalProperties` beside nothing concerns every member. */
  lemma ExtraAccepts(env: Env, t: Node, members: seq<Member>)
    ensures Satisfies(env, AdditionalPropertiesV(Some(ExtraSchema(t)), {}, []), Obj(members))
      <==> forall k :: 0 <= k < |members| ==> Accepts(env, t, members[k].value)
  {
    hide Accepts;
    var v := AdditionalPropertiesV(Some(ExtraSchema(t)), {}, []);
    assert forall name :: IsAdditional(env, v, name);
  }

  lemma OpenAccepts(env: Env, i: Json)
    ensures Accepts(env, OPEN, i) <==> i.Obj?
  {
    var open, only := OPEN.validators[0], OPEN.validators[1];
    assert Satisfies(env, open, i) by {
      if i.Obj? {
        ExtraAccepts(env, AlwaysValid, i.members);
      }
    }
    assert Satisfies(env, only, i) <==> i.Obj?;
    assert forall k :: 0 <= k < |OPEN.validators| ==> OPEN.validators[k] == open || OPEN.validators[k] == only;
  }

  lemma ReopenedAccepts(env: Env, name: string, other: string, v: Json, w: Json)
    ensures Accepts(env, REOPENED, Nested(name, other, v, w)) <==> w.Obj?
  {
    hide Accepts, Satisfies, OPEN;
    var members := Nested(name, other, v, w).members;
    SoleAccepts(env, REOPENED.validators[0], Obj(members));
    ExtraAccepts(env, OPEN, members);
    OpenAccepts(env, members[0].value);
    OpenAccepts(env, w);
    assert members[1].value == w;
  }

  lemma SoleAccepts(env: Env, v: Validator, i: Json)
    ensures Accepts(env, Validators([v]), i) <==> Satisfies(env, v, i)
  {
    assert Validators([v]).validators[0] == v;
  }

  /** `{"a": {"b": null}, "b": null}` */
  const MISJUDGED: Json := Nested("a", "b", Null, Null)

  lemma Misjudged(mode: Mode, env: Env, path: seq<Segment>)
    ensures Run(mode, env, REOPENED, MISJUDGED, path, {}).errors == [] && !Accepts(env, REOPENED, MISJUDGED)
    ensures WellKeyed(MISJUDGED)
  {
    hide Run, Accepts;
    ReopenedRun(mode, env, "a", "b", Null, Null, path, {});
    ReopenedAccepts(env, "a", "b", Null, Null);
    assert WellKeyed(Obj([Member("b", Null)]));
  }

  lemma ReopenedLacks(ban: set<Feature>)
    requires Additional !in ban
    ensures Lacks(REOPENED, ban) && Lacks(AlwaysValid, ban) && Lacks(AlwaysInvalid, ban)
  {
    assert Lacks(AlwaysValid, ban);
    assert LacksV(OPEN.validators[0], ban);
    assert Lacks(OPEN, ban);
  }

  // ----- and, under a negative keyword, one that every evaluator refuses although the tree accepts it -----

  predicate Refused(mode: Mode, env: Env, t: Node, i: Json) {
    Accepts(env, t, i) && Run(mode, env, t, i, [], {}).errors != []
  }

  /** `not`, `oneOf` beside `true`, `if` with `then: false`, and `contains` with the bounds 0 and 0. */
  function Negative(feature: Feature): Validator
    requires feature in NEGATIVE
  {
    if feature == Negation then NotV(REOPENED)
    else if feature == Exclusive then OneOfV([REOPENED, AlwaysValid])
    else if feature == Conditional then IfThenElse(REOPENED, Some(AlwaysInvalid), None)
    else ContainsV(REOPENED, 0, Some(0))
  }

  function NegativeInstance(feature: Feature): Json {
    if feature == CountLimit then Arr([MISJUDGED]) else MISJUDGED
  }

  lemma NegativeAccepts(env: Env, feature: Feature)
    requires feature in NEGATIVE && !Accepts(env, REOPENED, MISJUDGED)
    ensures Satisfies(env, Negative(feature), NegativeInstance(feature))
  {
    hide REOPENED, MISJUDGED;
    var v, i := Negative(feature), NegativeInstance(feature);
    if feature == Exclusive {
      assert AcceptingSchemas(env, v.schemas, i) == {1};
    } else if feature == Conditional {
      assert AcceptsOptional(env, None, i);
    } else if feature == CountLimit {
      assert AcceptedItems(env, REOPENED, i.items) == {};
    }
  }

  lemma NegativeFails(mode: Mode, env: Env, feature: Feature)
    requires feature in NEGATIVE
    requires forall path :: Run(Quick, env, REOPENED, MISJUDGED, path, {}).errors == []
    ensures Apply(mode, env, Negative(feature), NegativeInstance(feature), [], {}).errors != []
  {
    var v, i := Negative(feature), NegativeInstance(feature);
    if feature == Exclusive {
      SecondMatches(env, i);
    } else if feature == CountLimit {
      OnlyItemMatches(env);
    } else if feature == Conditional {
      var r := Run(Quick, env, REOPENED, i, [], {});
      assert Run(mode, env, AlwaysInvalid, i, [], r.marks).errors != [];
    }
  }

  lemma SecondMatches(env: Env, i: Json)
    requires Run(Quick, env, REOPENED, i, [], {}).errors == []
    ensures TryEach(env, [REOPENED, AlwaysValid], 0, i, [], {}).0 == 2
  {
    hide REOPENED;
    var ts := [REOPENED, AlwaysValid];
    assert TryEach(env, ts, 2, i, [], {}).0 == 0;
    assert TryEach(env, ts, 1, i, [], {}).0 == 1;
  }

  lemma OnlyItemMatches(env: Env)
    requires forall path :: Run(Quick, env, REOPENED, MISJUDGED, path, {}).errors == []
    ensures CountMatches(env, REOPENED, [MISJUDGED], 0, [], {}).0 == 1
  {
    var r := Run(Quick, env, REOPENED, MISJUDGED, [], {});
    assert CountMatches(env, REOPENED, [MISJUDGED], 1, [], r.marks).0 == 0;
  }

  lemma NegativeLacks(feature: Feature, ban: set<Feature>)
    requires feature in NEGATIVE - ban && Additional !in ban
    ensures Lacks(Validators([Negative(feature)]), ban)
  {
    ReopenedLacks(ban);
    var v := Negative(feature);
    var cs := Children(v);
    assert forall k :: 0 <= k < |cs| ==> cs[k] == REOPENED || cs[k] == AlwaysValid || cs[k] == AlwaysInvalid;
    hide REOPENED;
    assert FeaturesOf(v) == {feature};
    assert LacksV(v, ban);
  }

  lemma NegativeRefused(mode: Mode, env: Env, feature: Feature, ban: set<Feature>)
    requires feature in NEGATIVE - ban && Additional !in ban
    ensures Refused(mode, env, Validators([Negative(feature)]), NegativeInstance(feature))
    ensures Lacks(Validators([Negative(feature)]), ban) && WellKeyed(NegativeInstance(feature))
  {
    hide Run, Apply, Accepts, Satisfies, Lacks, Negative;
    forall path ensures Run(Quick, env, REOPENED, MISJUDGED, path, {}).errors == [] {
      Misjudged(Quick, env, path);
    }
    Misjudged(mode, env, []);
    NegativeAccepts(env, feature);
    NegativeFails(mode, env, feature);
    SoleAccepts(env, Negative(feature), NegativeInstance(feature));
    SoleValidator(mode, env, Negative(feature), NegativeInstance(feature), [], {});
    NegativeLacks(feature, ban);
  }

  // ----- results -----

  /** On every tree without the banned validators, the evaluator passes only what the tree accepts. */
  ghost predicate PassesOnlyAccepted(mode: Mode, env: Env, ban: set<Feature>) {
    forall t, i | Lacks(t, ban) && WellKeyed(i) && Run(mode, env, t, i, [], {}).errors == [] :: Accepts(env, t, i)
  }

  /** And it passes all that the tree accepts. */
  ghost predicate PassesAllAccepted(mode: Mode, env: Env, ban: set<Feature>) {
    forall t, i | Lacks(t, ban) && WellKeyed(i) && Accepts(env, t, i) :: Run(mode, env, t, i, [], {}).errors == []
  }

  lemma DecidesWithoutAdditional(mode: Mode, env: Env, ban: set<Feature>)
    requires Additional in ban
    ensures PassesOnlyAccepted(mode, env, ban) && PassesAllAccepted(mode, env, ban)
  {
    hide Run, Accepts, Lacks, WellKeyed;
    forall t, i | Lacks(t, ban) && WellKeyed(i)
      ensures Run(mode, env, t, i, [], {}).errors == [] <==> Accepts(env, t, i)
    {
      LacksFewer(t, {Additional}, ban);
      MarksDoNotMatter(mode, env, t, i, [], {});
    }
  }

  lemma WidensWithoutNegative(mode: Mode, env: Env, ban: set<Feature>)
    requires NEGATIVE <= ban
    ensures PassesAllAccepted(mode, env, ban)
  {
    hide Run, Accepts, Lacks, WellKeyed;
    forall t, i | Lacks(t, ban) && WellKeyed(i) && Accepts(env, t, i)
      ensures Run(mode, env, t, i, [], {}).errors == []
    {
      LacksFewer(t, NEGATIVE, ban);
      AcceptedRunsClean(mode, env, t, i, [], {});
    }
  }

  /** Each evaluator passes only what the tree accepts, on every tree without some kinds of validator, iff
      `additionalProperties` is among them. It passes all the tree accepts iff that is, or all of `not`, `oneOf`, the
      conditional and upper `contains` bounds are. */
  lemma DecidesMeaningIff(mode: Mode, env: Env, ban: set<Feature>)
    ensures PassesOnlyAccepted(mode, env, ban) <==> Additional in ban
    ensures PassesAllAccepted(mode, env, ban) <==> Additional in ban || NEGATIVE <= ban
  {
    hide Run, Accepts, Lacks, WellKeyed, REOPENED, MISJUDGED;
    if Additional in ban {
      DecidesWithoutAdditional(mode, env, ban);
    } else {
      Misjudged(mode, env, []);
      ReopenedLacks(ban);
      if NEGATIVE <= ban {
        WidensWithoutNegative(mode, env, ban);
      } else {
        var feature :| feature in NEGATIVE && feature !in ban;
        NegativeRefused(mode, env, feature, ban);
      }
    }
  }
}
