# Proofs about the platform's foundation crates

A Dafny model of four parts of the repository, with proofs of what they promise. `dafny verify dfyconfig.toml` checks
everything.

## The JSON Schema compiler and its evaluators (`foundation_jsonschema`)

- `json_values.dfy`, `keywords.dfy`, `schema_tree.dfy`, `tree_features.dfy`: JSON documents, drafts and vocabularies, the
  compiled validator tree (one constructor for each validator type) and the set of instances a tree accepts.
- `schema_meaning.dfy`: direct recursive evaluation of a raw schema (`Eval`), the reference the compiler is measured
  against. `Eval(n, ...)` unfolds references `n` schema objects deep and lets anything below pass, so cyclic reference
  graphs are covered. Also what the results ask of a schema, always following the references that occur: `WellFormed`
  (nothing is dropped for its shape, nesting is bounded, no chain of references repeats a cycle key), `NestsWithin`
  (nesting alone) and `Avoids` (some kinds of keyword do not occur).
- `compiler.dfy`: the compiler as functions that thread the shared in-progress set. `schema_compiler.dfy`: the same
  compiler as it runs, with contexts that share one mutable set, loops that push and early returns; every method is proved
  equal to the function of its name.
- `compiler_meaning.dfy`, `compiler_correctness.dfy`, `compiler_results.dfy`: one induction over the compiler. Strict for
  well-formed schemas (the tree accepts exactly what the schema means, references included); one-sided for schemas
  without `not`, `oneOf`, `if` and upper `contains` bounds, over any reference graph, cyclic or not (the tree only
  widens).
- `compiler_state.dfy`, `compiler_depth.dfy`, `compiler_cuts.dfy`, `compiler_features.dfy`: the in-progress set, the
  depth limit, when a reference is cut, and that compilation introduces no kind of validator the schema does not use.
- `evaluators.dfy`: `is_valid`, `validate` and `iter_errors` over the tree, each threading the set of property names marked
  as evaluated. That set carries no instance path and is read by `additionalProperties`, which is where the three part
  ways. `schema_node.dfy`: the evaluators as they run: the loops of `node.rs`, of `validator.rs` and of every keyword
  validator over one mutable context; every method is proved equal to its function.
- `evaluator_report.dfy`, `evaluator_meaning.dfy`, `evaluator_coherence.dfy`, `evaluator_agreement.dfy`,
  `evaluator_verdicts.dfy`, `evaluator_widening.dfy`, `evaluator_results.dfy`: a reference report that ignores the marks;
  the trees on which marks cannot mislead (`Coherent`); agreement on those; and two evaluators side by side from the same
  marks.
- `evaluator_frontier.dfy`, `schema_families.dfy`: exactly which kinds of validator have to be absent for two evaluators
  to agree, with the raw schemas that show it. `evaluator_decisions.dfy`, `schema_decisions.dfy`: the same for one
  evaluator against the meaning, of a tree and of a raw schema. `schema_validation.dfy`: from raw schema to answer.
- `evaluator_locations.dfy`: every located error leads to a value of the instance that has the fault it names.
- `keyword_table.dfy`, `schema_composition.dfy`, `schema_references.dfy`: the keywords by their literal names, draft by
  draft. What `{name: argument}` passes is said in terms of the instance and the argument alone, or of what the compiled
  subschemas accept, so nothing here rests on the reading of names that the compiler and `Eval` share. Also which
  references are keyed alike, which siblings of `$ref` count, and the base URI of a document.
- `meta_validation.dfy`, `draft4_meta_schema.dfy`: `meta.rs` over the embedded meta-schemas.

Termination of `CompileNode` for every schema and every reference graph is part of its definition: each nested call runs
two deeper, once for `push_keyword` in the keyword loop and once in the keyword's own compiler.

What does not hold of this code, and what holds instead:

- The three evaluators do not always agree. `properties` marks before its subschema in `validate` and after it in the
  other two; `patternProperties` marks after it in `iter_errors` and before it in the other two; and the marks of an outer
  object are still set when an inner `additionalProperties` runs. `ValidityAndErrorsAgreeIff`,
  `ValidityAndValidateAgreeIff` and `ValidateAndErrorsAgreeIff` say exactly which kinds of validator have to be absent, for
  each pair and each direction. The families in `schema_families.dfy` are the schemas behind the failing half, compiled
  in every draft: among them one that is invalid with no errors (`NotClosedSchema`), and one that is so without any
  negative keyword (`ReopenedPatternSchema`).
- For the same reason the evaluators do not always decide what the schema means, and all three may be wrong together:
  `{"additionalProperties": {"additionalProperties": true, "type": "object"}}` compiles in every draft to a tree that
  every evaluator passes on `{"a": {"b": null}, "b": null}`, although the value of the outer `b` is no object
  (`ReopenedSchemaMisjudged`). Each evaluator passes only what the tree accepts, on every tree without some kinds of
  validator, iff `additionalProperties` is among those kinds. It passes all that the tree accepts iff that is among
  them, or all of `not`, `oneOf`, the conditional and upper `contains` bounds are (`DecidesMeaningIff`). On raw schemas:
  an evaluator decides every well-formed schema without some kinds of keyword iff `additionalProperties` is among them
  (`DecidesSchemasIff`). With `additionalProperties` in the schema, it is enough that the tree is coherent
  (`EvaluatorsAgree`), such as that of an object schema whose only `additionalProperties` comes first, over a subschema
  that marks nothing.
- The error of `validate` is not always the first one `iter_errors` yields: an unmatched `anyOf` is reported by `validate`
  as its first alternative's error (`AnyOfErrorsAgreeIffEmpty`). `FirstErrorIff` says exactly which kinds of validator
  have to be absent.
- `validate_schema_with_draft` ends in a fall-through that answers `Ok`. It is unreachable over any meta-schema that uses
  no `patternProperties` (`MetaSchemaDecides`); a document that mentions the word as the name of a property only uses none
  (`PatternFreeAvoids`). The embedded document of draft 4 is written out and the whole statement proved of it
  (`Draft4Decides`); the documents of the later drafts are not written out.
- A reference graph without cycles may still be cut. The in-progress set holds keys, and a reference that is not a bare
  fragment is its own key, so equal relative texts under different base URIs collide: `RepeatedKeyIsCut` has the chain
  of two references whose tree accepts everything whatever the second one asks. For every schema and graph, a reference
  is cut only if some chain of references within the depth allowance repeats a key, or some target failed to compile and
  left its key behind (`CutOnlyIfKeyRepeats`). Where nothing is dropped and the chains, followed to the first key they
  repeat, fit the allowance, a reference is cut iff some chain repeats a key (`CutIffKeyRepeats`). Where none does, the
  tree is exact (`CompilationPreservesMeaning`).
- The vocabulary of draft 4 in the code lacks `minProperties` and `maxProperties`, which that draft has; the model follows
  the code. `keywords/mod.rs` describes `validate` as the first error only and the methods as three levels of the same
  answer; here too the model follows the code.

## `SpinMutex` (`foundation_nostd`)

`spin_mutex.dfy`: an interleaving step system over any number of threads and one byte, with a weak exchange that may fail
spuriously. Nothing in this file ever sets the poison bit, so a run starts from an arbitrary unlocked byte. The bounded
call may answer WouldBlock although nobody else ever owned the lock (`SpuriousWouldBlock`); over all runs, one that does
so with a limit above 0 either saw another owner during its last attempt or had that attempt fail spuriously
(`GiveUpHasCause`).

## Authentication state (`foundation_auth`)

- `base32.dfy`: `to_base32` with its 40-bit chunks in a 64-bit accumulator, against section 6 of RFC 4648 read bit by bit.
- `backup_codes.dfy`: the constant-time comparison and single-use codes over runs.
- `sessions.dfy`: token signing, the session store, sliding expiry and revocation over runs on a clock that never runs
  backwards. `get_session` reads the clock twice, once to judge the session and once to extend it; both instants are
  parameters. Neither expiry result needs the sliding window to be at most the maximal age. The configuration calls the
  maximal age an absolute maximum. That is so at every instant of every run iff no call has extended the session after
  its creation (`WithinMaximalAgeIff`), so always without sliding expiration; with it there is no maximum at all
  (`NoAbsoluteMaximum`).
- `auth_state.dfy`: the lifecycle and its request queue over runs, with the 64-bit request counter that wraps. The
  documentation calls `Failed` terminal until reset; the code also leaves it on two events (`WaysOutOfFailed`).

HMAC is an uninterpreted function; of base64 only decode-after-encode and the absence of dots are assumed.

## Printers and names (`foundation_jsonschema`, `foundation_openapi`)

- `paths.dfy`: the JSON Pointer printer against section 4 of RFC 6901, the format checker, and lazily built paths.
- `snake_case.dfy`: both camelCase-to-snake_case conversions against one description that differs only in where a word
  starts; of the Unicode letter classes one of them uses, only their agreement with ASCII is assumed. The comment above
  `camel_to_snake` gives "oauth" for "OAuth"; the code gives "o_auth" (`OAuthIsTwoWords`).

## Model

| member | source | states |
|---|---|---|
| CompilerResults.CompilationPreservesMeaning | backends/foundation_jsonschema/src/compiler.rs:117-277 | for every draft, a schema on which nothing is dropped, nested at most 64 edges deep counting the references it follows, none of whose reference chains repeats a cycle key, compiles, leaves nothing in progress, and its tree accepts exactly the instances that direct evaluation of the raw schema accepts |
| CompilerResults.CompilationOnlyWidens | backends/foundation_jsonschema/src/compiler.rs:811-891 | over any reference graph, cyclic or not, and whatever is dropped or cut: the tree of a schema that uses no `not`, `oneOf`, `if` and upper `contains` bounds, itself or through the references it follows, accepts every instance the schema, unfolded 65 levels or deeper, accepts |
| CompilerResults.Within64EdgesNeverTooDeep | backends/foundation_jsonschema/src/compiler.rs:117-124 | a schema of any shape, nested at most 64 edges deep counting the references it follows, never hits the depth error |
| CompilerResults.DepthLimitIs64Edges | backends/foundation_jsonschema/src/compiler.rs:119-124 | a well-formed schema hits the depth error iff it nests more than 64 edges deep, counting the references it follows |
| CompilerDepth.NodeTooDeep | backends/foundation_jsonschema/src/compiler.rs:117-191 | from any even depth, a schema that does not fit the edges left of the allowance runs into the limit |
| CompilerState.InProgressRestoredIffNothingBroke | backends/foundation_jsonschema/src/compiler.rs:811-835 | a `compile_node` call never removes a key present on entry; one key is left behind for each reference target that failed, so the set is restored iff every target it reached compiled |
| CompilerState.ReferencesInFlightDistinct | backends/foundation_jsonschema/src/compiler_context.rs:115-127 | the references in flight on any compile call stack are pairwise distinct |
| CompilerState.KeywordVisits | backends/foundation_jsonschema/src/compiler.rs:487-791 | which subschemas each keyword hands to `compile_node`, in order, giving up at the first failure; `if`, `then` and `else` each visit the whole conditional |
| CompilerFeatures.CompiledTreeLacks | backends/foundation_jsonschema/src/compiler.rs:194-277 | a schema that avoids some kinds of keyword, itself and through the references it follows, compiles to a tree without the corresponding validators, for every reference graph |
| CompilerFeatures.AvoidsIffSealed | backends/foundation_jsonschema/src/compiler.rs:803-891 | a schema avoids some kinds of keyword at every depth iff it lies in a set of schemas, closed under subschemas and reference targets, none of which uses one |
| SchemaFamilies.RepeatedKeyIsCut | backends/foundation_jsonschema/src/compiler.rs:803-835 | a chain of two different references with the same cycle key, cyclic or not: the compiled tree accepts everything, the schema what the second target accepts |
| CompilerCuts.CutOnlyIfKeyRepeats | backends/foundation_jsonschema/src/compiler.rs:811-835 | for every schema and reference graph, cyclic or not: a reference is cut only if some chain of references within the depth allowance repeats a cycle key, or some target failed to compile and left its key behind |
| CompilerCuts.CutIffKeyRepeats | backends/foundation_jsonschema/src/compiler.rs:803-835 | a schema on which nothing is dropped, whose chains of references, each followed up to the first key it repeats, stay within 64 edges, compiles with nothing left in progress, and a reference is cut iff some chain repeats a key |
| CompilerCuts.WellFormedIff | backends/foundation_jsonschema/src/compiler.rs:803-835 | the schemas whose trees are exact are those of the previous row whose chains repeat no key, at every depth bound and whatever is in progress |
| SchemaReferences.KeysCoincideIff | backends/foundation_jsonschema/src/compiler.rs:803-809 | two fragments have the same cycle key iff base URI and text are the same; of other references only the text counts; exactly when the two kinds collide |
| SchemaReferences.ChainIsFollowed | backends/foundation_jsonschema/src/compiler.rs:803-835 | two different fragments of one document in a row are both followed: nothing is cut or left in progress, and the tree accepts exactly what the schema behind the second one does |
| SchemaReferences.ShortStringsAreRefused | backends/foundation_jsonschema/src/compiler.rs:803-835 | for example `#/a`, leading to a reference to `#/b`, leading to `{"minLength": k}` |
| SchemaReferences.ReferenceMeansTarget | backends/foundation_jsonschema/src/compiler.rs:811-891 | `$ref`, `$dynamicRef` in draft 2020-12 and `$recursiveRef` in draft 2019-09 accept what the schema they lead to accepts |
| SchemaReferences.UnresolvedAsksNothing | backends/foundation_jsonschema/src/compiler.rs:811-813 | a reference that does not resolve or is no string asks nothing |
| SchemaReferences.SiblingsIgnored | backends/foundation_jsonschema/src/compiler.rs:158-167 | before draft 2020-12 a schema object with `$ref` compiles as if that were its only entry |
| SchemaReferences.SiblingsCount | backends/foundation_jsonschema/src/compiler.rs:158-167 | in draft 2020-12 its siblings count |
| SchemaReferences.RootUris | backends/foundation_jsonschema/src/compiler.rs:93-100 | the base URI of a document: `id` in draft 4, `$id` later, without one trailing `#` |
| CompilerMeaning.ConditionalRel | backends/foundation_jsonschema/src/compiler.rs:534-565 | the conditional validator means what the `if` entry says, once |
| CompilerCorrectness.EntryAgainstSchema | backends/foundation_jsonschema/src/compiler.rs:164-184 | each compiled entry is implied by the schema object, including the conditionals repeated for `then` and `else`, and is no weaker than its own entry |
| CompilerMeaning.ItemsRel | backends/foundation_jsonschema/src/compiler.rs:656-718 | `items` over a single schema, with the offset of `prefixItems` in draft 2020-12 |
| CompilerMeaning.TupleItemsRel | backends/foundation_jsonschema/src/compiler.rs:719-756 | the older array form of `items` with `additionalItems` |
| CompilerMeaning.AdditionalPropertiesRel | backends/foundation_jsonschema/src/compiler.rs:584-610 | `additionalProperties` concerns exactly the names neither `properties` nor a valid pattern covers |
| CompilerMeaning.ContainsRel | backends/foundation_jsonschema/src/compiler.rs:771-791 | `contains` with its draft-dependent bounds |
| CompilerMeaning.LeafCompiles | backends/foundation_jsonschema/src/compiler.rs:281-480 | the keywords without subschemas pass exactly what they mean, draft 4 exclusive bounds included |
| CompilerMeaning.UncoveredIsAdditional | backends/foundation_jsonschema/src/keywords/additional_properties.rs:53-64 | a name is additional iff neither keyword beside it covers it |
| KeywordTable.CountKeywords | backends/foundation_jsonschema/src/compiler.rs:334-342 | in every draft `{"minLength": k}` passes exactly the values that are no string or have at least k characters, and so on for the six counts; draft 4 ignores the two on members. The tree and all three evaluators agree on it |
| KeywordTable.CountsDefaultToZero | backends/foundation_jsonschema/src/compiler.rs:62-76 | a count that is no whole number from 0 to 2^64 - 1 is read as 0 |
| KeywordTable.BoundKeywords | backends/foundation_jsonschema/src/compiler.rs:373-415 | which values `minimum`, `maximum` and the exclusive bounds pass; what is no number is read as 0; draft 4 ignores an exclusive bound on its own |
| KeywordTable.BooleanBounds | backends/foundation_jsonschema/src/compiler.rs:373-415 | a boolean `exclusiveMinimum` makes the `minimum` beside it exclusive in draft 4, and is the bound 0 in later drafts; and so for the maximum |
| KeywordTable.TypeKeyword | backends/foundation_jsonschema/src/compiler.rs:281-317 | `type` passes exactly the values of a named type, an integer being a number too; a name that is none of the seven passes nothing, an argument that names nothing passes everything |
| KeywordTable.ValueKeywords | backends/foundation_jsonschema/src/compiler.rs:323-330 | `const` passes the one value, except in draft 4, which ignores it; `enum` the listed ones, none if its argument is no list |
| KeywordTable.PatternAndUnique | backends/foundation_jsonschema/src/compiler.rs:344-349 | `pattern` passes what is no string or matches, everything if it is no regex; `uniqueItems` passes arrays without equal items, if it is `true` |
| KeywordTable.RequiredKeyword | backends/foundation_jsonschema/src/compiler.rs:430-440 | `required` passes exactly what is no object or has every listed name |
| KeywordTable.DependentRequiredKeyword | backends/foundation_jsonschema/src/compiler.rs:458-482 | `dependentRequired` from draft 2019-09 on: with a name, every name listed under it |
| KeywordTable.IgnoredNames | backends/foundation_jsonschema/src/compiler.rs:215-218 | which modelled keywords each draft ignores, whatever their argument |
| SchemaComposition.CombinationKeywords | backends/foundation_jsonschema/src/compiler.rs:487-524 | the trees of `allOf`, `anyOf` and `oneOf` accept what all, some and exactly one of the trees of the subschemas accept |
| SchemaComposition.NotKeyword | backends/foundation_jsonschema/src/compiler.rs:526-532 | the tree of `not` accepts exactly what that of the subschema does not |
| SchemaComposition.ConditionalKeywords | backends/foundation_jsonschema/src/compiler.rs:534-565 | from draft 7 on `then` is asked of what `if` accepts, `else` of the rest; without `if` neither asks anything |
| SchemaComposition.PropertiesKeyword | backends/foundation_jsonschema/src/compiler.rs:569-582 | `properties`: every member with a listed name, under the schema of that name |
| SchemaComposition.PatternPropertiesKeyword | backends/foundation_jsonschema/src/compiler.rs:612-624 | `patternProperties`: every member under the schema of every pattern its name matches |
| SchemaComposition.AdditionalPropertiesKeyword | backends/foundation_jsonschema/src/compiler.rs:584-610 | beside those two, `additionalProperties` concerns exactly the members whose names neither covers |
| SchemaComposition.PropertyNamesKeyword | backends/foundation_jsonschema/src/compiler.rs:452-456 | `propertyNames` from draft 6 on: every name, as a string |
| SchemaComposition.DependentSchemasKeyword | backends/foundation_jsonschema/src/compiler.rs:626-644 | `dependentSchemas` from draft 2019-09 on: the whole object under the schema of each listed name it has |
| SchemaComposition.DependenciesKeyword | backends/foundation_jsonschema/src/compiler.rs:993-1016 | `dependencies` before draft 2019-09: for each listed name the object has, the names listed under it or the schema |
| SchemaComposition.ItemsKeyword | backends/foundation_jsonschema/src/compiler.rs:656-718 | `items` with one schema, on its own: every item, in every draft |
| SchemaComposition.PrefixItemsKeyword | backends/foundation_jsonschema/src/compiler.rs:656-769 | draft 2020-12: position by position under `prefixItems`, the rest under `items` |
| SchemaComposition.TupleItemsKeyword | backends/foundation_jsonschema/src/compiler.rs:719-756 | before that: position by position under the array form of `items`, the rest under `additionalItems` |
| SchemaComposition.ContainsKeyword | backends/foundation_jsonschema/src/compiler.rs:771-791 | `contains` on its own, from draft 6 on: at least one item |
| SchemaComposition.ContainsBounds | backends/foundation_jsonschema/src/compiler.rs:771-791 | the number of matching items lies between `minContains` and `maxContains` from draft 2019-09 on; draft 6 and 7 ignore both |
| SchemaCompiler.Compile | backends/foundation_jsonschema/src/compiler.rs:79-114 | the compiler as it runs, from the base URI in the root schema's own identifier, returns what the compiler function returns |
| SchemaCompiler.CompileNode | backends/foundation_jsonschema/src/compiler.rs:117-191 | result and shared state equal those of the compiler function |
| SchemaCompiler.CompileEntries | backends/foundation_jsonschema/src/compiler.rs:164-190 | the keyword loop, with the suppression of the siblings of `$ref` |
| SchemaCompiler.CompileKeyword | backends/foundation_jsonschema/src/compiler.rs:194-277 | vocabulary gate and dispatch |
| SchemaCompiler.CompileEach | backends/foundation_jsonschema/src/compiler.rs:487-524 | the loop that gives up at the first subschema that fails |
| SchemaCompiler.CompilePatterns | backends/foundation_jsonschema/src/compiler.rs:612-624 | a pattern that is no regex ends the loop before its schema is compiled |
| SchemaCompiler.CompileDependencyList | backends/foundation_jsonschema/src/compiler.rs:993-1016 | entries that fail to compile are left out |
| SchemaCompiler.CompileConditional | backends/foundation_jsonschema/src/compiler.rs:534-565 | the three subschemas in order, with early returns |
| SchemaCompiler.CompileContains | backends/foundation_jsonschema/src/compiler.rs:771-791 | bounds from draft 2019-09 on |
| SchemaCompiler.CompileAdditionalProperties | backends/foundation_jsonschema/src/compiler.rs:584-610 | the four forms of the keyword's value |
| SchemaCompiler.CompileItems | backends/foundation_jsonschema/src/compiler.rs:656-742 | boolean, object and array forms by draft |
| SchemaCompiler.CompileRef | backends/foundation_jsonschema/src/compiler.rs:811-891 | cycle cut, mark, compile two deeper, unmark only on success |
| SchemaCompiler.InProgress.Mark | backends/foundation_jsonschema/src/compiler_context.rs:119-122 | the key and the stack of references in flight after marking |
| SchemaCompiler.InProgress.Done | backends/foundation_jsonschema/src/compiler_context.rs:124-127 | the state after unmarking |
| EvaluatorMeaning.PlanMeans | backends/foundation_jsonschema/src/keywords/properties.rs:29-84 | in every mode, what the loop of a sequential validator runs is exactly what the validator means |
| EvaluatorReport.ReportMeansAccepts | backends/foundation_jsonschema/src/node.rs:67-89 | the reference report is empty iff the tree accepts |
| EvaluatorAgreement.NodeAgrees | backends/foundation_jsonschema/src/node.rs:34-90 | on a coherent tree each evaluator answers to the reference report and leaves only marks the tree may leave |
| EvaluatorResults.EvaluatorsAgree | backends/foundation_jsonschema/src/validator.rs:30-54 | on a coherent tree: valid iff `validate` is Ok iff there are no errors iff the tree accepts, and `iter_errors` yields the reference report |
| EvaluatorResults.ValidateYieldsFirstError | backends/foundation_jsonschema/src/node.rs:46-89 | on a coherent tree without `anyOf`, the error of `validate` is the first one `iter_errors` yields |
| EvaluatorLocations.ErrorsPointAtFaults | backends/foundation_jsonschema/src/node.rs:46-89 | every error of `validate` and `iter_errors`, on every tree: only that of a `false` schema and of a surplus item lack a location; any other leads to a value of the instance, or to a name under `propertyNames`, that has the fault it names |
| EvaluatorLocations.FailedTestsFail | backends/foundation_jsonschema/src/node.rs:68-89 | in particular an error of a keyword without subschemas stands where a value fails its test |
| EvaluatorLocations.ArrayErrorsInOrder | backends/foundation_jsonschema/src/keywords/items.rs:72-90 | `iter_errors` on arrays, for `items`, `prefixItems` and the array form: the errors of each item under its own schema, in order, at the item's index |
| EvaluatorLocations.ObjectErrorsInOrder | backends/foundation_jsonschema/src/keywords/properties.rs:64-84 | on objects, for `properties` and `propertyNames`: the errors of each member, in order, at its name |
| EvaluatorResults.MarksDoNotMatter | backends/foundation_jsonschema/src/validation_context.rs:65-74 | without `additionalProperties`, every evaluator decides acceptance whatever was marked before |
| EvaluatorVerdicts.ValidIffNoErrors | backends/foundation_jsonschema/src/node.rs:36-89 | on a tree without `patternProperties`, with or without `additionalProperties`: valid iff no errors |
| EvaluatorVerdicts.ValidIffValidates | backends/foundation_jsonschema/src/node.rs:36-65 | on a tree without `properties`: valid iff `validate` is Ok |
| EvaluatorVerdicts.TimelyFirstError | backends/foundation_jsonschema/src/node.rs:46-89 | on a tree without `properties` and `patternProperties`: `validate` is Ok iff there are no errors, and without `anyOf` its error is the first one `iter_errors` yields |
| EvaluatorVerdicts.NodeVerdict | backends/foundation_jsonschema/src/node.rs:34-90 | from any marks, any two evaluators both fail, or both pass and leave the same marks, on a tree without the validators that mark at another time in one of them; without `anyOf`, `validate` moreover yields the first error of `iter_errors` |
| EvaluatorFrontier.ValidityAndErrorsAgreeIff | backends/foundation_jsonschema/src/validator.rs:30-54 | valid instances have no errors on every tree without some kinds of validator iff `patternProperties` or `additionalProperties` is among them; and so the other way round |
| EvaluatorFrontier.ValidityAndValidateAgreeIff | backends/foundation_jsonschema/src/validator.rs:30-46 | `validate` is Ok of valid instances on every such tree iff `properties` or `additionalProperties` is among them; and so the other way round |
| EvaluatorFrontier.ValidateAndErrorsAgreeIff | backends/foundation_jsonschema/src/validator.rs:37-54 | `validate` and `iter_errors` come to the same verdict on every such tree, in either direction, iff both `properties` and `patternProperties` are among them, or `additionalProperties` is |
| EvaluatorFrontier.FirstErrorIff | backends/foundation_jsonschema/src/validator.rs:37-54 | `validate` answers with the first error of `iter_errors` on every such tree iff `anyOf` is among them, and `additionalProperties` or both `properties` and `patternProperties` |
| SchemaFamilies.NoAlternativeSchema | backends/foundation_jsonschema/src/keywords/any_of.rs:46-103 | `{"anyOf": [false]}` compiles in every draft; on every instance `validate` answers with the error of `false`, `iter_errors` with that of `anyOf` alone |
| EvaluatorDecisions.DecidesMeaningIff | backends/foundation_jsonschema/src/validator.rs:30-54 | each evaluator passes only what the tree accepts, on every tree without some kinds of validator, iff `additionalProperties` is among them; it passes all the tree accepts iff that is, or all negative kinds are |
| SchemaDecisions.DecidesSchemasIff | backends/foundation_jsonschema/src/validator.rs:30-54 | each evaluator decides satisfaction of every well-formed raw schema without some kinds of keyword, also through the references it follows, iff `additionalProperties` is among them |
| SchemaDecisions.ReopenedSchemaMisjudged | backends/foundation_jsonschema/src/keywords/additional_properties.rs:67-173 | a raw schema that compiles in every draft and instances that all three evaluators pass, although they satisfy the schema only if one member is an object |
| SchemaValidation.WithoutPatternsValidIffNoErrors | backends/foundation_jsonschema/src/validator.rs:30-54 | for every raw schema and reference graph, with or without `additionalProperties`: without `patternProperties`, also through the references it follows, valid iff no errors |
| EvaluatorResults.ClosedObjectExact | backends/foundation_jsonschema/src/keywords/additional_properties.rs:67-173 | `additionalProperties: false` passes iff all additional names of the object are already marked; it should pass iff there are none |
| SchemaFamilies.ClosedPropertySchema | backends/foundation_jsonschema/src/keywords/properties.rs:30-82 | `{"properties": {p: {"additionalProperties": false}}}` compiles in every draft; `validate` passes an inner object whose members are at most `p`, the other two only the empty one |
| SchemaFamilies.ClosedPatternSchema | backends/foundation_jsonschema/src/keywords/pattern_properties.rs:29-87 | the same under `patternProperties`: `iter_errors` passes only the empty inner object, the other two also one whose only member is the matched name |
| SchemaFamilies.NotClosedSchema | backends/foundation_jsonschema/src/validator.rs:30-54 | with a `not` in between: invalid, and yet without errors, iff the inner object has the matched name as its only member |
| SchemaFamilies.ReopenedPatternSchema | backends/foundation_jsonschema/src/keywords/additional_properties.rs:67-173 | a raw schema without negative keywords and its instances that never have an error, but are valid iff one member is an object |
| SchemaFamilies.ReopenedPropertySchema | backends/foundation_jsonschema/src/keywords/additional_properties.rs:67-173 | a raw schema and its instances that are always valid, but refused by `validate` unless one member is an object |
| EvaluatorResults.AnyOfErrorsAgreeIffEmpty | backends/foundation_jsonschema/src/keywords/any_of.rs:46-103 | an unmatched `anyOf` of alternatives without `anyOf` is named alike by `validate` and `iter_errors` iff it has no alternatives |
| EvaluatorCoherence.NoAdditionalIsCoherent | backends/foundation_jsonschema/src/keywords/additional_properties.rs:67-92 | a tree without `additionalProperties` is coherent whatever was marked |
| EvaluatorCoherence.ClosedRootIsCoherent | backends/foundation_jsonschema/src/keywords/additional_properties.rs:67-92 | an object schema whose `additionalProperties` comes first over a subschema that marks nothing is coherent on a fresh context |
| EvaluatorWidening.AcceptedRunsClean | backends/foundation_jsonschema/src/node.rs:34-90 | without negative features, what a tree accepts passes every evaluator, whatever was marked before |
| SchemaValidation.CoherentValidatorDecides | backends/foundation_jsonschema/src/validator.rs:30-54 | from raw schema to answer: each evaluator decides whether the instance satisfies the schema, when the tree is coherent |
| SchemaValidation.ValidatorDecidesSchema | backends/foundation_jsonschema/src/validator.rs:30-54 | in particular for every such schema without `additionalProperties` |
| SchemaValidation.ValidatorOnlyWidens | backends/foundation_jsonschema/src/validator.rs:30-54 | an instance of a positive schema passes every evaluator, over any reference graph |
| SchemaNodes.NodeIsValid | backends/foundation_jsonschema/src/node.rs:36-44 | the all-fold with its early stop and the marks it leaves |
| SchemaNodes.NodeValidate | backends/foundation_jsonschema/src/node.rs:47-65 | the first validator's error and the marks left |
| SchemaNodes.NodeIterErrors | backends/foundation_jsonschema/src/node.rs:68-89 | every validator's errors, in order, and the marks left |
| SchemaNodes.TestRun | backends/foundation_jsonschema/src/keywords/required.rs:28-85 | the keywords without subschemas: `required` returns its first missing name or yields all |
| SchemaNodes.AllOfRun | backends/foundation_jsonschema/src/keywords/all_of.rs:27-69 | runs the subschemas in order, merges the marks after each |
| SchemaNodes.AnyOfRun | backends/foundation_jsonschema/src/keywords/any_of.rs:27-104 | tries every alternative, takes back the marks of those that fail |
| SchemaNodes.OneOfRun | backends/foundation_jsonschema/src/keywords/one_of.rs:27-123 | tries every alternative from the same marks, keeps those of the only match |
| SchemaNodes.NotRun | backends/foundation_jsonschema/src/keywords/not_.rs:26-69 | restores the marks whatever happens |
| SchemaNodes.ConditionalRun | backends/foundation_jsonschema/src/keywords/if_.rs:38-101 | keeps the marks of the condition only if it holds |
| SchemaNodes.ContainsRun | backends/foundation_jsonschema/src/keywords/contains.rs:51-146 | counts the matching items and keeps all marks |
| SchemaNodes.ItemsRun | backends/foundation_jsonschema/src/keywords/items.rs:43-90 | every item from the offset on, at its index |
| SchemaNodes.PrefixItemsRun | backends/foundation_jsonschema/src/keywords/prefix_items.rs:27-74 | the leading items, each under its own schema |
| SchemaNodes.TupleRun | backends/foundation_jsonschema/src/keywords/tuple_items.rs:54-141 | the array form, with its three policies for surplus items |
| SchemaNodes.PropertiesRun | backends/foundation_jsonschema/src/keywords/properties.rs:29-84 | `validate` marks before the subschema, the other two after it; `is_valid` goes on after a failure |
| SchemaNodes.PatternPropertiesRun | backends/foundation_jsonschema/src/keywords/pattern_properties.rs:28-89 | `iter_errors` marks after the subschema, the other two before it |
| SchemaNodes.AdditionalRun | backends/foundation_jsonschema/src/keywords/additional_properties.rs:67-173 | skips what is marked, marks what it has checked |
| SchemaNodes.NamesRun | backends/foundation_jsonschema/src/keywords/property_names.rs:27-73 | every name, as a string, at the member's location |
| SchemaNodes.DependentSchemasRun | backends/foundation_jsonschema/src/keywords/dependent_schemas.rs:29-91 | takes back the marks of a schema that fails |
| SchemaNodes.DependenciesRun | backends/foundation_jsonschema/src/keywords/legacy.rs:40-147 | lists the missing names, or runs the schema |
| SchemaNodes.RefRun | backends/foundation_jsonschema/src/keywords/ref_.rs:42-65 | delegates to the target at the same location |
| SchemaNodes.ValidatorIsValid | backends/foundation_jsonschema/src/validator.rs:32-35 | a fresh context |
| SchemaNodes.ValidatorValidate | backends/foundation_jsonschema/src/validator.rs:42-46 | a fresh context |
| SchemaNodes.ValidatorIterErrors | backends/foundation_jsonschema/src/validator.rs:50-54 | a fresh context |
| MetaValidation.Validate | backends/foundation_jsonschema/src/meta.rs:77-92 | builds the embedded meta-schema; Ok if valid, else the first error, else Ok |
| MetaValidation.IsValidSchema | backends/foundation_jsonschema/src/meta.rs:122-128 | builds the embedded meta-schema; not valid if that fails |
| MetaValidation.MetaSchemaDecides | backends/foundation_jsonschema/src/meta.rs:77-128 | over a meta-schema that uses no `patternProperties`, itself or through the references it follows, the two functions agree on every schema, so the fall-through Ok is unreachable |
| MetaValidation.AnswersFirstError | backends/foundation_jsonschema/src/meta.rs:77-92 | the error answered is the first one `iter_errors` yields, and is given exactly of invalid schemas that have one |
| MetaValidation.PatternFreeAvoids | backends/foundation_jsonschema/src/meta.rs:27-36 | a document that mentions `patternProperties` only as a name, and whose references lead to such documents, uses the keyword at no depth |
| Draft4MetaSchema.Draft4Decides | backends/foundation_jsonschema/artefacts/draft-04-schema.json:1-149 | the two functions agree on every schema over the embedded meta-schema of draft 4 |
| SpinMutex.MutualExclusion | backends/foundation_nostd/src/spin_mutex.rs:100-146 | any number of threads, any interleaving: at most one owner, LOCKED set iff there is one, and a releasing thread's loaded byte is still the shared byte |
| SpinMutex.CriticalSectionsLinearize | backends/foundation_nostd/src/spin_mutex.rs:238-251 | the data is always the fold of the updates in acquisition order, and what a holder has read is current |
| SpinMutex.PoisonIsReportedAndKept | backends/foundation_nostd/src/spin_mutex.rs:102-146 | each acquisition reports the poison bit of the byte its exchange found, and no lock or unlock changes it |
| SpinMutex.ReleasingStep | backends/foundation_nostd/src/spin_mutex.rs:253-263 | the non-atomic load and store of a release keep exclusion |
| SpinMutex.WouldBlockHasWitness | backends/foundation_nostd/src/spin_mutex.rs:155-173 | `try_lock` answers WouldBlock only if another thread owned the lock at some instant of the call |
| SpinMutex.FailureHasCause | backends/foundation_nostd/src/spin_mutex.rs:100-204 | in every run, an attempt that fails had another owner at its load or at its failure, or failed spuriously, which only the weak exchange of the bounded and the blocking call can |
| SpinMutex.SpuriousWouldBlock | backends/foundation_nostd/src/spin_mutex.rs:180-204 | the bounded call may answer WouldBlock although nobody else ever owned the lock |
| SpinMutex.GiveUpHasCause | backends/foundation_nostd/src/spin_mutex.rs:180-204 | in every run, a bounded call that gives up has limit 0, or in its last attempt either another thread owned the lock or the exchange failed spuriously |
| SpinMutex.LockEndsHolding | backends/foundation_nostd/src/spin_mutex.rs:99-146 | over every run, between an instant at which a thread is in a `lock` call and a later one at which it is not, it has acquired the lock |
| SpinMutex.LockKeepsTrying | backends/foundation_nostd/src/spin_mutex.rs:118-146 | over every run, a failed attempt of `lock` is followed by attempts with the weak exchange until one acquires |
| SpinMutex.SlowAfterFailure | backends/foundation_nostd/src/spin_mutex.rs:118-146 | the slow path is entered only by a failed attempt |
| SpinMutex.EndsIdle | backends/foundation_nostd/src/spin_mutex.rs:100-204 | a call ends exactly at the one failure of `try_lock`, where the bounded call gives up, or by a release that stores the byte with the bit cleared |
| SpinMutex.AttemptOutcomes | backends/foundation_nostd/src/spin_mutex.rs:100-204 | an attempt can succeed iff the byte it loaded is unlocked and still there; on such a byte only the weak exchange can fail |
| SpinMutex.UncontendedAcquires | backends/foundation_nostd/src/spin_mutex.rs:100-204 | from any instant of any run at which nobody owns the lock, each kind of call has a run that acquires, sets the byte and reports the poison bit |
| SpinMutex.AttemptsWithinLimit | backends/foundation_nostd/src/spin_mutex.rs:180-204 | a bounded call never uses more attempts than its limit and gives up only with all used |
| SpinMutex.TryLockWithSpinLimit | backends/foundation_nostd/src/spin_mutex.rs:180-204 | the retry loop acquires at the first attempt that wins and blocks iff none of `limit` attempts wins |
| Base32.ToBase32 | backends/foundation_auth/src/two_factor.rs:104-124 | the chunked code computes the reference encoding: ceil(8n/5) symbols, symbol j for bits 5j to 5j+4 |
| Base32.FoldChunk | backends/foundation_auth/src/two_factor.rs:108-109 | the accumulator holds the bits of the chunk and never exceeds them, so the 64-bit shift loses nothing |
| Base32.ShiftChunk | backends/foundation_auth/src/two_factor.rs:110-111 | shifting a short last chunk fills 40 bits with zeros, within 64 bits |
| Base32.Lossless | backends/foundation_auth/src/two_factor.rs:104-124 | decoding returns the original bytes, for every byte string |
| Base32.EncodedInAlphabet | backends/foundation_auth/src/two_factor.rs:114-118 | every symbol is in the alphabet |
| Base32.OnlyPaddingTrimmed | backends/foundation_auth/src/two_factor.rs:121-123 | only symbols for zero padding bits are cut, and the last one kept carries input |
| BackupCodes.ConstantTimeEq | backends/foundation_auth/src/two_factor.rs:272-281 | the OR of the XORs decides byte equality |
| BackupCodes.BackupCodeSet.Validate | backends/foundation_auth/src/two_factor.rs:249-262 | succeeds iff the code is there, and consumes its first copy |
| BackupCodes.RemoveConsumesOne | backends/foundation_auth/src/two_factor.rs:256-259 | a success removes exactly one copy, a failure nothing |
| BackupCodes.CodesAreConserved | backends/foundation_auth/src/two_factor.rs:249-268 | over any run, accepted and remaining codes together are exactly the initial ones, and the counts add up |
| BackupCodes.SingleUse | backends/foundation_auth/src/two_factor.rs:244-262 | a code is accepted at most as often as it was generated |
| BackupCodes.RefusedIffUsedUp | backends/foundation_auth/src/two_factor.rs:249-262 | a try is refused iff all copies of its code have been accepted |
| BackupCodes.ValidateAll | backends/foundation_auth/src/two_factor.rs:249-268 | a run of calls: what it accepts and what remains |
| Sessions.SignVerifies | backends/foundation_auth/src/session.rs:348-371 | a signature verifies exactly the tokens with the same code, and always decodes |
| Sessions.VerifyExact | backends/foundation_auth/src/session.rs:353-371 | what `verify` answers of any text: what stands behind its only dot is judged; without a dot or with several it does not verify |
| Sessions.SessionManager.CreateSession | backends/foundation_auth/src/session.rs:123-156 | the record filed and its id |
| Sessions.SessionManager.GetSession | backends/foundation_auth/src/session.rs:166-217 | the search over listed keys, its answer and the extension it makes |
| Sessions.SessionManager.ExtendSession | backends/foundation_auth/src/session.rs:281-294 | the record re-filed when less than the window is left |
| Sessions.SessionManager.RevokeSession | backends/foundation_auth/src/session.rs:224-241 | the store after revoking one session |
| Sessions.SessionManager.RevokeAllSessions | backends/foundation_auth/src/session.rs:248-274 | the store and the count after the loop |
| Sessions.GetSound | backends/foundation_auth/src/session.rs:188-217 | what is returned is filed, unrevoked, unexpired and signed for the token's code; nothing is returned only if each session that could be served stands behind an expired one that fits |
| Sessions.RevocationIsPermanent | backends/foundation_auth/src/session.rs:188-241 | over any run with fresh ids, a revoked session stays revoked and is never returned |
| Sessions.RevokeAllExactIff | backends/foundation_auth/src/session.rs:248-274 | returns the number it revoked, revokes all of the user's sessions, and leaves all others alone iff no user whose name continues the user's after a ':' has an unrevoked session |
| Sessions.PlainNamesDoNotShadow | backends/foundation_auth/src/session.rs:134 | user ids without ':' are never in that position |
| Sessions.PrefixSelects | backends/foundation_auth/src/session.rs:249-253 | which sessions the key prefix of a user selects |
| Sessions.ExpiryBounded | backends/foundation_auth/src/session.rs:129-131 | over any run a stored expiry never decreases and never exceeds the clock plus the maximal age |
| Sessions.WithinMaximalAgeIff | backends/foundation_auth/src/session.rs:281-294 | at every instant of every run: a session expires within the maximal age of its creation iff no `get_session` has extended it after its creation; without sliding expiration it expires exactly then |
| Sessions.NoAbsoluteMaximum | backends/foundation_auth/src/session.rs:28-32 | with sliding expiration, for every n a run of n + 1 calls after which a session expires n times the maximal age less one beyond its first expiry |
| Sessions.ExpiredForGood | backends/foundation_auth/src/session.rs:281-294 | a session expired when a call begins is never extended by that call or a later one, and never returned |
| AuthStates.AuthStateMachine.TransitionTo | backends/foundation_auth/src/auth_state.rs:119-165 | the transition table in place |
| AuthStates.AuthStateMachine.HandleEvent | backends/foundation_auth/src/auth_state.rs:173-184 | the transition and the drained batch |
| AuthStates.AuthStateMachine.EnqueueRequest | backends/foundation_auth/src/auth_state.rs:187-192 | the id handed out, the queue after it and the 64-bit counter |
| AuthStates.AuthStateMachine.ResetMachine | backends/foundation_auth/src/auth_state.rs:207-210 | back to the start with an empty queue |
| AuthStates.QueueIsConserved | backends/foundation_auth/src/auth_state.rs:173-210 | over any run, drained and discarded batches in time order followed by the queue are exactly the ids of all requests in the order they came, numbered from 0 modulo 2^64 |
| AuthStates.WaitingIdsDistinct | backends/foundation_auth/src/auth_state.rs:187-192 | the ids waiting in the queue are pairwise distinct as long as at most 2^64 requests wait |
| AuthStates.DrainedOnlyByRefresh | backends/foundation_auth/src/auth_state.rs:173-184 | only a refresh that completes hands out a batch, and it empties the queue |
| AuthStates.WaysOutOfFailed | backends/foundation_auth/src/auth_state.rs:119-165 | which events leave the failed state without a reset |
| AuthStates.AcceptedExactlyFrom | backends/foundation_auth/src/auth_state.rs:119-165 | for each event the exact states that accept it, through either method |
| AuthStates.LeadsTo | backends/foundation_auth/src/auth_state.rs:119-184 | the one state each accepted event leads to; a refused call changes nothing |
| AuthStates.StateIsLastMove | backends/foundation_auth/src/auth_state.rs:119-210 | over every run the state is fixed by the last accepted event or reset; a machine is in `TokenExpired` iff that was the lapse of the token |
| AuthStates.RefreshesAlternate | backends/foundation_auth/src/auth_state.rs:119-165 | between two accepted refresh starts there is an accepted completion, failure or logout, or a reset |
| Paths.Location.AsJsonPointer | backends/foundation_jsonschema/src/paths.rs:95-122 | the printing loops compute the pointer of the segments |
| Paths.ReadPrint | backends/foundation_jsonschema/src/paths.rs:95-122 | reading by RFC 6901 undoes printing |
| Paths.PrintRead | backends/foundation_jsonschema/src/paths.rs:95-122 | printing undoes reading |
| Paths.LocationRoundTrip | backends/foundation_jsonschema/src/paths.rs:95-122 | a location's pointer reads back as one token for each segment, in order: the name, or digits that denote the index, without a leading zero |
| Paths.DecimalDenotes | backends/foundation_jsonschema/src/paths.rs:95-122 | the digits of an index denote it, without a leading zero |
| Paths.CheckJsonPointer | backends/foundation_jsonschema/src/formats.rs:687-708 | the checker's scan accepts exactly the syntax of RFC 6901, section 3 |
| Paths.PointersAreLocationPointers | backends/foundation_jsonschema/src/formats.rs:687-708 | a string has that syntax iff it is the pointer of some location |
| Paths.Materialize | backends/foundation_jsonschema/src/paths.rs:219-237 | walking up and reversing gives the segments from the root down |
| Paths.MaterializePushes | backends/foundation_jsonschema/src/paths.rs:181-203 | a chain of pushes materializes to the pushed segments in order |
| Paths.Location.PushProperty | backends/foundation_jsonschema/src/paths.rs:61-63 | appends a property segment |
| Paths.Location.PushIndex | backends/foundation_jsonschema/src/paths.rs:66-68 | appends an index segment |
| Paths.Location.Pop | backends/foundation_jsonschema/src/paths.rs:71-73 | removes the last segment, if any, and says so |
| SnakeCase.CamelToSnake | backends/foundation_openapi/src/api_catalog.rs:496-549 | the nested index loops break exactly before the capitals that start a word |
| SnakeCase.ToSnakeCaseRenders | backends/foundation_openapi/src/api_catalog.rs:483-491 | split, filter, convert and join is the conversion of the whole string |
| SnakeCase.OAuthIsTwoWords | backends/foundation_openapi/src/api_catalog.rs:493-549 | the last capital of an acronym belongs to the word it begins |
| SnakeCase.BetweenLetters | backends/foundation_openapi/src/api_catalog.rs:483-549 | what becomes of any one character between two small letters: exactly fifteen separate words, a capital starts one and is lowered, the rest is kept |
| SnakeCase.BehindAcronym | backends/foundation_openapi/src/api_catalog.rs:496-549 | what becomes of any one character behind two capitals: a small letter takes the second to its own word |
| SnakeCase.BetweenLettersEndpoint | backends/foundation_openapi/src/endpoint.rs:181-212 | the other converter on an ASCII character between two small letters |
| SnakeCase.SnakeCaseShape | backends/foundation_openapi/src/api_catalog.rs:483-549 | no ASCII capital, no doubled or edge underscore; without underscores, the lowered input without delimiters |
| SnakeCase.SnakeCaseIdempotent | backends/foundation_openapi/src/api_catalog.rs:483-549 | converting twice is converting once, on every string |
| SnakeCase.EndpointToSnakeCase | backends/foundation_openapi/src/endpoint.rs:181-212 | on every string, the loop over parts breaks exactly before the capitals its rule names, and lowers the ASCII ones |
| SnakeCase.ConversionsAgreeIff | backends/foundation_openapi/src/endpoint.rs:181-212 | on letters, digits and shared delimiters the two agree iff every capital directly after a capital or a digit is directly followed by a lower-case letter |

## Left out

- Keywords without a meaning here: `multipleOf`, whose tolerance is a matter of rounding, `format`, the content keywords, `unevaluatedProperties`, `unevaluatedItems` and custom keywords; an entry of that name is treated as unknown.
- CompilerMeaning.LeafCompiles: does not cover `multipleOf` and `format`, which stand between the keywords it covers.
- SchemaCompiler.CompileKeyword: treats the keywords named above as unknown.
- SchemaCompiler.CompileRef: what a reference resolves to is a given function of its kind, its text and the resolver's state, base URI and dynamic scope; how the registry finds it (`$id` scanning, anchors, the walk along the dynamic scope) is not modelled.
- Draft4MetaSchema.Draft4Decides: references of the document are taken to lead to the places they name, if they resolve; the documents of the other drafts are not written out.
- The marks on array positions, which only `unevaluatedItems` reads.
- The regex engine: an uninterpreted validity test and match test.
- Numbers are exact: rounding of `f64` in bounds and in `value_to_u64` is not modelled, and numbers inside a `const` array or object compare by value here, by representation in the code.
- SchemaComposition.CombinationKeywords: like the other laws of that file, over subschemas on which nothing is dropped or cut.
- EvaluatorLocations.ErrorsPointAtFaults: of an error of `anyOf`, `oneOf` or `not` says where it stands, not which alternatives failed there.
- Error texts, schema paths in errors and the fields of errors of keywords without subschemas.
- The three methods of a keyword validator are one method over the mode; the tests of the keywords without subschemas are predicates, except the loops of `required`.
- EvaluatorResults.EvaluatorsAgree: coherence is enough for agreement but not needed, because whether a mark misleads an `additionalProperties` deep in a tree depends on the instances its siblings admit; `DecidesMeaningIff` and the results of `evaluator_frontier.dfy` are exact in the kinds of validator a caller may use.
- EvaluatorResults.ClosedObjectExact: covers `additionalProperties: false` only; under a schema, what is skipped depends on what that schema has marked by the turn of each name.
- SchemaDecisions.DecidesSchemasIff: on well-formed schemas; on others the tree need not mean what the schema does.
- `SpinMutex`: memory orderings, backoff and progress; steps are sequentially consistent, and the endless retry of `lock_slow` appears only as steps.
- Sessions: cookies, addresses, user agents, the length check on the signing key, and storage failures; `list_keys` answers any order.
- AuthStates.AuthStateMachine.EnqueueRequest: the counter wraps at 2^64 as in a release build; a debug build stops there.
- Paths: 64-bit width of an index.
- One-time codes, challenges, OAuth, the HTTP client, deployment and the HTML and build tooling.
