/** The subschemas of a validator, and which kinds of validator a tree does without. */
module TreeFeatures {
  import opened JsonValues
  import opened Keywords
  import opened SchemaTree

  function Nodes(props: seq<Named>): (r: seq<Node>)
    ensures |r| == |props| && forall k :: 0 <= k < |r| ==> r[k] == props[k].node
    ensures forall k :: 0 <= k < |r| ==> (props decreases to r[k])
  {
    seq(|props|, k requires 0 <= k < |props| => props[k].node)
  }

  function DependencyNodes(deps: seq<Dependency>): (r: seq<Node>)
    ensures forall d :: d in deps && d.NeedsSchema? ==> d.node in r
    ensures forall c :: c in r ==> exists d :: d in deps && d.NeedsSchema? && d.node == c
    ensures forall k :: 0 <= k < |r| ==> (deps decreases to r[k])
  {
    if deps == [] then []
    else
      var rest := DependencyNodes(deps[1..]);
      assert forall k :: 0 <= k < |rest| ==> (deps[1..] decreases to rest[k]);
      if deps[0].NeedsSchema? then [deps[0].node] + rest else rest
  }

  function OptionNodes(t: Option<Node>): seq<Node> {
    if t.Some? then [t.value] else []
  }

  /** The subschemas of a validator. */
  function Children(v: Validator): (r: seq<Node>)
    ensures forall k :: 0 <= k < |r| ==> (v decreases to r[k])
  {
    match v
    case Assertion(_) => []
    case AllOfV(ts) => ts
    case AnyOfV(ts) => ts
    case OneOfV(ts) => ts
    case NotV(t) => [t]
    case IfThenElse(c, thn, els) => [c] + OptionNodes(thn) + OptionNodes(els)
    case ItemsV(t, _) => [t]
    case PrefixItemsV(ts) => ts
    case TupleItems(ts, extra) => ts + if extra.ValidateExtra? then [extra.node] else []
    case ContainsV(t, _, _) => [t]
    case PropertiesV(props) => Nodes(props)
    case PatternPropertiesV(props) => Nodes(props)
    case AdditionalPropertiesV(others, _, _) =>
      if others.Some? && others.value.ExtraSchema? then [others.value.node] else []
    case PropertyNamesV(t) => [t]
    case DependentSchemasV(props) => Nodes(props)
    case DependenciesV(deps) => DependencyNodes(deps)
    case RefV(t) => [t]
  }

  datatype Feature = Negation | Exclusive | Conditional | CountLimit | Additional | Choice | Linked | ByName | ByPattern

  function FeaturesOf(v: Validator): set<Feature> {
    match v
    case NotV(_) => {Negation}
    case OneOfV(_) => {Exclusive}
    case IfThenElse(_, _, _) => {Conditional}
    case ContainsV(_, _, max) => if max.Some? then {CountLimit} else {}
    case AdditionalPropertiesV(_, _, _) => {Additional}
    case AnyOfV(_) => {Choice}
    case RefV(_) => {Linked}
    case PropertiesV(_) => {ByName}
    case PatternPropertiesV(_) => {ByPattern}
    case _ => {}
  }

  /** What makes a schema able to accept more when one of its subschemas accepts less. */
  const NEGATIVE: set<Feature> := {Negation, Exclusive, Conditional, CountLimit}

  /** No validator anywhere in the tree has a banned feature. */
  predicate Lacks(t: Node, ban: set<Feature>)
    decreases t, 0
  {
    t.Validators? ==> forall k :: 0 <= k < |t.validators| ==> LacksV(t.validators[k], ban)
  }

  predicate LacksV(v: Validator, ban: set<Feature>)
    decreases v
  {
    var cs := Children(v);
    FeaturesOf(v) !! ban && forall k :: 0 <= k < |cs| ==> Lacks(cs[k], ban)
  }

  lemma {:induction false} LacksFewer(t: Node, few: set<Feature>, ban: set<Feature>)
    requires Lacks(t, ban) && few <= ban
    ensures Lacks(t, few)
    decreases t, 0
  {
    if t.Validators? {
      forall k | 0 <= k < |t.validators| ensures LacksV(t.validators[k], few) {
        LacksFewerBy(t.validators[k], few, ban);
      }
    }
  }

  lemma {:induction false} LacksFewerBy(v: Validator, few: set<Feature>, ban: set<Feature>)
    requires LacksV(v, ban) && few <= ban
    ensures LacksV(v, few)
    decreases v
  {
    var cs := Children(v);
    forall k | 0 <= k < |cs| ensures Lacks(cs[k], few) {
      LacksFewer(cs[k], few, ban);
    }
  }
}
