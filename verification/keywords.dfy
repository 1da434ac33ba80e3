/** Drafts, keyword names and the vocabulary of each draft. */
module Keywords {
  import opened JsonValues

  datatype Draft = Draft4 | Draft6 | Draft7 | Draft201909 | Draft202012

  datatype RefKind = Static | Dynamic | Recursive

  /** Keywords without subschemas. */
  datatype Plain =
    | Type | Const | Enum | MinLength | MaxLength | Pattern
    | Minimum | Maximum | ExclusiveMinimum | ExclusiveMaximum
    | MinItems | MaxItems | UniqueItems | Required | MinProperties | MaxProperties | DependentRequired

  datatype Combination = AllOf | AnyOf | OneOf

  /** The keywords the model gives a meaning to; every other name is `Unmodelled`. */
  datatype Keyword =
    | Leaf(plain: Plain)
    | Combine(how: Combination)
    | Not
    | If
    | Branch // `then` and `else`
    | Properties | PatternProperties | AdditionalProperties | PropertyNames
    | DependentSchemas | Dependencies
    | Items | PrefixItems | Contains
    | Reference(kind: RefKind)
    | Unmodelled

  function Parse(name: string): Keyword {
    match name
    case "$ref" => Reference(Static)
    case "$dynamicRef" => Reference(Dynamic)
    case "$recursiveRef" => Reference(Recursive)
    case "type" => Leaf(Type)
    case "const" => Leaf(Const)
    case "enum" => Leaf(Enum)
    case "minLength" => Leaf(MinLength)
    case "maxLength" => Leaf(MaxLength)
    case "pattern" => Leaf(Pattern)
    case "minimum" => Leaf(Minimum)
    case "maximum" => Leaf(Maximum)
    case "exclusiveMinimum" => Leaf(ExclusiveMinimum)
    case "exclusiveMaximum" => Leaf(ExclusiveMaximum)
    case "minItems" => Leaf(MinItems)
    case "maxItems" => Leaf(MaxItems)
    case "uniqueItems" => Leaf(UniqueItems)
    case "required" => Leaf(Required)
    case "minProperties" => Leaf(MinProperties)
    case "maxProperties" => Leaf(MaxProperties)
    case "dependentRequired" => Leaf(DependentRequired)
    case "properties" => Properties
    case "patternProperties" => PatternProperties
    case "additionalProperties" => AdditionalProperties
    case "propertyNames" => PropertyNames
    case "dependentSchemas" => DependentSchemas
    case "dependencies" => Dependencies
    case "items" => Items
    case "prefixItems" => PrefixItems
    case "contains" => Contains
    case "allOf" => Combine(AllOf)
    case "anyOf" => Combine(AnyOf)
    case "oneOf" => Combine(OneOf)
    case "not" => Not
    case "if" => If
    case "then" => Branch
    case "else" => Branch
    case _ => Unmodelled
  }

  lemma ConditionalNames()
    ensures Parse("if") == If && Parse("$ref") == Reference(Static)
  {
  }

  /** Membership in the fixed keyword list of a draft. */
  predicate InVocabulary(draft: Draft, kw: Keyword) {
    match kw
    case Leaf(plain) =>
      && (plain == Const || plain == MinProperties || plain == MaxProperties ==> draft != Draft4)
      && (plain == DependentRequired ==> draft == Draft201909 || draft == Draft202012)
    case PropertyNames => draft != Draft4
    case Contains => draft != Draft4
    case If => draft != Draft4 && draft != Draft6
    case Branch => draft != Draft4 && draft != Draft6
    case Dependencies => draft != Draft201909 && draft != Draft202012
    case DependentSchemas => draft == Draft201909 || draft == Draft202012
    case PrefixItems => draft == Draft202012
    case Reference(kind) => (kind == Dynamic ==> draft == Draft202012) && (kind == Recursive ==> draft == Draft201909)
    case Unmodelled => false
    case _ => true
  }

  /** Drafts before 2020-12 ignore every sibling of `$ref`. */
  predicate Suppressed(draft: Draft, schema: seq<Member>, key: string) {
    draft != Draft202012 && Has(schema, "$ref") && key != "$ref"
  }

  /** The keyword an entry of a schema object stands for, once vocabulary and `$ref` suppression are applied. */
  function Active(draft: Draft, schema: seq<Member>, key: string): (kw: Keyword)
    ensures kw != Unmodelled ==> InVocabulary(draft, kw) && kw == Parse(key)
  {
    if Suppressed(draft, schema, key) || !InVocabulary(draft, Parse(key)) then Unmodelled else Parse(key)
  }

  /** `minContains` and `maxContains` exist from draft 2019-09 on. */
  predicate CountsContains(draft: Draft) {
    draft == Draft201909 || draft == Draft202012
  }
}
