/** JSON values as the schema crate sees them, and the few observations the compiler makes of them.
    Numbers are exact (`real`), an object is the sequence of its members in iteration order. */
module JsonValues {

  datatype Option<+T> = None | Some(value: T)

  datatype Json =
    | Null
    | Bool(b: bool)
    | Num(n: real)
    | Str(s: string)
    | Arr(items: seq<Json>)
    | Obj(members: seq<Member>)

  datatype Member = Member(key: string, value: Json)

  /** `{key: value}` */
  function Sole(key: string, value: Json): Json {
    Obj([Member(key, value)])
  }

  /** The position of the first member called `key`, from position `from` on. */
  function IndexFrom(members: seq<Member>, key: string, from: nat): (r: Option<nat>)
    requires from <= |members|
    ensures r.Some? ==> from <= r.value < |members| && members[r.value].key == key
    ensures r.Some? ==> forall k :: from <= k < r.value ==> members[k].key != key
    ensures r.None? ==> forall k :: from <= k < |members| ==> members[k].key != key
    decreases |members| - from
  {
    if from == |members| then None
    else if members[from].key == key then Some(from)
    else IndexFrom(members, key, from + 1)
  }

  /** The value stored under `key`, if any. */
  function Get(members: seq<Member>, key: string): Option<Json> {
    var k := IndexFrom(members, key, 0);
    if k.Some? then Some(members[k.value].value) else None
  }

  predicate Has(members: seq<Member>, key: string) {
    Get(members, key).Some?
  }

  function Keys(members: seq<Member>): set<string> {
    set k | 0 <= k < |members| :: members[k].key
  }

  function Values(members: seq<Member>): (r: seq<Json>)
    ensures |r| == |members|
    ensures forall k :: 0 <= k < |r| ==> r[k] == members[k].value
  {
    seq(|members|, k requires 0 <= k < |members| => members[k].value)
  }

  /** The members of a value that should be an object; none otherwise. */
  function MembersOf(j: Option<Json>): seq<Member> {
    if j.Some? && j.value.Obj? then j.value.members else []
  }

  /** A value the compiler accepts as a schema. */
  predicate IsSchema(j: Json) {
    j.Obj? || j.Bool?
  }

  /** No object repeats a key; true of every parsed document, whose objects are maps. */
  predicate WellKeyed(j: Json) {
    match j
    case Arr(items) => forall k :: 0 <= k < |items| ==> WellKeyed(items[k])
    case Obj(members) =>
      && (forall a, b :: 0 <= a < b < |members| ==> members[a].key != members[b].key)
      && (forall k :: 0 <= k < |members| ==> WellKeyed(members[k].value))
    case _ => true
  }

  const U64_MAX: int := 0xFFFF_FFFF_FFFF_FFFF

  /** `value_to_u64`: a non-negative whole number that fits 64 bits. */
  function ToU64(j: Json): Option<nat> {
    if j.Num? && j.n >= 0.0 && j.n.Floor as real == j.n && j.n.Floor <= U64_MAX
    then Some(j.n.Floor) else None
  }

  function NatOr(j: Json, default: nat): nat {
    if ToU64(j).Some? then ToU64(j).value else default
  }

  function RealOr(j: Json, default: real): real {
    if j.Num? then j.n else default
  }
}
