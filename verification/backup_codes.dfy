/** Single-use backup codes and the constant-time comparison behind them. */
module BackupCodes {

  type Text = seq<bv8>

  // ----- constant-time comparison -----

  /** Every difference leaves a bit in the accumulator, and no later byte removes it. */
  lemma OrOfXor(acc: bv8, x: bv8, y: bv8)
    ensures acc | (x ^ y) == 0 <==> acc == 0 && x == y
  {
  }

  /** `constant_time_eq`: the OR of the XORs decides byte equality. */
  method ConstantTimeEq(a: Text, b: Text) returns (equal: bool)
    ensures equal <==> a == b
  {
    if |a| != |b| {
      return false;
    }
    var result: bv8 := 0;
    for k := 0 to |a|
      invariant result == 0 <==> a[..k] == b[..k]
    {
      OrOfXor(result, a[k], b[k]);
      assert a[..k + 1] == a[..k] + [a[k]] && b[..k + 1] == b[..k] + [b[k]];
      result := result | (a[k] ^ b[k]);
    }
    assert a[..|a|] == a && b[..|b|] == b;
    equal := result == 0;
  }

  // ----- the code set -----

  /** The first position of `code`, or the length. */
  function Position(codes: seq<Text>, code: Text): (r: nat)
    ensures r <= |codes|
    ensures r < |codes| ==> codes[r] == code
    ensures forall k :: 0 <= k < r ==> codes[k] != code
  {
    if codes == [] || codes[0] == code then 0 else 1 + Position(codes[1..], code)
  }

  /** The codes left after one validation, which succeeds iff the code was there. */
  function Remove(codes: seq<Text>, code: Text): seq<Text> {
    var k := Position(codes, code);
    if k < |codes| then codes[..k] + codes[k + 1..] else codes
  }

  class BackupCodeSet {
    var codes: seq<Text>

    constructor (generated: seq<Text>)
      ensures codes == generated
    {
      codes := generated;
    }

    /** `validate`: consumes the first matching code. */
    method Validate(code: Text) returns (ok: bool)
      modifies this
      ensures ok <==> code in old(codes)
      ensures codes == Remove(old(codes), code)
    {
      var k := 0;
      while k < |codes|
        invariant k <= |codes| && codes == old(codes)
        invariant forall j :: 0 <= j < k ==> codes[j] != code
      {
        var equal := ConstantTimeEq(codes[k], code);
        if equal {
          codes := codes[..k] + codes[k + 1..];
          return true;
        }
        k := k + 1;
      }
      ok := false;
    }

    /** `remaining` */
    function Remaining(): nat
      reads this
    {
      |codes|
    }
  }

  lemma Without<T>(a: seq<T>, x: T, b: seq<T>)
    ensures multiset(a + [x] + b) == multiset(a + b) + multiset{x}
  {
  }

  lemma RemoveConsumesOne(codes: seq<Text>, code: Text)
    ensures code in codes ==> multiset(codes) == multiset(Remove(codes, code)) + multiset{code}
    ensures code in codes ==> |Remove(codes, code)| == |codes| - 1
    ensures code !in codes ==> Remove(codes, code) == codes
  {
    hide Position;
    var k := Position(codes, code);
    if k < |codes| {
      Without(codes[..k], code, codes[k + 1..]);
      assert codes == codes[..k] + [code] + codes[k + 1..];
    }
  }

  // ----- runs of validations -----

  /** The codes left after a run of validations. */
  function After(codes: seq<Text>, tries: seq<Text>): seq<Text> {
    if tries == [] then codes else Remove(After(codes, tries[..|tries| - 1]), tries[|tries| - 1])
  }

  /** The validations of a run that succeeded, in order. */
  function Accepted(codes: seq<Text>, tries: seq<Text>): seq<Text> {
    if tries == [] then []
    else
      var earlier, last := tries[..|tries| - 1], tries[|tries| - 1];
      Accepted(codes, earlier) + if last in After(codes, earlier) then [last] else []
  }

  /** Conservation: whatever is tried, in any order, the accepted codes and the remaining ones are together exactly
      the initial codes. */
  lemma {:induction false} CodesAreConserved(codes: seq<Text>, tries: seq<Text>)
    ensures multiset(Accepted(codes, tries)) + multiset(After(codes, tries)) == multiset(codes)
    ensures |Accepted(codes, tries)| + |After(codes, tries)| == |codes|
  {
    if tries != [] {
      var earlier, last := tries[..|tries| - 1], tries[|tries| - 1];
      CodesAreConserved(codes, earlier);
      RemoveConsumesOne(After(codes, earlier), last);
    }
  }

  /** A code is accepted at most as often as it was generated. */
  lemma SingleUse(codes: seq<Text>, tries: seq<Text>, code: Text)
    ensures multiset(Accepted(codes, tries))[code] <= multiset(codes)[code]
  {
    CodesAreConserved(codes, tries);
  }

  /** A try is refused exactly when all copies of its code have been accepted before. */
  lemma RefusedIffUsedUp(codes: seq<Text>, tries: seq<Text>, code: Text)
    ensures code !in After(codes, tries) <==> multiset(Accepted(codes, tries))[code] == multiset(codes)[code]
  {
    CodesAreConserved(codes, tries);
    assert code in After(codes, tries) <==> multiset(After(codes, tries))[code] > 0;
  }

  /** A run as the server makes it, one `Validate` call after the other. */
  method ValidateAll(stored: BackupCodeSet, tries: seq<Text>) returns (accepted: seq<Text>)
    modifies stored
    ensures accepted == Accepted(old(stored.codes), tries)
    ensures stored.codes == After(old(stored.codes), tries)
    ensures |accepted| + stored.Remaining() == |old(stored.codes)|
  {
    accepted := [];
    for k := 0 to |tries|
      invariant accepted == Accepted(old(stored.codes), tries[..k])
      invariant stored.codes == After(old(stored.codes), tries[..k])
    {
      assert tries[..k + 1][..k] == tries[..k];
      var ok := stored.Validate(tries[k]);
      if ok {
        accepted := accepted + [tries[k]];
      }
    }
    assert tries[..|tries|] == tries;
    CodesAreConserved(old(stored.codes), tries);
  }
}
