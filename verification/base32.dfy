/** `to_base32`: 40 bits at a time through a 64-bit accumulator, against section 6 of RFC 4648 read bit by bit,
    without padding characters. */
module Base32 {
  import opened JsonValues

  type Byte = b: nat | b < 256

  const U64: nat := 0x1_0000_0000_0000_0000

  function Pow2(n: nat): (r: nat)
    ensures r > 0
  {
    if n == 0 then 1 else 2 * Pow2(n - 1)
  }

  // ----- bits, most significant first -----

  predicate AreBits(bits: seq<nat>) {
    forall k :: 0 <= k < |bits| ==> bits[k] < 2
  }

  function FromBits(bits: seq<nat>): nat {
    if bits == [] then 0 else 2 * FromBits(bits[..|bits| - 1]) + bits[|bits| - 1]
  }

  function ToBits(n: nat, width: nat): (r: seq<nat>)
    ensures |r| == width && AreBits(r)
  {
    if width == 0 then [] else ToBits(n / 2, width - 1) + [n % 2]
  }

  lemma {:induction false} FromBitsBound(bits: seq<nat>)
    requires AreBits(bits)
    ensures FromBits(bits) < Pow2(|bits|)
  {
    if bits != [] {
      FromBitsBound(bits[..|bits| - 1]);
    }
  }

  lemma {:induction false} FromToBits(n: nat, width: nat)
    requires n < Pow2(width)
    ensures FromBits(ToBits(n, width)) == n
  {
    if width > 0 {
      FromToBits(n / 2, width - 1);
      var bits := ToBits(n, width);
      assert bits[..width - 1] == ToBits(n / 2, width - 1);
    }
  }

  lemma {:induction false} ToFromBits(bits: seq<nat>)
    requires AreBits(bits)
    ensures ToBits(FromBits(bits), |bits|) == bits
  {
    if bits != [] {
      ToFromBits(bits[..|bits| - 1]);
      assert bits == bits[..|bits| - 1] + [bits[|bits| - 1]];
    }
  }

  lemma {:induction false} FromBitsConcat(a: seq<nat>, b: seq<nat>)
    ensures FromBits(a + b) == FromBits(a) * Pow2(|b|) + FromBits(b)
    decreases |b|
  {
    if b == [] {
      assert a + b == a;
    } else {
      var c := b[..|b| - 1];
      FromBitsConcat(a, c);
      assert (a + b)[..|a + b| - 1] == a + c;
      Double(FromBits(a), Pow2(|c|), FromBits(c));
    }
  }

  lemma Double(x: nat, p: nat, y: nat)
    ensures 2 * (x * p + y) == x * (2 * p) + 2 * y
  {
  }

  lemma DivModExact(q: nat, p: nat, r: nat)
    requires p > 0 && r < p
    ensures (q * p + r) / p == q && (q * p + r) % p == r
  {
    var n := q * p + r;
    QuotientUnique(q, r, n / p, n % p, p);
  }

  lemma QuotientUnique(q: int, r: nat, q': int, r': nat, p: nat)
    requires r < p && r' < p && q * p + r == q' * p + r'
    ensures q == q' && r == r'
  {
    assert (q - q') * p == r' - r;
    if q > q' {
      AtLeast(q - q', p);
    } else if q < q' {
      assert (q' - q) * p == r - r';
      AtLeast(q' - q, p);
    }
  }

  lemma AtLeast(x: nat, p: nat)
    requires x >= 1
    ensures x * p >= p
  {
  }

  /** Shifting right and masking selects the bits in between. */
  lemma ShiftAndMask(a: seq<nat>, m: seq<nat>, c: seq<nat>)
    requires AreBits(m) && AreBits(c)
    ensures (FromBits(a + m + c) / Pow2(|c|)) % Pow2(|m|) == FromBits(m)
  {
    FromBitsConcat(a + m, c);
    FromBitsConcat(a, m);
    FromBitsBound(c);
    FromBitsBound(m);
    DivModExact(FromBits(a + m), Pow2(|c|), FromBits(c));
    DivModExact(FromBits(a), Pow2(|m|), FromBits(m));
  }

  // ----- the reference encoding -----

  /** The alphabet of table 3. */
  function Symbol(v: nat): char
    requires v < 32
  {
    if v <= 25 then 'A' + v as char else '2' + (v - 26) as char
  }

  function SymbolValue(c: char): Option<nat> {
    if 'A' <= c <= 'Z' then Some((c - 'A') as nat)
    else if '2' <= c <= '7' then Some(26 + (c - '2') as nat)
    else None
  }

  lemma SymbolRoundTrip(v: nat)
    requires v < 32
    ensures SymbolValue(Symbol(v)) == Some(v)
  {
  }

  /** Bit `k` of the input; beyond its end, zero. */
  function BitAt(bytes: seq<Byte>, k: nat): (r: nat)
    ensures r < 2
  {
    if k / 8 < |bytes| then ToBits(bytes[k / 8], 8)[k % 8] else 0
  }

  function BitsFrom(bytes: seq<Byte>, start: nat, count: nat): (r: seq<nat>)
    ensures |r| == count && AreBits(r)
    ensures forall x :: 0 <= x < count ==> r[x] == BitAt(bytes, start + x)
  {
    var r := seq<nat>(count, x requires 0 <= x < count => BitAt(bytes, start + x));
    assert forall x :: 0 <= x < count ==> r[x] == BitAt(bytes, start + x);
    r
  }

  function SymbolCount(n: nat): nat {
    (8 * n + 4) / 5
  }

  /** The `j`-th group of five bits, as a symbol. */
  function SymbolAt(bytes: seq<Byte>, j: nat): char {
    FromBitsBound(BitsFrom(bytes, 5 * j, 5));
    PowersOf256();
    Symbol(FromBits(BitsFrom(bytes, 5 * j, 5)))
  }

  function Encode(bytes: seq<Byte>): (r: string)
    ensures |r| == SymbolCount(|bytes|)
    ensures forall j :: 0 <= j < |r| ==> r[j] == SymbolAt(bytes, j)
  {
    seq(SymbolCount(|bytes|), j requires 0 <= j < SymbolCount(|bytes|) => SymbolAt(bytes, j))
  }

  predicate InAlphabet(text: string) {
    forall k :: 0 <= k < |text| ==> SymbolValue(text[k]).Some?
  }

  function DecodedBit(text: string, k: nat): (r: nat)
    requires InAlphabet(text) && k < 5 * |text|
  {
    ToBits(SymbolValue(text[k / 5]).value, 5)[k % 5]
  }

  function DecodedByte(text: string, i: nat): nat
    requires InAlphabet(text) && 8 * i + 8 <= 5 * |text|
  {
    FromBits(seq<nat>(8, x requires 0 <= x < 8 => DecodedBit(text, 8 * i + x)))
  }

  /** Whole bytes are read off; what is left at the end is padding. */
  function Decode(text: string): Option<seq<nat>> {
    if !InAlphabet(text) then None
    else Some(seq(5 * |text| / 8, i requires 0 <= i < 5 * |text| / 8 => DecodedByte(text, i)))
  }

  // ----- the encoding loses nothing -----

  lemma EncodedInAlphabet(bytes: seq<Byte>)
    ensures InAlphabet(Encode(bytes))
  {
    forall j | 0 <= j < |Encode(bytes)|
      ensures SymbolValue(Encode(bytes)[j]) == Some(FromBits(BitsFrom(bytes, 5 * j, 5)))
    {
      SymbolAtValue(bytes, j);
    }
  }

  lemma SymbolAtValue(bytes: seq<Byte>, j: nat)
    ensures FromBits(BitsFrom(bytes, 5 * j, 5)) < 32
    ensures SymbolValue(SymbolAt(bytes, j)) == Some(FromBits(BitsFrom(bytes, 5 * j, 5)))
  {
    hide FromBits, Pow2, BitAt;
    FromBitsBound(BitsFrom(bytes, 5 * j, 5));
    PowersOf256();
    SymbolRoundTrip(FromBits(BitsFrom(bytes, 5 * j, 5)));
  }

  lemma DecodedBitIsBit(bytes: seq<Byte>, k: nat)
    requires k < 5 * |Encode(bytes)| && InAlphabet(Encode(bytes))
    ensures DecodedBit(Encode(bytes), k) == BitAt(bytes, k)
  {
    hide FromBits, ToBits, Pow2, BitAt, SymbolAt;
    var j := k / 5;
    SymbolAtValue(bytes, j);
    ToFromBits(BitsFrom(bytes, 5 * j, 5));
    assert 5 * j + k % 5 == k;
  }

  lemma BitOfByte(bytes: seq<Byte>, i: nat, x: nat)
    requires i < |bytes| && x < 8
    ensures BitAt(bytes, 8 * i + x) == ToBits(bytes[i], 8)[x]
  {
    hide ToBits;
    assert (8 * i + x) / 8 == i && (8 * i + x) % 8 == x;
  }

  lemma DecodedByteIsByte(bytes: seq<Byte>, i: nat)
    requires i < |bytes| && InAlphabet(Encode(bytes)) && 8 * i + 8 <= 5 * |Encode(bytes)|
    ensures DecodedByte(Encode(bytes), i) == bytes[i]
  {
    hide FromBits, ToBits, Pow2, BitAt, DecodedBit;
    var bits := seq<nat>(8, x requires 0 <= x < 8 => DecodedBit(Encode(bytes), 8 * i + x));
    forall x | 0 <= x < 8 ensures bits[x] == ToBits(bytes[i], 8)[x] {
      DecodedBitIsBit(bytes, 8 * i + x);
      BitOfByte(bytes, i, x);
    }
    assert bits == ToBits(bytes[i], 8);
    PowersOf256();
    FromToBits(bytes[i], 8);
  }

  /** Decoding returns the original bytes, for every byte string. */
  lemma Lossless(bytes: seq<Byte>)
    ensures Decode(Encode(bytes)) == Some(bytes)
  {
    hide SymbolAt, DecodedByte;
    EncodedInAlphabet(bytes);
    assert 5 * |Encode(bytes)| / 8 == |bytes|;
    var decoded := Decode(Encode(bytes)).value;
    forall i | 0 <= i < |bytes| ensures decoded[i] == bytes[i] {
      DecodedByteIsByte(bytes, i);
    }
    assert decoded == bytes;
  }

  /** The symbols cut off after the last significant one stand for padding bits only, and are all zero; the last one
      kept carries at least one bit of the input. */
  lemma OnlyPaddingTrimmed(bytes: seq<Byte>, j: nat)
    ensures j >= SymbolCount(|bytes|) ==> 5 * j >= 8 * |bytes| && SymbolAt(bytes, j) == 'A'
    ensures j < SymbolCount(|bytes|) ==> 5 * j < 8 * |bytes|
  {
    hide FromBits, Pow2, ToBits;
    if j >= SymbolCount(|bytes|) {
      ZerosAreZero(BitsFrom(bytes, 5 * j, 5));
      assert SymbolAt(bytes, j) == Symbol(0);
    } else {
      assert 5 * (j + 1) <= 5 * SymbolCount(|bytes|) <= 8 * |bytes| + 4;
    }
  }

  lemma {:induction false} ZerosAreZero(bits: seq<nat>)
    requires forall k :: 0 <= k < |bits| ==> bits[k] == 0
    ensures FromBits(bits) == 0
  {
    if bits != [] {
      ZerosAreZero(bits[..|bits| - 1]);
    }
  }

  // ----- the implementation -----

  /** `(acc << 8) | b` on 64 bits. */
  function PushByte(acc: nat, b: Byte): nat {
    (acc * 256) % U64 + b
  }

  /** Folding the chunk: the accumulator holds its bits and never exceeds 40 bits, so nothing is shifted out. */
  method FoldChunk(bytes: seq<Byte>, start: nat, len: nat) returns (val: nat)
    requires start + len <= |bytes| && len <= 5
    ensures val == FromBits(BitsFrom(bytes, 8 * start, 8 * len)) && val < Pow2(8 * len)
  {
    val := 0;
    for k := 0 to len
      invariant val == FromBits(BitsFrom(bytes, 8 * start, 8 * k)) && val < Pow2(8 * k)
    {
      ByteStep(bytes, start, k, val);
      val := PushByte(val, bytes[start + k]);
    }
  }

  lemma ByteStep(bytes: seq<Byte>, start: nat, k: nat, val: nat)
    requires start + k < |bytes| && k < 5
    requires val == FromBits(BitsFrom(bytes, 8 * start, 8 * k)) && val < Pow2(8 * k)
    ensures val * 256 < 18446744073709551616
    ensures PushByte(val, bytes[start + k]) == FromBits(BitsFrom(bytes, 8 * start, 8 * (k + 1)))
    ensures PushByte(val, bytes[start + k]) < Pow2(8 * (k + 1))
  {
    hide FromBits, ToBits, Pow2, BitAt;
    var b := bytes[start + k];
    var before, after := BitsFrom(bytes, 8 * start, 8 * k), BitsFrom(bytes, 8 * start, 8 * (k + 1));
    forall x | 0 <= x < |after| ensures after[x] == (before + ToBits(b, 8))[x] {
      if x >= 8 * k {
        BitOfByte(bytes, start + k, x - 8 * k);
      }
    }
    assert after == before + ToBits(b, 8);
    FromBitsConcat(before, ToBits(b, 8));
    PowersOf256();
    FromToBits(b, 8);
    FromBitsBound(after);
  }

  lemma PowersOf256()
    ensures Pow2(0) == 1 && Pow2(5) == 32 && Pow2(8) == 256 && Pow2(16) == 0x1_0000 && Pow2(24) == 0x100_0000
    ensures Pow2(32) == 0x1_0000_0000 && Pow2(40) == 0x100_0000_0000
  {
    assert Pow2(4) == 16;
    assert Pow2(8) == 256;
    assert Pow2(12) == 4096;
    assert Pow2(16) == 0x1_0000;
    assert Pow2(20) == 0x10_0000;
    assert Pow2(24) == 0x100_0000;
    assert Pow2(28) == 0x1000_0000;
    assert Pow2(32) == 0x1_0000_0000;
    assert Pow2(36) == 0x10_0000_0000;
  }

  /** Shifting a short last chunk up fills the 40 bits with zeros. */
  lemma ShiftChunk(bytes: seq<Byte>, start: nat, len: nat, val: nat)
    requires start + len <= |bytes| && len <= 5 && (len < 5 ==> start + len == |bytes|)
    requires val == FromBits(BitsFrom(bytes, 8 * start, 8 * len)) && val < Pow2(8 * len)
    ensures val * Pow2(8 * (5 - len)) == FromBits(BitsFrom(bytes, 8 * start, 40))
    ensures val * Pow2(8 * (5 - len)) < 18446744073709551616
  {
    hide FromBits, ToBits, Pow2;
    var chunk, word := BitsFrom(bytes, 8 * start, 8 * len), BitsFrom(bytes, 8 * start, 40);
    var rest := word[8 * len..];
    forall x | 0 <= x < |rest| ensures rest[x] == 0 {
      assert (8 * start + 8 * len + x) / 8 >= |bytes|;
    }
    assert word == chunk + rest;
    FromBitsConcat(chunk, rest);
    ZerosAreZero(rest);
    FromBitsBound(word);
    PowersOf256();
  }

  lemma GroupOfWord(bytes: seq<Byte>, start: nat, j: nat, word: nat)
    requires start % 5 == 0 && j < 8 && word == FromBits(BitsFrom(bytes, 8 * start, 40))
    ensures (word / Pow2((7 - j) * 5)) % 32 == FromBits(BitsFrom(bytes, 5 * (start / 5 * 8 + j), 5))
  {
    hide FromBits, ToBits, Pow2, BitAt;
    var bits := BitsFrom(bytes, 8 * start, 40);
    var a, m, c := bits[..5 * j], bits[5 * j..5 * j + 5], bits[5 * j + 5..];
    assert bits == a + m + c;
    ShiftAndMask(a, m, c);
    PowersOf256();
    assert 5 * (start / 5 * 8 + j) == 8 * start + 5 * j;
    assert m == BitsFrom(bytes, 5 * (start / 5 * 8 + j), 5);
  }

  /** The symbol the inner loop computes for the `j`-th group of a word. */
  lemma GroupSymbol(bytes: seq<Byte>, i: nat, j: nat, word: nat)
    requires j < 8 && word == FromBits(BitsFrom(bytes, 8 * (5 * i), 40))
    ensures (word / Pow2((7 - j) * 5)) % 32 < 32
    ensures Symbol((word / Pow2((7 - j) * 5)) % 32) == SymbolAt(bytes, 8 * i + j)
  {
    hide FromBits, Pow2, BitsFrom;
    GroupOfWord(bytes, 5 * i, j, word);
    assert 5 * i / 5 * 8 + j == 8 * i + j;
    SymbolAtValue(bytes, 8 * i + j);
  }

  method ToBase32(secret: seq<Byte>) returns (text: string)
    ensures text == Encode(secret)
  {
    var n := |secret|;
    var chunks := (n + 4) / 5;
    var bytes := new char[chunks * 8](_ => '\0');
    for i := 0 to chunks
      invariant forall k :: 0 <= k < 8 * i ==> bytes[k] == SymbolAt(secret, k)
    {
      FillChunk(secret, i, bytes);
    }
    var significant := (n * 8 + 4) / 5;
    text := bytes[..significant];
  }

  /** The 40 bits of chunk `i`, a short chunk shifted up. */
  method ChunkWord(secret: seq<Byte>, i: nat) returns (shifted: nat)
    requires 5 * i < |secret|
    ensures shifted == FromBits(BitsFrom(secret, 8 * (5 * i), 40))
  {
    hide FromBits, Pow2, BitsFrom;
    var len := if |secret| - 5 * i < 5 then |secret| - 5 * i else 5;
    var val := FoldChunk(secret, 5 * i, len);
    ShiftChunk(secret, 5 * i, len, val);
    assert (5 - len) * 8 == 8 * (5 - len);
    shifted := (val * Pow2((5 - len) * 8)) % U64;
  }

  /** One turn of the outer loop: the eight symbols of chunk `i`. */
  method FillChunk(secret: seq<Byte>, i: nat, bytes: array<char>)
    requires 5 * i < |secret| && 8 * i + 8 <= bytes.Length
    modifies bytes
    ensures forall k :: 0 <= k < bytes.Length ==>
      bytes[k] == if 8 * i <= k < 8 * i + 8 then SymbolAt(secret, k) else old(bytes[k])
  {
    hide FromBits, Pow2, BitsFrom, SymbolAt, Symbol;
    var shifted := ChunkWord(secret, i);
    for j := 0 to 8
      invariant forall k :: 0 <= k < bytes.Length ==>
        bytes[k] == if 8 * i <= k < 8 * i + j then SymbolAt(secret, k) else old(bytes[k])
    {
      GroupSymbol(secret, i, j, shifted);
      var idx := (shifted / Pow2((7 - j) * 5)) % 32;
      bytes[8 * i + j] := Symbol(idx);
    }
  }
}
