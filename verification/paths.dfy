/** JSON Pointer paths: the printer, the reader of RFC 6901, the format checker, and lazily built paths. */
module Paths {
  import opened JsonValues

  /** `LocationSegment` */
  datatype Segment = Property(name: string) | Index(index: nat)

  // ----- the text of a segment -----

  function Digit(d: nat): char
    requires d < 10
  {
    "0123456789"[d]
  }

  function Decimal(n: nat): (r: string)
    ensures forall k :: 0 <= k < |r| ==> '0' <= r[k] <= '9'
  {
    if n < 10 then [Digit(n)] else Decimal(n / 10) + [Digit(n % 10)]
  }

  /** What a string of decimal digits denotes. */
  function Denoted(s: string): nat
    requires forall k :: 0 <= k < |s| ==> '0' <= s[k] <= '9'
  {
    if s == "" then 0 else 10 * Denoted(s[..|s| - 1]) + (s[|s| - 1] - '0') as nat
  }

  /** The digits of an index denote it, most significant first and without a leading zero. */
  lemma {:induction false} DecimalDenotes(n: nat)
    ensures Denoted(Decimal(n)) == n
    ensures Decimal(n) != "" && (n > 0 ==> Decimal(n)[0] != '0') && Decimal(0) == "0"
    decreases n
  {
    if n >= 10 {
      DecimalDenotes(n / 10);
      assert Decimal(n)[..|Decimal(n)| - 1] == Decimal(n / 10);
    }
  }

  function Text(seg: Segment): string {
    match seg
    case Property(name) => name
    case Index(index) => Decimal(index)
  }

  function Texts(segs: seq<Segment>): (r: seq<string>)
    ensures |r| == |segs|
  {
    seq(|segs|, k requires 0 <= k < |segs| => Text(segs[k]))
  }

  // ----- printing -----

  function EscapeChar(c: char): string {
    if c == '~' then "~0" else if c == '/' then "~1" else [c]
  }

  function Escape(text: string): string {
    if text == "" then "" else EscapeChar(text[0]) + Escape(text[1..])
  }

  /** The pointer of a list of reference tokens. */
  function PointerOf(tokens: seq<string>): string {
    if tokens == [] then "" else "/" + Escape(tokens[0]) + PointerOf(tokens[1..])
  }

  // ----- reading, by section 4 of RFC 6901 -----

  /** Replaces each `ab`, from left to right, by `c`. */
  function Replace(s: string, a: char, b: char, c: char): string {
    if |s| >= 2 && s[0] == a && s[1] == b then [c] + Replace(s[2..], a, b, c)
    else if s == "" then ""
    else [s[0]] + Replace(s[1..], a, b, c)
  }

  /** First every `~1` becomes `/`, then every `~0` becomes `~`. */
  function Unescape(token: string): string {
    Replace(Replace(token, '~', '1', '/'), '~', '0', '~')
  }

  /** The reference tokens, still escaped: what lies between the slashes. */
  function Split(s: string): (r: seq<string>)
    ensures |r| > 0
  {
    if s == "" then [""]
    else
      var rest := Split(s[1..]);
      if s[0] == '/' then [""] + rest else [[s[0]] + rest[0]] + rest[1..]
  }

  function UnescapeAll(tokens: seq<string>): seq<string> {
    if tokens == [] then [] else [Unescape(tokens[0])] + UnescapeAll(tokens[1..])
  }

  /** A `~` is followed by `0` or `1`. */
  predicate EscapesOk(s: string) {
    s == "" || (
      if s[0] == '~' then |s| >= 2 && (s[1] == '0' || s[1] == '1') && EscapesOk(s[2..]) else EscapesOk(s[1..]))
  }

  /** The syntax of section 3. */
  predicate IsPointer(p: string) {
    p == "" || (p[0] == '/' && EscapesOk(p))
  }

  function Read(p: string): Option<seq<string>> {
    if !IsPointer(p) then None else if p == "" then Some([]) else Some(UnescapeAll(Split(p[1..])))
  }

  // ----- escaping and unescaping -----

  function EscapeTildes(text: string): string {
    if text == "" then "" else (if text[0] == '~' then "~0" else [text[0]]) + EscapeTildes(text[1..])
  }

  lemma {:induction false} SlashesFirst(text: string)
    ensures Replace(Escape(text), '~', '1', '/') == EscapeTildes(text)
  {
    if text != "" {
      SlashesFirst(text[1..]);
      var rest := Escape(text[1..]);
      if text[0] == '~' {
        assert ("~0" + rest)[1..] == ['0'] + rest && (['0'] + rest)[1..] == rest;
      } else if text[0] == '/' {
        assert ("~1" + rest)[2..] == rest;
      } else {
        assert ([text[0]] + rest)[1..] == rest;
      }
    }
  }

  lemma {:induction false} TildesSecond(text: string)
    ensures Replace(EscapeTildes(text), '~', '0', '~') == text
  {
    if text != "" {
      TildesSecond(text[1..]);
      var rest := EscapeTildes(text[1..]);
      if text[0] == '~' {
        assert ("~0" + rest)[2..] == rest;
      } else {
        assert ([text[0]] + rest)[1..] == rest;
      }
    }
  }

  lemma UnescapeEscape(text: string)
    ensures Unescape(Escape(text)) == text
  {
    SlashesFirst(text);
    TildesSecond(text);
  }

  predicate NoSlash(s: string) {
    forall k :: 0 <= k < |s| ==> s[k] != '/'
  }

  lemma {:induction false} EscapedShape(text: string)
    ensures NoSlash(Escape(text)) && EscapesOk(Escape(text))
  {
    if text != "" {
      EscapedShape(text[1..]);
      var rest := Escape(text[1..]);
      if text[0] == '~' || text[0] == '/' {
        assert (EscapeChar(text[0]) + rest)[2..] == rest;
      } else {
        assert (EscapeChar(text[0]) + rest)[1..] == rest;
      }
    }
  }

  /** A token without slashes and with proper escapes is the escape of what it unescapes to. */
  lemma {:induction false} EscapeUnescape(token: string) returns (text: string)
    requires NoSlash(token) && EscapesOk(token)
    ensures token == Escape(text)
  {
    if token == "" {
      text := "";
    } else if token[0] == '~' {
      var rest := EscapeUnescape(token[2..]);
      text := [if token[1] == '0' then '~' else '/'] + rest;
      assert text[1..] == rest;
    } else {
      var rest := EscapeUnescape(token[1..]);
      text := [token[0]] + rest;
      assert text[1..] == rest;
    }
  }

  // ----- splitting and joining -----

  lemma {:induction false} SplitToken(a: string, rest: string)
    requires NoSlash(a)
    ensures Split(a + "/" + rest) == [a] + Split(rest)
  {
    if a == "" {
      assert a + "/" + rest == "/" + rest && ("/" + rest)[1..] == rest;
    } else {
      SplitToken(a[1..], rest);
      assert (a + "/" + rest)[1..] == a[1..] + "/" + rest;
      assert [a[0]] + a[1..] == a;
      assert ([a[1..]] + Split(rest))[1..] == Split(rest);
    }
  }

  lemma {:induction false} SplitLast(a: string)
    requires NoSlash(a)
    ensures Split(a) == [a]
  {
    if a != "" {
      SplitLast(a[1..]);
      assert [a[0]] + a[1..] == a;
    }
  }

  lemma {:induction false} EscapesConcat(a: string, b: string)
    requires EscapesOk(a)
    ensures EscapesOk(a + b) <==> EscapesOk(b)
    decreases |a|
  {
    if a == "" {
      assert a + b == b;
    } else if a[0] == '~' {
      EscapesConcat(a[2..], b);
      assert (a + b)[2..] == a[2..] + b;
    } else {
      EscapesConcat(a[1..], b);
      assert (a + b)[1..] == a[1..] + b;
    }
  }

  lemma {:induction false} PointerShape(tokens: seq<string>)
    ensures EscapesOk(PointerOf(tokens)) && IsPointer(PointerOf(tokens))
  {
    if tokens != [] {
      var head, rest := Escape(tokens[0]), PointerOf(tokens[1..]);
      PointerShape(tokens[1..]);
      EscapedShape(tokens[0]);
      EscapesConcat("/" + head, rest) by {
        assert ("/" + head)[1..] == head;
      }
    }
  }

  function EscapeAll(tokens: seq<string>): seq<string> {
    if tokens == [] then [] else [Escape(tokens[0])] + EscapeAll(tokens[1..])
  }

  lemma SplitStep(head: string, rest: string)
    requires NoSlash(head) && (rest != "" ==> rest[0] == '/')
    ensures Split(head + rest) == [head] + if rest == "" then [] else Split(rest[1..])
  {
    hide Split;
    if rest == "" {
      assert head + rest == head;
      SplitLast(head);
    } else {
      SplitToken(head, rest[1..]);
      assert head + rest == head + "/" + rest[1..];
    }
  }

  lemma PointerStep(tokens: seq<string>)
    requires tokens != []
    ensures PointerOf(tokens)[1..] == Escape(tokens[0]) + PointerOf(tokens[1..])
    ensures PointerOf(tokens)[0] == '/'
  {
    hide Escape;
  }

  lemma {:induction false} SplitPointer(tokens: seq<string>)
    requires tokens != []
    ensures Split(PointerOf(tokens)[1..]) == EscapeAll(tokens)
  {
    hide Escape, Split, NoSlash;
    EscapedShape(tokens[0]);
    PointerStep(tokens);
    if tokens[1..] == [] {
      NoTokens();
    } else {
      SplitPointer(tokens[1..]);
      PointerStep(tokens[1..]);
    }
    SplitStep(Escape(tokens[0]), PointerOf(tokens[1..]));
  }

  lemma NoTokens()
    ensures PointerOf([]) == ""
  {
  }

  lemma {:induction false} UnescapeEscapeAll(tokens: seq<string>)
    ensures UnescapeAll(EscapeAll(tokens)) == tokens
  {
    if tokens != [] {
      UnescapeEscape(tokens[0]);
      UnescapeEscapeAll(tokens[1..]);
    }
  }

  /** Reading undoes printing: the tokens come back. */
  lemma ReadPrint(tokens: seq<string>)
    ensures Read(PointerOf(tokens)) == Some(tokens)
  {
    PointerShape(tokens);
    if tokens != [] {
      SplitPointer(tokens);
      UnescapeEscapeAll(tokens);
    }
  }

  lemma {:induction false} FirstSlash(s: string) returns (k: nat)
    ensures k <= |s| && NoSlash(s[..k]) && (k < |s| ==> s[k] == '/')
  {
    k := 0;
    while k < |s| && s[k] != '/'
      invariant k <= |s| && NoSlash(s[..k])
    {
      k := k + 1;
    }
  }

  lemma {:induction false} PrefixEscapes(s: string, k: nat)
    requires EscapesOk(s) && k <= |s| && (k < |s| ==> s[k] == '/')
    ensures EscapesOk(s[..k]) && EscapesOk(s[k..])
    decreases |s|
  {
    if k == |s| {
      assert s[..k] == s && s[k..] == "";
    } else if k > 0 {
      if s[0] == '~' {
        PrefixEscapes(s[2..], k - 2);
        assert s[2..][..k - 2] == s[..k][2..] && s[2..][k - 2..] == s[k..];
      } else {
        PrefixEscapes(s[1..], k - 1);
        assert s[1..][..k - 1] == s[..k][1..] && s[1..][k - 1..] == s[k..];
      }
    } else {
      assert s[k..] == s;
    }
  }

  /** Every pointer of section 3 is printed from some tokens. */
  lemma {:induction false} PointerHasTokens(p: string) returns (tokens: seq<string>)
    requires IsPointer(p)
    ensures PointerOf(tokens) == p
    decreases |p|
  {
    if p == "" {
      tokens := [];
    } else {
      var s := p[1..];
      var k := FirstSlash(s);
      PrefixEscapes(s, k);
      var text := EscapeUnescape(s[..k]);
      var rest := PointerHasTokens(s[k..]);
      tokens := [text] + rest;
      assert tokens[1..] == rest;
      assert p == "/" + s[..k] + s[k..];
    }
  }

  /** Printing undoes reading: whatever is read prints back to the same text. */
  lemma PrintRead(p: string)
    requires Read(p).Some?
    ensures PointerOf(Read(p).value) == p
  {
    var tokens := PointerHasTokens(p);
    ReadPrint(tokens);
  }

  // ----- locations -----

  /** `as_json_pointer` on the segments, as one expression. */
  function Pointer(segs: seq<Segment>): string {
    PointerOf(Texts(segs))
  }

  /** A token stands for a segment: the name itself, or decimal digits that denote the index, without a leading zero. */
  predicate StandsFor(token: string, seg: Segment) {
    match seg
    case Property(name) => token == name
    case Index(index) =>
      && token != "" && (forall k :: 0 <= k < |token| ==> '0' <= token[k] <= '9')
      && Denoted(token) == index && (|token| > 1 ==> token[0] != '0')
  }

  /** A location's pointer reads back as one token for each segment, in order, each standing for its segment. */
  lemma LocationRoundTrip(segs: seq<Segment>)
    ensures var r := Read(Pointer(segs));
      r.Some? && |r.value| == |segs| && forall k :: 0 <= k < |segs| ==> StandsFor(r.value[k], segs[k])
  {
    hide Read, Pointer, PointerOf, Decimal, Denoted;
    ReadsTexts(segs);
    forall k | 0 <= k < |segs| ensures StandsFor(Texts(segs)[k], segs[k]) {
      if segs[k].Index? {
        DecimalDenotes(segs[k].index);
        ShortDecimal(segs[k].index);
      }
    }
  }

  lemma ReadsTexts(segs: seq<Segment>)
    ensures Read(Pointer(segs)) == Some(Texts(segs))
  {
    ReadPrint(Texts(segs));
  }

  lemma ShortDecimal(n: nat)
    ensures |Decimal(n)| > 1 ==> Decimal(n)[0] != '0'
  {
    DecimalDenotes(n);
  }

  function Properties(tokens: seq<string>): seq<Segment> {
    seq(|tokens|, k requires 0 <= k < |tokens| => Property(tokens[k]))
  }

  /** The format accepts exactly the pointers of locations. */
  lemma PointersAreLocationPointers(p: string)
    ensures IsPointer(p) <==> exists segs :: Pointer(segs) == p
  {
    if IsPointer(p) {
      var tokens := PointerHasTokens(p);
      assert Texts(Properties(tokens)) == tokens;
      assert Pointer(Properties(tokens)) == p;
    } else if exists segs :: Pointer(segs) == p {
      var segs :| Pointer(segs) == p;
      PointerShape(Texts(segs));
    }
  }

  lemma {:induction false} PointerAppend(tokens: seq<string>, last: string)
    ensures PointerOf(tokens + [last]) == PointerOf(tokens) + ("/" + Escape(last))
  {
    hide Escape;
    var all := tokens + [last];
    if tokens == [] {
      assert all[1..] == [] && all[0] == last;
      assert PointerOf(all) == "/" + Escape(last) + "";
    } else {
      PointerAppend(tokens[1..], last);
      assert all[1..] == tokens[1..] + [last] && all[0] == tokens[0];
      var head, middle, tail := "/" + Escape(tokens[0]), PointerOf(tokens[1..]), "/" + Escape(last);
      assert head + (middle + tail) == head + middle + tail;
    }
  }

  lemma {:induction false} EscapeAppend(text: string, c: char)
    ensures Escape(text + [c]) == Escape(text) + EscapeChar(c)
  {
    if text == "" {
      assert [c][1..] == "" && Escape([c][1..]) == "";
    } else {
      EscapeAppend(text[1..], c);
      assert (text + [c])[1..] == text[1..] + [c];
    }
  }

  lemma {:induction false} EscapeDecimal(s: string)
    requires forall k :: 0 <= k < |s| ==> '0' <= s[k] <= '9'
    ensures Escape(s) == s
  {
    if s != "" {
      EscapeDecimal(s[1..]);
    }
  }

  /** The inner loop of `as_json_pointer`. */
  method AppendEscaped(start: string, name: string) returns (result: string)
    ensures result == start + Escape(name)
  {
    result := start;
    for j := 0 to |name|
      invariant result == start + Escape(name[..j])
    {
      EscapeAppend(name[..j], name[j]);
      assert name[..j + 1] == name[..j] + [name[j]];
      assert start + Escape(name[..j + 1]) == result + EscapeChar(name[j]);
      if name[j] == '~' {
        result := result + "~0";
      } else if name[j] == '/' {
        result := result + "~1";
      } else {
        result := result + [name[j]];
      }
    }
    assert name[..|name|] == name;
  }

  /** `Location`: a path being built. */
  class Location {
    var segments: seq<Segment>

    constructor ()
      ensures segments == []
    {
      segments := [];
    }

    method PushProperty(name: string)
      modifies this
      ensures segments == old(segments) + [Property(name)]
    {
      segments := segments + [Property(name)];
    }

    method PushIndex(index: nat)
      modifies this
      ensures segments == old(segments) + [Index(index)]
    {
      segments := segments + [Index(index)];
    }

    method Pop() returns (removed: bool)
      modifies this
      ensures removed == (old(segments) != [])
      ensures segments == if removed then old(segments)[..|old(segments)| - 1] else []
    {
      removed := |segments| > 0;
      if removed {
        segments := segments[..|segments| - 1];
      }
    }

    /** Only text is escaped; the digits of an index are appended as they are. */
    method AsJsonPointer() returns (result: string)
      ensures result == Pointer(segments)
    {
      hide Pointer, Escape, Decimal;
      NoSegments();
      result := "";
      if |segments| == 0 {
        return;
      }
      for k := 0 to |segments|
        invariant result == Pointer(segments[..k])
      {
        NextSegment(segments, k);
        match segments[k]
        case Property(name) =>
          assert result + "/" + Escape(name) == result + ("/" + Escape(name));
          result := AppendEscaped(result + "/", name);
        case Index(index) =>
          EscapeDecimal(Decimal(index));
          assert result + "/" + Decimal(index) == result + ("/" + Decimal(index));
          result := result + "/" + Decimal(index);
      }
      assert segments[..|segments|] == segments;
    }
  }

  lemma NoSegments()
    ensures Pointer([]) == ""
  {
  }

  lemma NextSegment(segs: seq<Segment>, k: nat)
    requires k < |segs|
    ensures Pointer(segs[..k + 1]) == Pointer(segs[..k]) + ("/" + Escape(Text(segs[k])))
  {
    hide Escape, PointerOf;
    PointerAppend(Texts(segs[..k]), Text(segs[k]));
    assert Texts(segs[..k + 1]) == Texts(segs[..k]) + [Text(segs[k])];
  }

  /** `JsonPointerChecker::check`: a scan that consumes the character after each `~`. */
  method CheckJsonPointer(value: string) returns (ok: bool)
    ensures ok <==> IsPointer(value)
  {
    if |value| == 0 {
      return true;
    }
    if value[0] != '/' {
      return false;
    }
    var k := 0;
    while k < |value|
      invariant k <= |value|
      invariant EscapesOk(value) <==> EscapesOk(value[k..])
    {
      var c := value[k];
      k := k + 1;
      assert value[k - 1..][1..] == value[k..];
      if c == '~' {
        if k < |value| && (value[k] == '0' || value[k] == '1') {
          k := k + 1;
          assert value[k - 2..][2..] == value[k..];
        } else {
          return false;
        }
      }
    }
    ok := true;
  }

  // ----- lazy locations -----

  /** `LazyLocation`: an immutable chain of frames, each pointing at its parent. */
  datatype LazyLocation = Frame(parent: Option<LazyLocation>, segment: Option<Segment>)

  const ROOT := Frame(None, None)

  function Push(at: LazyLocation, seg: Segment): LazyLocation {
    Frame(Some(at), Some(seg))
  }

  function PushAll(at: LazyLocation, segs: seq<Segment>): LazyLocation {
    if segs == [] then at else Push(PushAll(at, segs[..|segs| - 1]), segs[|segs| - 1])
  }

  function Own(at: LazyLocation): seq<Segment> {
    if at.segment.Some? then [at.segment.value] else []
  }

  /** The segments of a chain from the root down. */
  function RootToLeaf(at: LazyLocation): seq<Segment> {
    if at.parent.Some? then RootToLeaf(at.parent.value) + Own(at) else Own(at)
  }

  function Reversed(s: seq<Segment>): (r: seq<Segment>)
    ensures |r| == |s| && forall k :: 0 <= k < |s| ==> r[k] == s[|s| - 1 - k]
  {
    if s == [] then [] else Reversed(s[1..]) + [s[0]]
  }

  method Materialize(at: LazyLocation) returns (segments: seq<Segment>)
    ensures segments == RootToLeaf(at)
  {
    segments := [];
    var current := at;
    while true
      invariant RootToLeaf(current) + Reversed(segments) == RootToLeaf(at)
      decreases current
    {
      if current.segment.Some? {
        assert Reversed(segments + [current.segment.value]) == [current.segment.value] + Reversed(segments);
        segments := segments + [current.segment.value];
      }
      if current.parent.None? {
        break;
      }
      current := current.parent.value;
    }
    segments := Reversed(segments);
  }

  lemma {:induction false} PushAllExtends(at: LazyLocation, segs: seq<Segment>)
    ensures RootToLeaf(PushAll(at, segs)) == RootToLeaf(at) + segs
    decreases |segs|
  {
    if segs != [] {
      PushAllExtends(at, segs[..|segs| - 1]);
      assert segs == segs[..|segs| - 1] + [segs[|segs| - 1]];
    }
  }

  /** Materializing a chain of pushes gives the pushed segments in the order they were pushed. */
  lemma {:induction false} MaterializePushes(segs: seq<Segment>)
    ensures RootToLeaf(PushAll(ROOT, segs)) == segs
  {
    PushAllExtends(ROOT, segs);
  }
}
