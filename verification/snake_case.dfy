/** The two camelCase-to-snake_case conversions, against one description: each kept character is lowered, and an
    underscore stands before it where a word starts. They differ only in where a word starts. */
module SnakeCase {

  predicate IsUpper(c: char) {
    'A' <= c <= 'Z'
  }

  predicate IsLower(c: char) {
    'a' <= c <= 'z'
  }

  predicate IsDigit(c: char) {
    '0' <= c <= '9'
  }

  /** `to_ascii_lowercase` */
  function Lower(c: char): char {
    if IsUpper(c) then c - 'A' + 'a' else c
  }

  /** The Unicode classes `char::is_uppercase`, `is_lowercase` and `is_alphanumeric`. */
  datatype Letters = Letters(upper: char -> bool, lower: char -> bool, alphanumeric: char -> bool)

  /** The converter of `api_catalog.rs`, which knows ASCII classes only, and the one of `endpoint.rs`. */
  datatype Style = Catalog | Endpoint(letters: Letters)

  /** All that is assumed of the Unicode classes: on ASCII characters they are the ASCII ones. */
  ghost predicate Sound(style: Style) {
    style.Endpoint? ==> forall c: char | c < 128 as char ::
      && (style.letters.upper(c) <==> IsUpper(c))
      && (style.letters.lower(c) <==> IsLower(c))
      && (style.letters.alphanumeric(c) <==> IsUpper(c) || IsLower(c) || IsDigit(c))
  }

  const DELIMITERS: string := ".-_@:<>[](),~/\'"

  predicate IsDelimiter(style: Style, c: char) {
    match style
    case Catalog => c in DELIMITERS
    case Endpoint(letters) => !letters.alphanumeric(c)
  }

  /** A word starts at `p`, seen from the character before it in the same part. The catalog breaks before a capital
      after anything else, and before the last capital of a run that goes on in lower case; the endpoint breaks
      before a capital after any letter it has written in lower case, and before one that goes on in lower case. */
  predicate StartsWord(style: Style, s: string, p: nat)
    requires 0 < p < |s|
  {
    match style
    case Catalog => IsUpper(s[p]) && ((p + 1 < |s| && IsLower(s[p + 1])) || !IsUpper(s[p - 1]))
    case Endpoint(letters) =>
      letters.upper(s[p]) && ((p + 1 < |s| && letters.lower(s[p + 1])) || letters.lower(Lower(s[p - 1])))
  }

  /** An underscore before `p`, when something has been written already. */
  predicate Breaks(style: Style, s: string, p: nat)
    requires p < |s|
  {
    p == 0 || IsDelimiter(style, s[p - 1]) || StartsWord(style, s, p)
  }

  /** One more kept character. */
  function Append(done: string, breaks: bool, c: char): string {
    if done != "" && breaks then done + "_" + [c] else done + [c]
  }

  /** The conversion of the first `p` characters of `s`. */
  function Rendered(style: Style, s: string, p: nat): string
    requires p <= |s|
  {
    if p == 0 then ""
    else
      var done := Rendered(style, s, p - 1);
      if IsDelimiter(style, s[p - 1]) then done else Append(done, Breaks(style, s, p - 1), Lower(s[p - 1]))
  }

  function Snake(style: Style, s: string): string {
    Rendered(style, s, |s|)
  }

  // ----- one part, `camel_to_snake` -----

  predicate OnePart(part: string) {
    forall k :: 0 <= k < |part| ==> !IsDelimiter(Catalog, part[k])
  }

  lemma {:induction false} PartKeepsAll(part: string, p: nat)
    requires OnePart(part) && p <= |part|
    ensures Rendered(Catalog, part, p) == "" <==> p == 0
  {
    if p > 0 {
      PartKeepsAll(part, p - 1);
    }
  }

  lemma NextInPart(part: string, p: nat)
    requires OnePart(part) && p < |part|
    ensures Rendered(Catalog, part, p + 1) ==
      Rendered(Catalog, part, p) + (if p > 0 && StartsWord(Catalog, part, p) then "_" else "") + [Lower(part[p])]
  {
    PartKeepsAll(part, p);
  }

  method CamelToSnake(part: string) returns (result: string)
    requires OnePart(part)
    ensures result == Snake(Catalog, part)
  {
    hide Rendered, IsDelimiter, Breaks, Lower;
    StartsEmpty(part);
    result := "";
    var i := 0;
    while i < |part|
      invariant i <= |part|
      invariant 0 < i < |part| && IsUpper(part[i]) ==> !IsUpper(part[i - 1])
      invariant result == Rendered(Catalog, part, i)
    {
      var c := part[i];
      NextInPart(part, i);
      if IsUpper(c) {
        var j := i + 1;
        while j < |part| && IsUpper(part[j])
          invariant i < j <= |part|
          invariant forall x :: i <= x < j ==> IsUpper(part[x])
        {
          j := j + 1;
        }
        if i > 0 {
          result := result + "_";
        }
        if j - i > 1 {
          result := PushRun(part, i, if j < |part| && IsLower(part[j]) then j - 1 else j, result);
          if j < |part| && IsLower(part[j]) {
            NextInPart(part, j - 1);
            result := result + "_" + [Lower(part[j - 1])];
          }
          i := j;
        } else {
          result := result + [Lower(c)];
          i := i + 1;
        }
      } else {
        NotUpper(c);
        result := result + [c];
        i := i + 1;
      }
    }
  }

  lemma StartsEmpty(part: string)
    ensures Rendered(Catalog, part, 0) == ""
  {
  }

  lemma NotUpper(c: char)
    requires !IsUpper(c)
    ensures Lower(c) == c
  {
  }

  /** The capitals of an acronym, from its first: no word starts among them. */
  method PushRun(part: string, i: nat, end: nat, start: string) returns (result: string)
    requires OnePart(part) && i < end <= |part| && (forall x :: i <= x < end ==> IsUpper(part[x]))
    requires end < |part| ==> !IsLower(part[end])
    requires start + [Lower(part[i])] == Rendered(Catalog, part, i + 1)
    ensures result == Rendered(Catalog, part, end)
  {
    hide Rendered, IsDelimiter, Breaks, Lower;
    result := start + [Lower(part[i])];
    for k := i + 1 to end
      invariant result == Rendered(Catalog, part, k)
    {
      NextInPart(part, k);
      result := result + [Lower(part[k])];
    }
  }

  // ----- the catalog's chain: split, drop what is empty, convert each part, join -----

  function Join(words: seq<string>): string {
    if words == [] then ""
    else if |words| == 1 then words[0]
    else Join(words[..|words| - 1]) + "_" + words[|words| - 1]
  }

  /** Where the part that ends at `p` begins. */
  function PartStart(s: string, p: nat): (q: nat)
    requires p <= |s|
    ensures q <= p && (q > 0 ==> IsDelimiter(Catalog, s[q - 1]))
    ensures forall k :: q <= k < p ==> !IsDelimiter(Catalog, s[k])
  {
    if p == 0 || IsDelimiter(Catalog, s[p - 1]) then p else PartStart(s, p - 1)
  }

  /** The parts of the first `p` characters that are not empty. */
  function Parts(s: string, p: nat): (r: seq<string>)
    requires p <= |s|
    ensures forall k :: 0 <= k < |r| ==> r[k] != "" && OnePart(r[k])
  {
    var q := PartStart(s, p);
    var last := if q < p then [s[q..p]] else [];
    if q == 0 then last else Parts(s, q - 1) + last
  }

  function SnakeEach(parts: seq<string>): (r: seq<string>)
    ensures |r| == |parts| && forall k :: 0 <= k < |r| ==> r[k] == Snake(Catalog, parts[k])
  {
    seq(|parts|, k requires 0 <= k < |parts| => Snake(Catalog, parts[k]))
  }

  function ToSnakeCase(s: string): string {
    Join(SnakeEach(Parts(s, |s|)))
  }

  function Glue(a: string, b: string): string {
    if a == "" then b else if b == "" then a else a + "_" + b
  }

  lemma GlueAppend(a: string, b: string, breaks: bool, c: char)
    ensures Append(Glue(a, b), b == "" || breaks, c) == Glue(a, Append(b, breaks, c))
  {
    if a != "" && b != "" {
      assert a + "_" + b + "_" + [c] == a + "_" + (b + "_" + [c]);
      assert a + "_" + b + [c] == a + "_" + (b + [c]);
    }
  }

  /** Within a part, converting the whole string is converting the part. */
  lemma {:induction false} PartRendered(s: string, q: nat, p: nat, x: nat)
    requires q <= x <= p <= |s| && (q > 0 ==> IsDelimiter(Catalog, s[q - 1]))
    requires (p < |s| ==> IsDelimiter(Catalog, s[p]))
    requires OnePart(s[q..p])
    ensures Rendered(Catalog, s, x) == Glue(Rendered(Catalog, s, q), Rendered(Catalog, s[q..p], x - q))
    decreases x
  {
    hide IsDelimiter, Append, Breaks, Lower, OnePart;
    var part := s[q..p];
    if x > q {
      PartRendered(s, q, p, x - 1);
      PartStep(s, q, p, x - 1);
      PartKeepsAll(part, x - 1 - q);
      GlueAppend(Rendered(Catalog, s, q), Rendered(Catalog, part, x - 1 - q), Breaks(Catalog, part, x - 1 - q),
          Lower(s[x - 1]));
    }
  }

  /** A part's character seen in the part and in the string. */
  lemma PartStep(s: string, q: nat, p: nat, x: nat)
    requires q <= x < p <= |s| && (q > 0 ==> IsDelimiter(Catalog, s[q - 1])) && (p < |s| ==> IsDelimiter(Catalog, s[p]))
    requires OnePart(s[q..p])
    ensures s[q..p][x - q] == s[x] && !IsDelimiter(Catalog, s[x])
    ensures Breaks(Catalog, s, x) <==> x == q || Breaks(Catalog, s[q..p], x - q)
  {
    hide IsDelimiter, StartsWord;
    assert s[q..p][x - q] == s[x];
    if x > q {
      SameStart(s, q, p, x);
      assert s[q..p][x - 1 - q] == s[x - 1];
    }
  }

  lemma SameStart(s: string, q: nat, p: nat, x: nat)
    requires q < x < p <= |s| && (p < |s| ==> IsDelimiter(Catalog, s[p])) && OnePart(s[q..p])
    ensures StartsWord(Catalog, s, x) <==> StartsWord(Catalog, s[q..p], x - q)
    ensures !IsDelimiter(Catalog, s[x - 1])
  {
    var part := s[q..p];
    assert part[x - q] == s[x] && part[x - 1 - q] == s[x - 1];
    if x + 1 < p {
      assert part[x + 1 - q] == s[x + 1];
    }
  }

  /** One more part. */
  lemma ChainStep(s: string, q: nat, p: nat, init: seq<string>)
    requires q < p <= |s| && (q > 0 ==> IsDelimiter(Catalog, s[q - 1])) && (p < |s| ==> IsDelimiter(Catalog, s[p]))
    requires OnePart(s[q..p]) && (forall k :: 0 <= k < |init| ==> init[k] != "" && OnePart(init[k]))
    requires Join(SnakeEach(init)) == Rendered(Catalog, s, q)
    ensures Join(SnakeEach(init + [s[q..p]])) == Rendered(Catalog, s, p)
  {
    hide IsDelimiter, OnePart, Rendered, Join;
    var part := s[q..p];
    PartRendered(s, q, p, p);
    PartKeepsAll(part, |part|);
    assert SnakeEach(init + [part]) == SnakeEach(init) + [Snake(Catalog, part)];
    forall k | 0 <= k < |init| ensures SnakeEach(init)[k] != "" {
      PartKeepsAll(init[k], |init[k]|);
    }
    JoinLast(SnakeEach(init), Snake(Catalog, part));
  }

  lemma {:induction false} ChainRendered(s: string, p: nat)
    requires p <= |s| && (p < |s| ==> IsDelimiter(Catalog, s[p]))
    ensures Join(SnakeEach(Parts(s, p))) == Rendered(Catalog, s, p)
    decreases p
  {
    hide IsDelimiter, PartStart;
    var q := PartStart(s, p);
    if q > 0 {
      ChainRendered(s, q - 1);
    }
    var init := if q == 0 then [] else Parts(s, q - 1);
    assert Join(SnakeEach(init)) == Rendered(Catalog, s, q);
    if q < p {
      ChainStep(s, q, p, init);
    }
    assert Parts(s, p) == if q < p then init + [s[q..p]] else init;
  }

  lemma {:induction false} JoinLast(words: seq<string>, last: string)
    requires last != ""
    ensures (forall k :: 0 <= k < |words| ==> words[k] != "") ==> Join(words + [last]) == Glue(Join(words), last)
  {
    assert (words + [last])[..|words|] == words;
    if words != [] {
      JoinNonEmpty(words);
    }
  }

  lemma {:induction false} JoinNonEmpty(words: seq<string>)
    requires words != []
    ensures words[0] != "" ==> Join(words) != ""
  {
  }

  /** The chain converts the string as described. */
  lemma ToSnakeCaseRenders(s: string)
    ensures ToSnakeCase(s) == Snake(Catalog, s)
  {
    ChainRendered(s, |s|);
  }

  lemma LettersAreOnePart(s: string)
    requires forall k :: 0 <= k < |s| ==> IsUpper(s[k]) || IsLower(s[k])
    ensures OnePart(s)
  {
    forall k | 0 <= k < |s| ensures !IsDelimiter(Catalog, s[k]) {
      LetterIsNoDelimiter(s[k]);
    }
  }

  lemma LetterIsNoDelimiter(c: char)
    requires IsUpper(c) || IsLower(c)
    ensures c !in DELIMITERS
  {
  }

  /** The last capital of an acronym belongs to the word it begins. */
  lemma OAuthIsTwoWords()
    ensures ToSnakeCase("OAuth") == "o_auth"
  {
    hide Rendered, IsDelimiter, ToSnakeCase;
    var s := "OAuth";
    ToSnakeCaseRenders(s);
    LettersAreOnePart(s);
    StartsEmpty(s);
    NextInPart(s, 0);
    NextInPart(s, 1);
    NextInPart(s, 2);
    NextInPart(s, 3);
    NextInPart(s, 4);
  }

  // ----- the endpoint's loop -----

  lemma NoWords()
    ensures Join([]) == ""
  {
  }

  lemma NothingRendered(style: Style, s: string)
    ensures Rendered(style, s, 0) == ""
  {
  }

  lemma RenderedStep(style: Style, s: string, p: nat)
    requires p < |s|
    ensures Rendered(style, s, p + 1) ==
      if IsDelimiter(style, s[p]) then Rendered(style, s, p)
      else Append(Rendered(style, s, p), Breaks(style, s, p), Lower(s[p]))
  {
  }

  lemma NotLowered(letters: Letters, c: char)
    requires Sound(Endpoint(letters)) && !letters.upper(c)
    ensures Lower(c) == c
  {
  }

  /** `EndpointInfo::to_snake_case`: a capital outside ASCII may start a word, but is not lowered. */
  method EndpointToSnakeCase(letters: Letters, s: string) returns (result: string)
    requires Sound(Endpoint(letters))
    ensures result == Snake(Endpoint(letters), s)
  {
    hide Rendered, Join, Sound, Lower, IsUpper;
    NoWords();
    ghost var style := Endpoint(letters);
    var parts: seq<string> := [];
    var current := "";
    NothingRendered(style, s);
    for i := 0 to |s|
      invariant forall k :: 0 <= k < |parts| ==> parts[k] != ""
      invariant current != "" <==> i > 0 && letters.alphanumeric(s[i - 1])
      invariant current != "" ==> current[|current| - 1] == Lower(s[i - 1])
      invariant Rendered(style, s, i) == Glue(Join(parts), current)
    {
      var c := s[i];
      RenderedStep(style, s, i);
      if parts != [] {
        JoinNonEmpty(parts);
      }
      if current != "" {
        JoinLast(parts, current);
      }
      if !letters.alphanumeric(c) {
        if current != "" {
          parts := parts + [current];
          current := "";
        }
      } else if letters.upper(c) {
        if current != "" {
          var nextIsLower := i + 1 < |s| && letters.lower(s[i + 1]);
          if nextIsLower || letters.lower(current[|current| - 1]) {
            parts := parts + [current];
            current := "";
          }
        }
        current := current + [Lower(c)];
      } else {
        NotLowered(letters, c);
        current := current + [c];
      }
    }
    if current != "" {
      JoinLast(parts, current);
      parts := parts + [current];
    }
    result := Join(parts);
  }

  // ----- the shape of the output -----

  predicate Tidy(out: string) {
    && (forall k :: 0 <= k < |out| ==> !IsUpper(out[k]))
    && (forall k :: 0 < k < |out| ==> !(out[k - 1] == '_' && out[k] == '_'))
    && (out != "" ==> out[0] != '_' && out[|out| - 1] != '_')
  }

  function DropUnderscores(s: string): string {
    if s == "" then ""
    else DropUnderscores(s[..|s| - 1]) + if s[|s| - 1] == '_' then "" else [s[|s| - 1]]
  }

  /** The lowered input without its delimiters. */
  function Kept(style: Style, s: string): string {
    if s == "" then ""
    else Kept(style, s[..|s| - 1]) + if IsDelimiter(style, s[|s| - 1]) then "" else [Lower(s[|s| - 1])]
  }

  lemma TidyAppend(done: string, breaks: bool, c: char)
    requires Tidy(done) && !IsUpper(c) && c != '_'
    ensures Tidy(Append(done, breaks, c))
    ensures DropUnderscores(Append(done, breaks, c)) == DropUnderscores(done) + [c]
  {
    hide IsUpper;
    var out := Append(done, breaks, c);
    assert out[|out| - 1] == c;
    if done != "" && breaks {
      assert out[..|out| - 1] == done + "_" && (done + "_")[..|done|] == done;
      assert forall k :: 0 <= k < |done| ==> out[k] == done[k];
      assert out[|done|] == '_' && |out| == |done| + 2 && !IsUpper('_') by {
        NoCapital();
      }
    } else {
      assert out[..|out| - 1] == done;
    }
  }

  lemma NoCapital()
    ensures !IsUpper('_')
  {
  }

  predicate NoDelimiters(style: Style, out: string) {
    forall k :: 0 <= k < |out| ==> out[k] == '_' || !IsDelimiter(style, out[k])
  }

  /** Something of the first `p` characters is kept. */
  predicate SomeKept(style: Style, s: string, p: nat)
    requires p <= |s|
  {
    exists k :: 0 <= k < p && !IsDelimiter(style, s[k])
  }

  lemma {:induction false} RenderedTidy(style: Style, s: string, p: nat)
    requires p <= |s| && Sound(style)
    ensures Tidy(Rendered(style, s, p)) && NoDelimiters(style, Rendered(style, s, p))
    ensures DropUnderscores(Rendered(style, s, p)) == Kept(style, s[..p])
    ensures Rendered(style, s, p) != "" <==> SomeKept(style, s, p)
  {
    hide IsDelimiter, Breaks, Lower, Tidy, DropUnderscores, IsUpper, Sound;
    if p > 0 {
      RenderedTidy(style, s, p - 1);
      assert s[..p][..p - 1] == s[..p - 1];
      if !IsDelimiter(style, s[p - 1]) {
        LowerKeeps(style, s[p - 1]);
        TidyAppend(Rendered(style, s, p - 1), Breaks(style, s, p - 1), Lower(s[p - 1]));
      }
    } else {
      NothingTidy();
    }
  }

  lemma NothingTidy()
    ensures Tidy("") && DropUnderscores("") == ""
  {
  }

  lemma LowerKeeps(style: Style, c: char)
    requires !IsDelimiter(style, c) && Sound(style)
    ensures !IsUpper(Lower(c)) && !IsDelimiter(style, Lower(c)) && Lower(c) != '_'
  {
  }

  /** The output has no ASCII capital, no doubled underscore and none at an edge; without its underscores it is the
      lowered input without its delimiters. */
  lemma SnakeCaseShape(s: string)
    ensures Tidy(ToSnakeCase(s)) && DropUnderscores(ToSnakeCase(s)) == Kept(Catalog, s)
  {
    ToSnakeCaseRenders(s);
    RenderedTidy(Catalog, s, |s|);
    assert s[..|s|] == s;
  }

  lemma {:induction false} TidyIsFixed(out: string, p: nat)
    requires Tidy(out) && p <= |out| && NoDelimiters(Catalog, out)
    ensures Rendered(Catalog, out, p) == if p > 0 && out[p - 1] == '_' then out[..p - 1] else out[..p]
  {
    if p > 0 {
      TidyIsFixed(out, p - 1);
    }
  }

  /** Converting twice is converting once, on every string. */
  lemma SnakeCaseIdempotent(s: string)
    ensures ToSnakeCase(ToSnakeCase(s)) == ToSnakeCase(s)
  {
    ToSnakeCaseRenders(s);
    var out := ToSnakeCase(s);
    ToSnakeCaseRenders(out);
    RenderedTidy(Catalog, s, |s|);
    TidyIsFixed(out, |out|);
    assert out[..|out|] == out;
  }

  // ----- where the two conversions agree -----

  /** ASCII letters, digits and the delimiters both know. */
  predicate InCommon(s: string) {
    forall k :: 0 <= k < |s| ==> IsUpper(s[k]) || IsLower(s[k]) || IsDigit(s[k]) || s[k] in DELIMITERS
  }

  /** A capital directly after a capital or a digit is directly followed by a lower-case letter. */
  predicate AlignedAt(s: string, p: nat)
    requires p < |s|
  {
    p > 0 && IsUpper(s[p]) && (IsUpper(s[p - 1]) || IsDigit(s[p - 1])) ==> p + 1 < |s| && IsLower(s[p + 1])
  }

  predicate Aligned(s: string) {
    forall p :: 0 <= p < |s| ==> AlignedAt(s, p)
  }

  lemma DelimitersShared(style: Style, c: char)
    requires Sound(style) && (IsUpper(c) || IsLower(c) || IsDigit(c) || c in DELIMITERS)
    ensures IsDelimiter(Catalog, c) <==> IsDelimiter(style, c)
  {
  }

  lemma BreaksAgree(style: Style, s: string, p: nat)
    requires Sound(style) && style.Endpoint? && InCommon(s) && p < |s|
    ensures (Breaks(Catalog, s, p) <==> Breaks(style, s, p)) <==> AlignedAt(s, p)
  {
    if p > 0 {
      DelimitersShared(style, s[p - 1]);
    }
  }

  /** Two outputs that grow by the same character are equal iff they were, and broke alike. */
  lemma AppendEqual(a: string, breaksA: bool, b: string, breaksB: bool, c: char)
    requires Tidy(a) && Tidy(b) && (a == "" <==> b == "") && c != '_'
    ensures Append(a, breaksA, c) == Append(b, breaksB, c) <==> a == b && (a != "" ==> breaksA == breaksB)
  {
    var outA, outB := Append(a, breaksA, c), Append(b, breaksB, c);
    if a != "" {
      assert outA[..|outA| - 1] == if breaksA then a + "_" else a;
      assert outB[..|outB| - 1] == if breaksB then b + "_" else b;
      assert (a + "_")[|a|] == '_' && (b + "_")[|b|] == '_';
      assert (a + "_")[..|a|] == a && (b + "_")[..|b|] == b;
    }
  }

  lemma SameKept(style: Style, s: string, p: nat)
    requires Sound(style) && InCommon(s) && p <= |s|
    ensures Rendered(Catalog, s, p) == "" <==> Rendered(style, s, p) == ""
    ensures p > 0 && !IsDelimiter(Catalog, s[p - 1]) ==> Rendered(Catalog, s, p) != ""
  {
    hide IsDelimiter, Rendered;
    RenderedTidy(Catalog, s, p);
    RenderedTidy(style, s, p);
    forall k | 0 <= k < p ensures IsDelimiter(Catalog, s[k]) <==> IsDelimiter(style, s[k]) {
      DelimitersShared(style, s[k]);
    }
  }

  lemma {:induction false} AgreeSoFar(style: Style, s: string, p: nat)
    requires Sound(style) && style.Endpoint? && InCommon(s) && p <= |s|
    ensures Rendered(Catalog, s, p) == Rendered(style, s, p) <==> forall k :: 0 <= k < p ==> AlignedAt(s, k)
  {
    hide IsDelimiter, Breaks, Lower, Tidy, Append, AlignedAt, InCommon, Sound;
    CatalogSound();
    if p > 0 {
      AgreeSoFar(style, s, p - 1);
      SharedAt(style, s, p - 1);
      BreaksAgree(style, s, p - 1);
      RenderedTidy(Catalog, s, p - 1);
      RenderedTidy(style, s, p - 1);
      SameKept(style, s, p - 1);
      FirstAligned(style, s, p - 1);
      if !IsDelimiter(Catalog, s[p - 1]) {
        LowerKeeps(Catalog, s[p - 1]);
        AppendEqual(Rendered(Catalog, s, p - 1), Breaks(Catalog, s, p - 1),
          Rendered(style, s, p - 1), Breaks(style, s, p - 1), Lower(s[p - 1]));
      }
    }
  }

  lemma CatalogSound()
    ensures Sound(Catalog)
  {
  }

  lemma SharedAt(style: Style, s: string, p: nat)
    requires Sound(style) && InCommon(s) && p < |s|
    ensures IsDelimiter(Catalog, s[p]) <==> IsDelimiter(style, s[p])
  {
    DelimitersShared(style, s[p]);
  }

  /** What is not aligned stands behind a kept character, and is no delimiter itself. */
  lemma FirstAligned(style: Style, s: string, p: nat)
    requires Sound(style) && InCommon(s) && p < |s|
    ensures Rendered(Catalog, s, p) == "" || IsDelimiter(Catalog, s[p]) ==> AlignedAt(s, p)
  {
    hide Rendered;
    SameKept(style, s, p);
  }

  /** On such strings the two conversions agree iff every capital directly after a capital or a digit is directly
      followed by a lower-case letter. */
  lemma ConversionsAgreeIff(letters: Letters, s: string)
    requires Sound(Endpoint(letters)) && InCommon(s)
    ensures ToSnakeCase(s) == Snake(Endpoint(letters), s) <==> Aligned(s)
  {
    ToSnakeCaseRenders(s);
    AgreeSoFar(Endpoint(letters), s, |s|);
  }

  // ----- on literal characters -----

  predicate SplitsParts(c: char) {
    c == '.' || c == '-' || c == '_' || c == '@' || c == ':' || c == '<' || c == '>' || c == '[' || c == ']' ||
    c == '(' || c == ')' || c == ',' || c == '~' || c == '/' || c == '\''
  }

  lemma DelimitersSplit(c: char)
    ensures IsDelimiter(Catalog, c) <==> SplitsParts(c)
  {
  }

  lemma FirstRendered(s: string)
    requires s != "" && !IsDelimiter(Catalog, s[0])
    ensures Rendered(Catalog, s, 1) == [Lower(s[0])]
  {
    RenderedStep(Catalog, s, 0);
    NothingRendered(Catalog, s);
  }

  /** What becomes of any one character between two small letters: the fifteen delimiters separate words, a capital
      starts one and is lowered, everything else is kept. */
  lemma BetweenLetters(c: char)
    ensures ToSnakeCase("a" + [c] + "b") ==
      if SplitsParts(c) then "a_b"
      else if 'A' <= c <= 'Z' then "a_" + [(c as int + 32) as char] + "b"
      else "a" + [c] + "b"
  {
    hide Rendered, IsDelimiter, ToSnakeCase, SplitsParts;
    var s := "a" + [c] + "b";
    assert s[0] == 'a' && s[1] == c && s[2] == 'b' && s[..3] == s;
    ToSnakeCaseRenders(s);
    DelimitersSplit(c);
    SmallLetters();
    FirstRendered(s);
    RenderedStep(Catalog, s, 1);
    RenderedStep(Catalog, s, 2);
  }

  lemma SmallLetters()
    ensures !IsDelimiter(Catalog, 'a') && !IsDelimiter(Catalog, 'b')
    ensures !IsDelimiter(Catalog, 'X') && !IsDelimiter(Catalog, 'Y')
    ensures Lower('a') == 'a' && Lower('b') == 'b' && Lower('X') == 'x' && Lower('Y') == 'y'
  {
  }

  /** What becomes of any one character behind two capitals: a small letter takes the second one to its own word. */
  lemma BehindAcronym(c: char)
    ensures ToSnakeCase("XY" + [c]) ==
      if SplitsParts(c) then "xy"
      else if 'a' <= c <= 'z' then "x_y" + [c]
      else if 'A' <= c <= 'Z' then "xy" + [(c as int + 32) as char]
      else "xy" + [c]
  {
    hide Rendered, IsDelimiter, ToSnakeCase;
    var s := "XY" + [c];
    assert s[0] == 'X' && s[1] == 'Y' && s[2] == c && s[..3] == s;
    ToSnakeCaseRenders(s);
    DelimitersSplit(c);
    SmallLetters();
    FirstRendered(s);
    RenderedStep(Catalog, s, 1);
    RenderedStep(Catalog, s, 2);
    assert Rendered(Catalog, s, 2) == if 'a' <= c <= 'z' then "x_y" else "xy";
  }

  /** The same for the other converter and an ASCII character: whatever is neither a letter nor a digit separates. */
  lemma BetweenLettersEndpoint(letters: Letters, c: char)
    requires Sound(Endpoint(letters)) && c < 128 as char
    ensures Snake(Endpoint(letters), "a" + [c] + "b") ==
      if 'A' <= c <= 'Z' then "a_" + [(c as int + 32) as char] + "b"
      else if 'a' <= c <= 'z' || '0' <= c <= '9' then "a" + [c] + "b"
      else "a_b"
  {
    hide Rendered;
    var style, s := Endpoint(letters), "a" + [c] + "b";
    assert s[0] == 'a' && s[1] == c && s[2] == 'b' && s[..3] == s;
    NothingRendered(style, s);
    RenderedStep(style, s, 0);
    RenderedStep(style, s, 1);
    RenderedStep(style, s, 2);
    assert Rendered(style, s, 1) == "a";
  }
}
