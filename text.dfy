/**
 * The JavaScript string operations the application relies on: `trim`,
 * `toLowerCase` for the Basic Latin, Latin-1 and basic Cyrillic letters (and the
 * Kelvin sign), ASCII case folding, `startsWith`, `includes`, `split(',')`, and
 * a code-point lexicographic order standing for the order of `sort()`.
 */
module Text {

  /** The characters `String.prototype.trim` removes: WhiteSpace and LineTerminator. */
  predicate IsJsWhitespace(c: char) {
    || c == '\t' || c == '\n' || c == '\U{000B}' || c == '\U{000C}' || c == '\r'
    || c == ' ' || c == '\U{00A0}' || c == '\U{1680}'
    || ('\U{2000}' <= c <= '\U{200A}')
    || c == '\U{2028}' || c == '\U{2029}' || c == '\U{202F}' || c == '\U{205F}'
    || c == '\U{3000}' || c == '\U{FEFF}'
  }

  predicate IsBlank(s: string) {
    forall i :: 0 <= i < |s| ==> IsJsWhitespace(s[i])
  }

  /** Drops leading whitespace. */
  function TrimStart(s: string): (r: string)
    ensures |r| <= |s|
  {
    if s != [] && IsJsWhitespace(s[0]) then TrimStart(s[1..]) else s
  }

  /** The result is a suffix of `s` starting at a non-space, and only spaces were dropped. */
  lemma {:induction false} TrimStartShape(s: string)
    ensures TrimStart(s) == s[|s| - |TrimStart(s)|..]
    ensures forall i :: 0 <= i < |s| - |TrimStart(s)| ==> IsJsWhitespace(s[i])
    ensures TrimStart(s) != [] ==> !IsJsWhitespace(TrimStart(s)[0])
  {
    if s != [] && IsJsWhitespace(s[0]) {
      TrimStartShape(s[1..]);
      assert s[1..][|s| - 1 - |TrimStart(s)|..] == s[|s| - |TrimStart(s)|..];
    }
  }

  /** Drops trailing whitespace. */
  function TrimEnd(s: string): (r: string)
    ensures |r| <= |s|
  {
    if s != [] && IsJsWhitespace(s[|s| - 1]) then TrimEnd(s[..|s| - 1]) else s
  }

  /** The result is a prefix of `s` ending at a non-space, and only spaces were dropped. */
  lemma {:induction false} TrimEndShape(s: string)
    ensures TrimEnd(s) == s[..|TrimEnd(s)|]
    ensures forall i :: |TrimEnd(s)| <= i < |s| ==> IsJsWhitespace(s[i])
    ensures TrimEnd(s) != [] ==> !IsJsWhitespace(TrimEnd(s)[|TrimEnd(s)| - 1])
  {
    if s != [] && IsJsWhitespace(s[|s| - 1]) {
      TrimEndShape(s[..|s| - 1]);
      assert s[..|s| - 1][..|TrimEnd(s)|] == s[..|TrimEnd(s)|];
    }
  }

  /** `s.trim()`. */
  function Trim(s: string): (r: string)
    ensures |r| <= |s|
  {
    TrimEnd(TrimStart(s))
  }

  /**
   * A trimmed string is empty exactly when the input is blank, and otherwise
   * starts and ends with a non-space.
   */
  lemma TrimShape(s: string)
    ensures Trim(s) == [] <==> IsBlank(s)
    ensures Trim(s) != [] ==> !IsJsWhitespace(Trim(s)[0]) && !IsJsWhitespace(Trim(s)[|Trim(s)| - 1])
  {
    var t := TrimStart(s);
    TrimStartShape(s);
    TrimEndShape(t);
    assert Trim(s) == [] ==> t == [];
    if Trim(s) != [] {
      assert Trim(s)[0] == t[0];
    }
  }

  /** A string already without surrounding whitespace is its own trim. */
  lemma {:induction false} TrimOfTrimmed(s: string)
    requires s != [] ==> !IsJsWhitespace(s[0]) && !IsJsWhitespace(s[|s| - 1])
    ensures Trim(s) == s
  {
    assert TrimStart(s) == s;
    assert TrimEnd(s) == s;
  }

  lemma TrimIdempotent(s: string)
    ensures Trim(Trim(s)) == Trim(s)
  {
    TrimShape(s);
    TrimOfTrimmed(Trim(s));
  }

  /**
   * ASCII case folding of one character: only `A`-`Z` change. This is what
   * SQLite's `LIKE` and a regular expression's non-Unicode `i` flag compare by.
   */
  function Fold(c: char): char {
    if 'A' <= c <= 'Z' then (c as int + 32) as char else c
  }

  function Lower(s: string): (r: string)
    ensures |r| == |s|
  {
    seq(|s|, i requires 0 <= i < |s| => Fold(s[i]))
  }

  predicate IsAsciiChar(c: char) {
    c as int < 0x80
  }

  predicate IsAscii(s: string) {
    forall i :: 0 <= i < |s| ==> IsAsciiChar(s[i])
  }

  /**
   * The two non-ASCII characters whose `toLowerCase` holds an ASCII letter:
   * `İ` (U+0130) becomes "i" followed by a combining dot, and the Kelvin sign
   * (U+212A) becomes "k".
   */
  predicate LowersIntoAscii(c: char) {
    c == '\U{0130}' || c == '\U{212A}'
  }

  /** No character of `s` is one that `toLowerCase` turns into ASCII from outside it. */
  predicate NoLoweringIntoAscii(s: string) {
    forall i :: 0 <= i < |s| ==> !LowersIntoAscii(s[i])
  }

  /**
   * JavaScript's `toLowerCase` of one character, for the one-to-one mappings of
   * the Basic Latin, Latin-1 Supplement and basic Cyrillic blocks (`A`-`Z`,
   * `À`-`Þ` except `×`, `А`-`Я` and `Ѐ`-`Џ`) and of the Kelvin sign.
   */
  function JsFold(c: char): (r: char)
    ensures IsAsciiChar(r) <==> IsAsciiChar(c) || c == '\U{212A}'
  {
    if 'A' <= c <= 'Z' then (c as int + 32) as char
    else if c == '\U{212A}' then 'k'
    else if '\U{00C0}' <= c <= '\U{00DE}' && c != '\U{00D7}' then (c as int + 32) as char
    else if '\U{0410}' <= c <= '\U{042F}' then (c as int + 32) as char
    else if '\U{0400}' <= c <= '\U{040F}' then (c as int + 80) as char
    else c
  }

  /** `s.toLowerCase()`, character by character. */
  function JsLower(s: string): (r: string)
    ensures |r| == |s|
  {
    seq(|s|, i requires 0 <= i < |s| => JsFold(s[i]))
  }

  /**
   * Apart from the characters `toLowerCase` turns into ASCII from outside it,
   * both foldings agree on every character where either yields an ASCII
   * character, and on ASCII text they agree outright.
   */
  lemma FoldsAgreeOnAscii(s: string)
    ensures forall i :: 0 <= i < |s| && !LowersIntoAscii(s[i]) && (IsAsciiChar(JsFold(s[i])) || IsAsciiChar(Fold(s[i]))) ==>
      JsFold(s[i]) == Fold(s[i])
    ensures IsAscii(s) ==> JsLower(s) == Lower(s) && IsAscii(Lower(s))
  {
  }

  /**
   * For an ASCII term and a text without `İ` or the Kelvin sign, a substring
   * test on the JavaScript-lower-cased text and one on the ASCII-folded text
   * give the same answer: an ASCII occurrence can only come from characters on
   * which the two foldings agree.
   */
  lemma AsciiTermContainsAgrees(s: string, term: string)
    requires IsAscii(term) && NoLoweringIntoAscii(s)
    ensures Contains(JsLower(s), term) <==> Contains(Lower(s), term)
  {
    FoldsAgreeOnAscii(s);
    if Contains(JsLower(s), term) {
      var k := ContainsWitness(JsLower(s), term);
      forall j | 0 <= j < |term| ensures Lower(s)[k + j] == term[j] {
        assert JsLower(s)[k + j] == term[j];
      }
      ContainsAt(Lower(s), term, k);
    }
    if Contains(Lower(s), term) {
      var k := ContainsWitness(Lower(s), term);
      forall j | 0 <= j < |term| ensures JsLower(s)[k + j] == term[j] {
        assert Lower(s)[k + j] == term[j];
      }
      ContainsAt(JsLower(s), term, k);
    }
  }

  predicate IsPrefix(p: string, s: string) {
    |p| <= |s| && s[..|p|] == p
  }

  /** `s.includes(sub)`. */
  predicate Contains(s: string, sub: string)
    decreases |s|
  {
    IsPrefix(sub, s) || (s != [] && Contains(s[1..], sub))
  }

  /** A substring test that finds `sub` at a given offset succeeds. */
  lemma {:induction false} ContainsAt(s: string, sub: string, k: nat)
    requires k + |sub| <= |s| && s[k..k + |sub|] == sub
    ensures Contains(s, sub)
    decreases k
  {
    if k == 0 {
      assert IsPrefix(sub, s);
    } else {
      assert s[1..][k - 1..k - 1 + |sub|] == sub;
      ContainsAt(s[1..], sub, k - 1);
    }
  }

  /** Every successful substring test has an offset where `sub` occurs. */
  lemma {:induction false} ContainsWitness(s: string, sub: string) returns (k: nat)
    requires Contains(s, sub)
    ensures k + |sub| <= |s| && s[k..k + |sub|] == sub
    decreases |s|
  {
    if IsPrefix(sub, s) {
      k := 0;
    } else {
      var j := ContainsWitness(s[1..], sub);
      k := j + 1;
      assert s[k..k + |sub|] == s[1..][j..j + |sub|];
    }
  }

  /** JavaScript `s.split(',')`. */
  function SplitOnComma(s: string): (r: seq<string>)
    ensures |r| >= 1
    decreases |s|
  {
    if s == [] then [[]]
    else
      var rest := SplitOnComma(s[1..]);
      if s[0] == ',' then [[]] + rest
      else [[s[0]] + rest[0]] + rest[1..]
  }

  /** The pieces hold no comma, and joining them with commas gives back the input. */
  lemma {:induction false} JoinSplit(s: string)
    ensures forall i :: 0 <= i < |SplitOnComma(s)| ==> ',' !in SplitOnComma(s)[i]
    ensures JoinWithComma(SplitOnComma(s)) == s
    decreases |s|
  {
    if s != [] {
      JoinSplit(s[1..]);
      var rest := SplitOnComma(s[1..]);
      var r := SplitOnComma(s);
      if s[0] == ',' {
        assert r[1..] == rest;
      } else {
        assert |rest| > 1 ==> rest[1..][1..] == rest[2..] && r[1..] == rest[1..];
        assert |rest| > 1 ==> JoinWithComma(rest) == rest[0] + [','] + JoinWithComma(rest[1..]);
        assert s == [s[0]] + s[1..];
      }
    }
  }

  /** `parts.join(',')`. */
  function JoinWithComma(parts: seq<string>): string
  {
    if |parts| == 0 then []
    else if |parts| == 1 then parts[0]
    else parts[0] + [','] + JoinWithComma(parts[1..])
  }

  /** A comma-free prefix becomes the head of the first piece. */
  lemma {:induction false} SplitOfCommaFreePrefix(a: string, b: string)
    requires ',' !in a
    ensures SplitOnComma(a + b) == [a + SplitOnComma(b)[0]] + SplitOnComma(b)[1..]
    decreases |a|
  {
    if a != [] {
      assert (a + b)[0] == a[0] && (a + b)[1..] == a[1..] + b;
      SplitOfCommaFreePrefix(a[1..], b);
      assert [a[0]] + (a[1..] + SplitOnComma(b)[0]) == a + SplitOnComma(b)[0];
    } else {
      var parts := SplitOnComma(b);
      assert a + b == b && a + parts[0] == parts[0];
      assert parts == [parts[0]] + parts[1..];
    }
  }

  /** Splitting undoes joining when no piece holds a comma. */
  lemma {:induction false} SplitJoin(parts: seq<string>)
    requires |parts| >= 1
    requires forall i :: 0 <= i < |parts| ==> ',' !in parts[i]
    ensures SplitOnComma(JoinWithComma(parts)) == parts
  {
    if |parts| == 1 {
      SplitOfCommaFreePrefix(parts[0], []);
      assert parts[0] + [] == parts[0];
    } else {
      var tail := JoinWithComma(parts[1..]);
      SplitJoin(parts[1..]);
      assert parts[0] + [','] + tail == parts[0] + ([','] + tail);
      SplitOfCommaFreePrefix(parts[0], [','] + tail);
      assert ([','] + tail)[1..] == tail;
      assert SplitOnComma([','] + tail) == [[]] + parts[1..];
      assert parts[0] + [] == parts[0];
    }
  }

  /** Strict lexicographic order on character codes, as `Array.prototype.sort` compares strings. */
  predicate LexLess(a: string, b: string)
    decreases |a|
  {
    if a == [] then b != []
    else if b == [] then false
    else a[0] < b[0] || (a[0] == b[0] && LexLess(a[1..], b[1..]))
  }

  lemma {:induction false} LexIrreflexive(a: string)
    ensures !LexLess(a, a)
    decreases |a|
  {
    if a != [] { LexIrreflexive(a[1..]); }
  }

  lemma {:induction false} LexTransitive(a: string, b: string, c: string)
    requires LexLess(a, b) && LexLess(b, c)
    ensures LexLess(a, c)
    decreases |a|
  {
    if a != [] && b != [] && c != [] && a[0] == b[0] && b[0] == c[0] {
      LexTransitive(a[1..], b[1..], c[1..]);
    }
  }

  lemma {:induction false} LexTotal(a: string, b: string)
    requires a != b
    ensures LexLess(a, b) || LexLess(b, a)
    decreases |a|
  {
    if a != [] && b != [] && a[0] == b[0] {
      assert a == [a[0]] + a[1..] && b == [b[0]] + b[1..];
      LexTotal(a[1..], b[1..]);
    }
  }
}
