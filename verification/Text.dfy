/** String helpers shared by the models: trimming, replacing one character, ASCII case folding. */
module Text {

  /** Go's `unicode.IsSpace`, the set that `strings.TrimSpace` removes. */
  predicate GoSpace(c: char) {
    '\t' <= c <= '\r' || c == ' ' || c == '\U{0085}' || UnicodeSpace(c)
  }

  /** ECMAScript white space and line terminators, the set that `trimStart` and `trimEnd` remove. */
  predicate JsSpace(c: char) {
    '\t' <= c <= '\r' || c == ' ' || c == '\U{FEFF}' || UnicodeSpace(c)
  }

  predicate UnicodeSpace(c: char) {
    c == '\U{00A0}' || c == '\U{1680}' || '\U{2000}' <= c <= '\U{200A}' || c == '\U{2028}' || c == '\U{2029}'
    || c == '\U{202F}' || c == '\U{205F}' || c == '\U{3000}'
  }

  ghost predicate All(s: string, p: char -> bool) {
    forall i :: 0 <= i < |s| ==> p(s[i])
  }

  /** The length of the longest prefix of `space` characters. */
  function LeadingSpace(s: string, space: char -> bool): (n: nat)
    ensures n <= |s| && All(s[..n], space) && (n < |s| ==> !space(s[n]))
  {
    if s == "" || !space(s[0]) then 0 else 1 + LeadingSpace(s[1..], space)
  }

  /** The length of what is left once the longest suffix of `space` characters is gone. */
  function WithoutTrailing(s: string, space: char -> bool): (n: nat)
    ensures n <= |s| && All(s[n..], space) && (n > 0 ==> !space(s[n - 1]))
  {
    if s == "" then 0
    else if !space(s[|s| - 1]) then |s|
    else WithoutTrailing(s[..|s| - 1], space)
  }

  function TrimStart(s: string, space: char -> bool): string {
    s[LeadingSpace(s, space)..]
  }

  function TrimEnd(s: string, space: char -> bool): string {
    s[..WithoutTrailing(s, space)]
  }

  /** Go's `strings.TrimSpace`. */
  function TrimSpace(s: string): (r: string)
    ensures r != "" ==> !GoSpace(r[0]) && !GoSpace(r[|r| - 1])
  {
    var t := TrimStart(s, GoSpace);
    var r := TrimEnd(t, GoSpace);
    assert r != "" ==> r[0] == t[0];
    r
  }

  /** Trimming changes nothing exactly when the text neither begins nor ends with white space. */
  lemma TrimSpaceFixpoint(s: string)
    ensures TrimSpace(s) == s <==> s == "" || (!GoSpace(s[0]) && !GoSpace(s[|s| - 1]))
  {
  }

  /** `strings.ReplaceAll(s, c, with)` for a one-character pattern. */
  function ReplaceAll(s: string, c: char, with: string): string {
    if s == "" then "" else (if s[0] == c then with else [s[0]]) + ReplaceAll(s[1..], c, with)
  }

  /** `unicode.ToLower` as far as it yields ASCII letters. */
  function Lower(c: char): char {
    if 'A' <= c <= 'Z' then (c as int + 32) as char
    else if c == '\U{0130}' then 'i'
    else if c == '\U{212A}' then 'k'
    else c
  }

  /** `strings.ToLower(s) == word` against a word of lower-case ASCII letters. */
  predicate LowersTo(s: string, word: string) {
    |s| == |word| && forall i :: 0 <= i < |s| ==> Lower(s[i]) == word[i]
  }

  /** Go's `strings.ToLower`, as far as it yields ASCII letters. */
  function LowerAll(s: string): (r: string)
    ensures |r| == |s| && forall i :: 0 <= i < |s| ==> r[i] == Lower(s[i])
  {
    seq(|s|, i requires 0 <= i < |s| => Lower(s[i]))
  }

  /** `value` is the word in any case, with any white space around it. */
  ghost predicate Spells(value: string, word: string) {
    exists a, w, b :: SpelledAs(value, word, a, w, b)
  }

  ghost predicate SpelledAs(value: string, word: string, a: string, w: string, b: string) {
    value == a + w + b && All(a, GoSpace) && All(b, GoSpace) && LowersTo(w, word)
  }

  lemma {:induction false} LeadingOf(a: string, rest: string, space: char -> bool)
    requires All(a, space) && rest != "" && !space(rest[0])
    ensures LeadingSpace(a + rest, space) == |a|
  {
    if a == "" {
      assert a + rest == rest;
    } else {
      assert (a + rest)[1..] == a[1..] + rest;
      LeadingOf(a[1..], rest, space);
    }
  }

  lemma {:induction false} TrailingOf(front: string, b: string, space: char -> bool)
    requires All(b, space) && front != "" && !space(front[|front| - 1])
    ensures WithoutTrailing(front + b, space) == |front|
  {
    if b == "" {
      assert front + b == front;
    } else {
      assert (front + b)[..|front + b| - 1] == front + b[..|b| - 1];
      TrailingOf(front, b[..|b| - 1], space);
    }
  }

  /** Trimming takes white space off both ends of a text that does not begin or end with it. */
  lemma TrimAround(a: string, w: string, b: string)
    requires All(a, GoSpace) && All(b, GoSpace) && w != "" && !GoSpace(w[0]) && !GoSpace(w[|w| - 1])
    ensures TrimSpace(a + w + b) == w
  {
    assert a + w + b == a + (w + b);
    LeadingOf(a, w + b, GoSpace);
    assert (a + (w + b))[|a|..] == w + b;
    TrailingOf(w, b, GoSpace);
  }

  /** What trimming takes off is white space. */
  lemma TrimParts(s: string) returns (a: string, b: string)
    ensures s == a + TrimSpace(s) + b && All(a, GoSpace) && All(b, GoSpace)
  {
    var i := LeadingSpace(s, GoSpace);
    var n := WithoutTrailing(s[i..], GoSpace);
    a, b := s[..i], s[i..][n..];
  }

  lemma LowerSplit(value: string, a: string, w: string, b: string) returns (p: string, q: string, r: string)
    requires LowerAll(value) == a + w + b && All(a, GoSpace) && All(b, GoSpace)
    ensures SpelledAs(value, w, p, q, r)
  {
    var lower := LowerAll(value);
    p, q, r := value[..|a|], value[|a|..|a| + |w|], value[|a| + |w|..];
    forall i | 0 <= i < |a|
      ensures GoSpace(p[i])
    {
      assert lower[i] == a[i];
    }
    forall i | 0 <= i < |w|
      ensures Lower(q[i]) == w[i]
    {
      assert lower[|a| + i] == w[i];
    }
    forall i | 0 <= i < |b|
      ensures GoSpace(r[i])
    {
      assert lower[|a| + |w| + i] == b[i];
    }
  }

  lemma LowerJoin(value: string, word: string, a: string, w: string, b: string)
    requires SpelledAs(value, word, a, w, b)
    ensures LowerAll(value) == LowerAll(a) + word + LowerAll(b) && All(LowerAll(a), GoSpace) && All(LowerAll(b), GoSpace)
  {
  }

  /** A text that spells a word is the word once it is in lower case and trimmed; `TrimmedSpells` is the converse. */
  lemma SpellsTrims(value: string, word: string)
    requires word != "" && !GoSpace(word[0]) && !GoSpace(word[|word| - 1]) && Spells(value, word)
    ensures TrimSpace(LowerAll(value)) == word
  {
    var a, w, b :| SpelledAs(value, word, a, w, b);
    SpellingTrims(value, word, a, w, b);
  }

  /** A text spells what it is in lower case and trimmed. */
  lemma TrimmedSpells(value: string)
    ensures Spells(value, TrimSpace(LowerAll(value)))
  {
    var a, b := TrimParts(LowerAll(value));
    var p, q, r := LowerSplit(value, a, TrimSpace(LowerAll(value)), b);
  }

  lemma SpellingTrims(value: string, word: string, a: string, w: string, b: string)
    requires word != "" && !GoSpace(word[0]) && !GoSpace(word[|word| - 1]) && SpelledAs(value, word, a, w, b)
    ensures TrimSpace(LowerAll(value)) == word
  {
    LowerJoin(value, word, a, w, b);
    TrimAround(LowerAll(a), word, LowerAll(b));
  }

  /** The characters that fold to a lower-case ASCII letter, as `strings.EqualFold` matches them. */
  function Fold(c: char): char {
    if 'A' <= c <= 'Z' then (c as int + 32) as char
    else if c == '\U{017F}' then 's'
    else if c == '\U{212A}' then 'k'
    else c
  }

  function FoldAll(s: string): (r: string)
    ensures |r| == |s|
  {
    if s == "" then "" else [Fold(s[0])] + FoldAll(s[1..])
  }

  /** `strings.EqualFold(s, word)` against a word of lower-case ASCII letters. */
  predicate EqualFold(s: string, word: string) {
    FoldAll(s) == word
  }
}
