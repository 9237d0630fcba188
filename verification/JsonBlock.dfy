/** Finding a JSON object or array inside a log message: `findJsonEnd` and `extractJsonBlock`, against the
    grammar of RFC 8259. */
module JsonBlock {
  import opened Sequences
  import Text

  // ---------------------------------------------------------------- JSON texts, with their white space

  datatype StringChar = Plain(c: char) | Escape(c: char) | Unicode(hex: string)

  datatype Number = Number(minus: bool, whole: string, fraction: Option<string>, exponent: Option<(string, string)>)

  datatype Json =
    | Literal(word: string)
    | Num(number: Number)
    | Str(chars: seq<StringChar>)
    | Array(lead: string, items: Entries)
    | Object(lead: string, items: Entries)

  /** The comma-separated content of an array, or of an object when every entry has a label. */
  datatype Entries = End | Entry(labelled: Option<Label>, value: Json, after: string, before: string, rest: Entries)

  /** A member name with the white space around its colon. */
  datatype Label = Label(name: seq<StringChar>, beforeColon: string, afterColon: string)

  predicate IsWhite(s: string) {
    forall c <- s :: c == ' ' || c == '\t' || c == '\n' || c == '\r'
  }

  predicate Digits(s: string) {
    s != "" && forall c <- s :: '0' <= c <= '9'
  }

  predicate HexDigits(s: string) {
    |s| == 4 && forall c <- s :: '0' <= c <= '9' || 'a' <= c <= 'f' || 'A' <= c <= 'F'
  }

  predicate NumberOk(n: Number) {
    && Digits(n.whole) && (|n.whole| > 1 ==> n.whole[0] != '0')
    && (n.fraction.Some? ==> Digits(n.fraction.value))
    && (n.exponent.Some? ==> n.exponent.value.0 in {"e", "E", "e+", "E+", "e-", "E-"} && Digits(n.exponent.value.1))
  }

  predicate CharOk(ch: StringChar) {
    match ch
    case Plain(c) => c >= ' ' && c != '"' && c != '\\'
    case Escape(c) => c in {'"', '\\', '/', 'b', 'f', 'n', 'r', 't'}
    case Unicode(hex) => HexDigits(hex)
  }

  predicate LabelOk(l: Label) {
    (forall ch <- l.name :: CharOk(ch)) && IsWhite(l.beforeColon) && IsWhite(l.afterColon)
  }

  predicate Ok(v: Json) {
    match v
    case Literal(word) => word == "true" || word == "false" || word == "null"
    case Num(n) => NumberOk(n)
    case Str(chars) => forall ch <- chars :: CharOk(ch)
    case Array(lead, items) => IsWhite(lead) && EntriesOk(items, false)
    case Object(lead, items) => IsWhite(lead) && EntriesOk(items, true)
  }

  predicate EntriesOk(es: Entries, labels: bool) {
    match es
    case End => true
    case Entry(label_, value, after, before, rest) =>
      && label_.Some? == labels && (label_.Some? ==> LabelOk(label_.value))
      && Ok(value) && IsWhite(after) && IsWhite(before) && EntriesOk(rest, labels)
  }

  function NumberText(n: Number): string {
    (if n.minus then "-" else "") + n.whole
    + (if n.fraction.Some? then "." + n.fraction.value else "")
    + (if n.exponent.Some? then n.exponent.value.0 + n.exponent.value.1 else "")
  }

  function CharText(ch: StringChar): string {
    match ch
    case Plain(c) => [c]
    case Escape(c) => ['\\', c]
    case Unicode(hex) => "\\u" + hex
  }

  function CharsText(chars: seq<StringChar>): string {
    if chars == [] then "" else CharText(chars[0]) + CharsText(chars[1..])
  }

  function StringText(chars: seq<StringChar>): string {
    "\"" + CharsText(chars) + "\""
  }

  function LabelText(l: Option<Label>): string {
    if l.None? then "" else StringText(l.value.name) + l.value.beforeColon + ":" + l.value.afterColon
  }

  function JsonText(v: Json): string {
    match v
    case Literal(word) => word
    case Num(n) => NumberText(n)
    case Str(chars) => StringText(chars)
    case Array(lead, items) => "[" + (lead + EntriesText(items)) + "]"
    case Object(lead, items) => "{" + (lead + EntriesText(items)) + "}"
  }

  function EntriesText(es: Entries): string {
    match es
    case End => ""
    case Entry(label_, value, after, before, rest) =>
      LabelText(label_) + JsonText(value) + after + (if rest.End? then "" else "," + before + EntriesText(rest))
  }

  predicate IsContainer(v: Json) {
    v.Array? || v.Object?
  }

  /** What `JSON.parse` accepts. */
  ghost predicate IsJson(s: string) {
    exists left, v, right :: IsWhite(left) && IsWhite(right) && Ok(v) && s == left + JsonText(v) + right
  }

  // ---------------------------------------------------------------- findJsonEnd

  /** The variables of the scan. */
  datatype State = State(depth: int, inString: bool, escaped: bool)

  predicate Opens(c: char) {
    c == '{' || c == '['
  }

  predicate Closes(c: char) {
    c == '}' || c == ']'
  }

  function Step(s: State, c: char): State {
    if s.escaped then s.(escaped := false)
    else if c == '\\' then s.(escaped := true)
    else if c == '"' then s.(inString := !s.inString)
    else if s.inString then s
    else if Opens(c) then s.(depth := s.depth + 1)
    else if Closes(c) then s.(depth := s.depth - 1)
    else s
  }

  /** A closing bracket that brings the depth to zero ends the scan. */
  predicate Ends(s: State, c: char) {
    !s.escaped && !s.inString && Closes(c) && s.depth == 1
  }

  /** The offset in `text` at which the scan ends, or -1. */
  function Find(text: string, s: State): (r: int)
    ensures -1 <= r < |text|
  {
    if text == "" then -1
    else if Ends(s, text[0]) then 0
    else
      var r := Find(text[1..], Step(s, text[0]));
      if r == -1 then -1 else r + 1
  }

  const START := State(0, false, false)

  function JsonEnd(text: string, start: nat): (r: int)
    requires start < |text|
    ensures r == -1 || start <= r < |text|
  {
    var r := Find(text[start..], START);
    if r == -1 then -1 else start + r
  }

  method FindJsonEnd(text: string, start: nat) returns (end: int)
    requires start < |text| && Opens(text[start])
    ensures end == JsonEnd(text, start)
  {
    var openChar := text[start];
    var closeChar := if openChar == '{' then '}' else ']';
    var depth, inString, escaped := 0, false, false;
    ghost var whole := Find(text[start..], START);
    for i := start to |text|
      invariant var r := Find(text[i..], State(depth, inString, escaped));
        whole == if r == -1 then -1 else i - start + r
    {
      var c := text[i];
      assert text[i..][1..] == text[i + 1..];
      if escaped {
        escaped := false;
        continue;
      }
      if c == '\\' {
        escaped := true;
        continue;
      }
      if c == '"' {
        inString := !inString;
        continue;
      }
      if inString {
        continue;
      }
      if c == openChar {
        depth := depth + 1;
      } else if c == closeChar {
        depth := depth - 1;
        if depth == 0 {
          return i;
        }
      } else if c == '{' || c == '[' {
        depth := depth + 1;
      } else if c == '}' || c == ']' {
        depth := depth - 1;
        if depth == 0 {
          return i;
        }
      }
    }
    return -1;
  }

  // ---------------------------------------------------------------- scanning a JSON text

  function Shift(n: nat, r: int): int {
    if r == -1 then -1 else n + r
  }

  predicate Quiet(s: string) {
    forall c <- s :: c != '"' && c != '\\' && !Opens(c) && !Closes(c)
  }

  /** The scan runs through `part` from `s` to `t` and goes on. */
  ghost predicate Passes(part: string, s: State, t: State) {
    forall rest {:trigger Find(part + rest, s)} :: Find(part + rest, s) == Shift(|part|, Find(rest, t))
  }

  lemma PassesTwice(a: string, b: string, s: State, t: State, u: State)
    requires Passes(a, s, t) && Passes(b, t, u)
    ensures Passes(a + b, s, u)
  {
    forall rest
      ensures Find(a + b + rest, s) == Shift(|a + b|, Find(rest, u))
    {
      assert a + b + rest == a + (b + rest);
    }
  }

  lemma PassesNothing(s: State)
    ensures Passes("", s, s)
  {
    forall rest
      ensures Find("" + rest, s) == Shift(0, Find(rest, s))
    {
      assert "" + rest == rest;
    }
  }

  predicate Outside(s: State) {
    !s.inString && !s.escaped
  }

  lemma {:induction false} PassesQuiet(part: string, s: State)
    requires Quiet(part) && Outside(s)
    ensures Passes(part, s, s)
  {
    if part == "" {
      PassesNothing(s);
    } else {
      PassesQuiet(part[1..], s);
      PassesTwice([part[0]], part[1..], s, s, s);
      assert [part[0]] + part[1..] == part;
    }
  }

  lemma PassesCharText(ch: StringChar, depth: int)
    requires CharOk(ch)
    ensures Passes(CharText(ch), State(depth, true, false), State(depth, true, false))
  {
    var s := State(depth, true, false);
    match ch
    case Plain(c) =>
    case Escape(c) =>
      PassesTwice(['\\'], [c], s, State(depth, true, true), s);
    case Unicode(hex) =>
      PassesTwice(['\\'], ['u'], s, State(depth, true, true), s);
      PassesInString(hex, depth);
      PassesTwice("\\u", hex, s, s, s);
  }

  lemma {:induction false} PassesInString(part: string, depth: int)
    requires forall c <- part :: c != '"' && c != '\\'
    ensures Passes(part, State(depth, true, false), State(depth, true, false))
  {
    var s := State(depth, true, false);
    if part == "" {
      PassesNothing(s);
    } else {
      assert part[0] in part && forall c <- part[1..] :: c in part;
      PassesInString(part[1..], depth);
      PassesTwice([part[0]], part[1..], s, s, s);
      assert [part[0]] + part[1..] == part;
    }
  }

  lemma {:induction false} PassesChars(chars: seq<StringChar>, depth: int)
    requires forall ch <- chars :: CharOk(ch)
    ensures Passes(CharsText(chars), State(depth, true, false), State(depth, true, false))
  {
    var s := State(depth, true, false);
    if chars == [] {
      PassesNothing(s);
    } else {
      PassesCharText(chars[0], depth);
      PassesChars(chars[1..], depth);
      PassesTwice(CharText(chars[0]), CharsText(chars[1..]), s, s, s);
    }
  }

  lemma PassesString(chars: seq<StringChar>, depth: int)
    requires forall ch <- chars :: CharOk(ch)
    ensures Passes(StringText(chars), State(depth, false, false), State(depth, false, false))
  {
    var outside, inside := State(depth, false, false), State(depth, true, false);
    PassesChars(chars, depth);
    PassesTwice("\"", CharsText(chars), outside, inside, inside);
    PassesTwice("\"" + CharsText(chars), "\"", outside, inside, outside);
  }

  lemma PassesLabel(l: Option<Label>, depth: int)
    requires l.Some? ==> LabelOk(l.value)
    ensures Passes(LabelText(l), State(depth, false, false), State(depth, false, false))
  {
    var s := State(depth, false, false);
    if l.None? {
      PassesNothing(s);
    } else {
      PassesString(l.value.name, depth);
      PassesQuiet(l.value.beforeColon, s);
      PassesQuiet(":", s);
      PassesQuiet(l.value.afterColon, s);
      PassesTwice(StringText(l.value.name), l.value.beforeColon, s, s, s);
      PassesTwice(StringText(l.value.name) + l.value.beforeColon, ":", s, s, s);
      PassesTwice(StringText(l.value.name) + l.value.beforeColon + ":", l.value.afterColon, s, s, s);
    }
  }

  lemma NumberIsQuiet(n: Number)
    requires NumberOk(n)
    ensures Quiet(NumberText(n))
  {
  }

  /** A value below the top level is passed over, whatever brackets and strings it holds. */
  lemma {:induction false} PassesValue(v: Json, depth: nat)
    requires Ok(v) && depth >= 1
    ensures Passes(JsonText(v), State(depth, false, false), State(depth, false, false))
  {
    var s, inner := State(depth, false, false), State(depth + 1, false, false);
    match v
    case Literal(word) => PassesQuiet(word, s);
    case Num(n) =>
      NumberIsQuiet(n);
      PassesQuiet(NumberText(n), s);
    case Str(chars) => PassesString(chars, depth);
    case Array(lead, items) =>
      PassesEntries(items, false, depth + 1);
      PassesBracketed('[', lead, items, ']', depth);
    case Object(lead, items) =>
      PassesEntries(items, true, depth + 1);
      PassesBracketed('{', lead, items, '}', depth);
  }

  lemma PassesBracketed(open: char, lead: string, items: Entries, close: char, depth: nat)
    requires Opens(open) && Closes(close) && IsWhite(lead) && depth >= 1
    requires Passes(EntriesText(items), State(depth + 1, false, false), State(depth + 1, false, false))
    ensures Passes([open] + (lead + EntriesText(items)) + [close], State(depth, false, false), State(depth, false, false))
  {
    var s, inner := State(depth, false, false), State(depth + 1, false, false);
    PassesQuiet(lead, inner);
    PassesTwice(lead, EntriesText(items), inner, inner, inner);
    PassesTwice([open], lead + EntriesText(items), s, inner, inner);
    PassesTwice([open] + (lead + EntriesText(items)), [close], s, inner, s);
  }

  lemma {:induction false} PassesEntries(es: Entries, labels: bool, depth: nat)
    requires EntriesOk(es, labels) && depth >= 1
    ensures Passes(EntriesText(es), State(depth, false, false), State(depth, false, false))
  {
    var s := State(depth, false, false);
    match es
    case End => PassesNothing(s);
    case Entry(label_, value, after, before, rest) =>
      PassesLabel(label_, depth);
      PassesValue(value, depth);
      PassesQuiet(after, s);
      PassesTwice(LabelText(label_), JsonText(value), s, s, s);
      PassesTwice(LabelText(label_) + JsonText(value), after, s, s, s);
      if rest.End? {
        assert EntriesText(es) == LabelText(label_) + JsonText(value) + after;
      } else {
        PassesQuiet("," + before, s);
        PassesEntries(rest, labels, depth);
        PassesTwice("," + before, EntriesText(rest), s, s, s);
        PassesTwice(LabelText(label_) + JsonText(value) + after, "," + before + EntriesText(rest), s, s, s);
      }
  }

  lemma HeadAndClose(head: string, close: char, rest: string)
    ensures head + [close] + rest == head + ([close] + rest) && ([close] + rest)[0] == close
  {
  }

  /** Started at the first character of an object or array, the scan ends at its last character. */
  lemma FindsContainerEnd(v: Json, rest: string)
    requires Ok(v) && IsContainer(v)
    ensures Find(JsonText(v) + rest, START) == |JsonText(v)| - 1
  {
    var items, lead := v.items, v.lead;
    var open, close := if v.Array? then '[' else '{', if v.Array? then ']' else '}';
    var inner := State(1, false, false);
    PassesQuiet(lead, inner);
    PassesEntries(items, v.Object?, 1);
    PassesTwice(lead, EntriesText(items), inner, inner, inner);
    PassesTwice([open], lead + EntriesText(items), START, inner, inner);
    var head := [open] + (lead + EntriesText(items));
    assert JsonText(v) == head + [close];
    HeadAndClose(head, close, rest);
  }

  /** In any text, an object or array that begins at `start` ends where `findJsonEnd` says. */
  lemma FindJsonEndIsExact(prefix: string, v: Json, suffix: string)
    requires Ok(v) && IsContainer(v)
    ensures var text := prefix + JsonText(v) + suffix;
      JsonEnd(text, |prefix|) == |prefix| + |JsonText(v)| - 1
  {
    var text := prefix + JsonText(v) + suffix;
    assert text[|prefix|..] == JsonText(v) + suffix;
    FindsContainerEnd(v, suffix);
  }

  // ---------------------------------------------------------------- extractJsonBlock

  /** The text before the block, the block, and the text after it. */
  datatype Block = Block(prefix: string, json: string, suffix: string)

  function Piece(message: string, start: nat, end: nat): string
    requires start <= end < |message|
  {
    message[start..end + 1]
  }

  /** Some text that starts at `start` with a bracket is JSON. */
  ghost predicate StartsBlock(message: string, start: nat) {
    start < |message| && Opens(message[start]) && exists end :: start <= end < |message| && IsJson(Piece(message, start, end))
  }

  lemma WhiteHead(s: string)
    requires IsWhite(s)
    ensures s != "" ==> !Opens(s[0])
  {
    if s != "" {
      assert s[0] in s;
    }
  }

  /** A JSON text that begins with a bracket is an object or array, followed at most by white space. */
  lemma BracketedJson(s: string) returns (v: Json, right: string)
    requires IsJson(s) && s != "" && Opens(s[0])
    ensures Ok(v) && IsContainer(v) && IsWhite(right) && s == JsonText(v) + right
  {
    var left;
    left, v, right :| IsWhite(left) && IsWhite(right) && Ok(v) && s == left + JsonText(v) + right;
    WhiteHead(left);
    assert left == "";
    assert s == JsonText(v) + right;
    FirstCharacter(v);
    assert s[0] == JsonText(v)[0];
  }

  lemma FirstCharacter(v: Json)
    requires Ok(v)
    ensures JsonText(v) != "" && (Opens(JsonText(v)[0]) <==> IsContainer(v))
  {
    if v.Num? {
      assert v.number.whole[0] in v.number.whole;
    }
  }

  /** If any JSON text begins at a bracket, the one that `findJsonEnd` delimits does. */
  lemma ScanFindsBlock(message: string, start: nat)
    requires StartsBlock(message, start)
    ensures var end := JsonEnd(message, start); end != -1 && IsJson(Piece(message, start, end))
  {
    var v := ScanDelimits(message, start);
    PieceIsJson(Piece(message, start, JsonEnd(message, start)), v);
  }

  lemma ScanDelimits(message: string, start: nat) returns (v: Json)
    requires StartsBlock(message, start)
    ensures start <= JsonEnd(message, start) < |message| && Ok(v) && Piece(message, start, JsonEnd(message, start)) == JsonText(v)
  {
    var rest;
    v, rest := ValueAt(message, start);
    ScanEndsAt(message, start, v, rest);
    FrontOfPiece(message, start, JsonText(v), rest);
  }

  lemma PieceIsJson(piece: string, v: Json)
    requires Ok(v) && piece == JsonText(v)
    ensures IsJson(piece)
  {
    assert IsWhite("") && piece == "" + JsonText(v) + "";
  }

  lemma ValueAt(message: string, start: nat) returns (v: Json, rest: string)
    requires StartsBlock(message, start)
    ensures Ok(v) && IsContainer(v) && JsonText(v) != "" && message[start..] == JsonText(v) + rest
  {
    var end :| start <= end < |message| && IsJson(Piece(message, start, end));
    var right;
    v, right := BracketedJson(Piece(message, start, end));
    rest := right + message[end + 1..];
    FirstCharacter(v);
    TwoRests(message[start..], Piece(message, start, end), message[end + 1..], JsonText(v), right);
  }

  lemma ScanEndsAt(message: string, start: nat, v: Json, rest: string)
    requires start < |message| && Ok(v) && IsContainer(v) && message[start..] == JsonText(v) + rest && JsonText(v) != ""
    ensures JsonEnd(message, start) == start + |JsonText(v)| - 1
  {
    FindsContainerEnd(v, rest);
  }

  lemma TwoRests(s: string, piece: string, after: string, text: string, right: string)
    requires s == piece + after && piece == text + right
    ensures s == text + (right + after)
  {
  }

  lemma FrontOfPiece(message: string, start: nat, text: string, rest: string)
    requires start < |message| && message[start..] == text + rest && text != ""
    ensures start + |text| <= |message| && Piece(message, start, start + |text| - 1) == text
  {
    assert message[start..][..|text|] == text;
  }

  /** The block that begins at `start`, with the text around it. */
  function BlockAt(message: string, start: nat, end: nat): Block
    requires start <= end < |message|
  {
    Block(Text.TrimEnd(message[..start], Text.JsSpace), Piece(message, start, end),
          Text.TrimStart(message[end + 1..], Text.JsSpace))
  }

  /** `start` is the first place at which a block begins, and the scan delimits it. */
  ghost predicate FirstBlock(message: string, start: nat) {
    && StartsBlock(message, start) && JsonEnd(message, start) != -1
    && forall k :: 0 <= k < start ==> !StartsBlock(message, k)
  }

  /** `extractJsonBlock` without the pretty-printing; `parses` is `JSON.parse`. It finds a block whenever there
      is one, takes the first place at which there is one, and splits the message there. */
  method ExtractJsonBlock(message: string, parses: string -> bool) returns (block: Option<Block>)
    requires forall s :: parses(s) <==> IsJson(s)
    ensures block.None? ==> forall i :: 0 <= i < |message| ==> !StartsBlock(message, i)
    ensures block.Some? ==>
      exists i :: FirstBlock(message, i) && block.value == BlockAt(message, i, JsonEnd(message, i))
  {
    var starts: seq<nat> := [];
    for i := 0 to |message|
      invariant forall a :: 0 <= a < |starts| ==> starts[a] < i && Opens(message[starts[a]])
      invariant forall k :: 0 <= k < i && Opens(message[k]) ==> k in starts
      invariant forall a, b :: 0 <= a < b < |starts| ==> starts[a] < starts[b]
    {
      if message[i] == '{' || message[i] == '[' {
        starts := starts + [i];
      }
    }
    for n := 0 to |starts|
      invariant forall m :: 0 <= m < n ==> !StartsBlock(message, starts[m])
    {
      var start := starts[n];
      assert start in starts;
      var end := FindJsonEnd(message, start);
      if end == -1 {
        if StartsBlock(message, start) { ScanFindsBlock(message, start); }
        continue;
      }
      var candidate := message[start..end + 1];
      assert candidate == Piece(message, start, end);
      if parses(candidate) {
        assert FirstBlock(message, start);
        return Some(BlockAt(message, start, end));
      }
      if StartsBlock(message, start) { ScanFindsBlock(message, start); }
    }
    return None;
  }

  lemma Trimmed(before: string, after: string) returns (left: string, right: string)
    ensures before == Text.TrimEnd(before, Text.JsSpace) + left && Text.All(left, Text.JsSpace)
    ensures after == right + Text.TrimStart(after, Text.JsSpace) && Text.All(right, Text.JsSpace)
  {
    left := before[|Text.TrimEnd(before, Text.JsSpace)|..];
    right := after[..|after| - |Text.TrimStart(after, Text.JsSpace)|];
  }

  lemma Reassembled(a: string, b: string, c: string, d: string, e: string)
    ensures (a + b) + c + (d + e) == a + b + c + d + e
  {
  }

  /** Nothing of the message is lost around a block but white space. */
  lemma BlockKeepsMessage(message: string, start: nat, end: nat) returns (left: string, right: string)
    requires start <= end < |message|
    ensures var b := BlockAt(message, start, end);
      && message == b.prefix + left + b.json + right + b.suffix
      && Text.All(left, Text.JsSpace) && Text.All(right, Text.JsSpace)
  {
    left, right := Trimmed(message[..start], message[end + 1..]);
    assert message == message[..start] + Piece(message, start, end) + message[end + 1..];
    var b := BlockAt(message, start, end);
    Reassembled(b.prefix, left, b.json, right, b.suffix);
  }

  /** Text without brackets, an object or array, and any text: exactly that value is extracted. */
  lemma ExtractsTheValue(prefix: string, v: Json, suffix: string)
    requires Ok(v) && IsContainer(v) && forall c <- prefix :: !Opens(c)
    ensures var message := prefix + JsonText(v) + suffix;
      && FirstBlock(message, |prefix|)
      && BlockAt(message, |prefix|, JsonEnd(message, |prefix|))
         == Block(Text.TrimEnd(prefix, Text.JsSpace), JsonText(v), Text.TrimStart(suffix, Text.JsSpace))
  {
    var message := prefix + JsonText(v) + suffix;
    FindJsonEndIsExact(prefix, v, suffix);
    var end := |prefix| + |JsonText(v)| - 1;
    FirstCharacter(v);
    assert Piece(message, |prefix|, end) == JsonText(v);
    PieceIsJson(JsonText(v), v);
    assert message[..|prefix|] == prefix && message[end + 1..] == suffix;
    assert forall k :: 0 <= k < |prefix| ==> message[k] == prefix[k] && prefix[k] in prefix;
  }
}
