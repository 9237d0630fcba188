/** Quoting for the remote shell: `shellQuote`, the commands built with it, and their wrapping in `bash -lc`,
    against the token recognition of POSIX.1-2017 XCU, sections 2.2.1, 2.2.2 and 2.3. */
module ShellQuote {
  import opened Sequences
  import Text

  // ---------------------------------------------------------------- the shell's lexer

  /** A character of a word; a quoted one is safe from every expansion and never makes a reserved word. */
  datatype Letter = Letter(c: char, quoted: bool)

  datatype Token = Word(letters: seq<Letter>) | Operator(text: string)

  datatype Mode = Bare | SingleQuoted | Escaped | Unsupported

  /** The tokens so far, the word or operator in progress, and the quoting mode. */
  datatype Lexer = Lexer(tokens: seq<Token>, word: Option<seq<Letter>>, op: string, mode: Mode)

  const START := Lexer([], None, "", Bare)

  /** The control and redirection operators of section 2.10.2, and the newline. */
  predicate IsOperator(s: string) {
    || (|s| == 1 && StartsOperator(s[0]))
    || (|s| == 2 && s[0] == s[1] && s[0] in {'|', '&', ';', '<', '>'})
    || (|s| == 2 && s[0] == '<' && s[1] in {'&', '>'})
    || (|s| == 2 && s[0] == '>' && s[1] in {'&', '|'})
    || (|s| == 3 && s[0] == '<' && s[1] == '<' && s[2] == '-')
  }

  predicate StartsOperator(c: char) {
    c == '|' || c == '&' || c == ';' || c == '<' || c == '>' || c == '(' || c == ')' || c == '\n'
  }

  predicate IsBlank(c: char) {
    c == ' ' || c == '\t'
  }

  /** Characters whose unquoted meaning (expansion, double quotes, comments) lies outside this lexer. */
  predicate Special(c: char) {
    c == '"' || c == '$' || c == '`' || c == '#'
  }

  /** Delimits the word or operator in progress. */
  function Delimited(l: Lexer): Lexer {
    if l.word.Some? then l.(tokens := l.tokens + [Word(l.word.value)], word := None)
    else if l.op != "" then l.(tokens := l.tokens + [Operator(l.op)], op := "")
    else l
  }

  /** Adds to the word in progress, beginning one if need be. */
  function Extended(l: Lexer, letters: seq<Letter>): Lexer {
    var d := if l.op != "" then Delimited(l) else l;
    d.(word := Some((if d.word.Some? then d.word.value else []) + letters))
  }

  function Step(l: Lexer, c: char): Lexer {
    match l.mode
    case Unsupported => l
    case SingleQuoted => if c == '\'' then l.(mode := Bare) else Extended(l, [Letter(c, true)])
    case Escaped => (if c == '\n' then l else Extended(l, [Letter(c, true)])).(mode := Bare)
    case Bare =>
      if l.op != "" && IsOperator(l.op + [c]) then l.(op := l.op + [c])
      else if c == '\'' then Extended(l, []).(mode := SingleQuoted)
      else if c == '\\' then l.(mode := Escaped)
      else if IsBlank(c) then Delimited(l)
      else if StartsOperator(c) then Delimited(l).(op := [c])
      else if Special(c) then l.(mode := Unsupported)
      else Extended(l, [Letter(c, false)])
  }

  function Run(l: Lexer, text: string): Lexer
    decreases |text|
  {
    if text == "" then l else Run(Step(l, text[0]), text[1..])
  }

  /** The tokens of a complete text; `None` for an unterminated quote or an unsupported construct. */
  function Lex(text: string): Option<seq<Token>> {
    var l := Run(START, text);
    if l.mode.Bare? then Some(Delimited(l).tokens) else None
  }

  // ---------------------------------------------------------------- quoting

  function ShellQuote(raw: string): string {
    "'" + Text.ReplaceAll(raw, '\'', "'\\''") + "'"
  }

  /** The command line that `runSSHCommand` sends. */
  function Wrapped(command: string): string {
    "bash -lc " + ShellQuote(command)
  }

  function Letters(s: string, quoted: bool): (r: seq<Letter>)
    ensures |r| == |s|
  {
    seq(|s|, i requires 0 <= i < |s| => Letter(s[i], quoted))
  }

  lemma {:induction false} RunAppend(l: Lexer, a: string, b: string)
    ensures Run(l, a + b) == Run(Run(l, a), b)
    decreases |a|
  {
    if a == "" {
      assert a + b == b;
    } else {
      assert (a + b)[1..] == a[1..] + b;
      RunAppend(Step(l, a[0]), a[1..], b);
    }
  }

  /** Inside single quotes the rewritten text adds exactly the original characters, all quoted. */
  lemma {:induction false} RunBody(l: Lexer, raw: string)
    requires l.mode.SingleQuoted? && l.word.Some? && l.op == ""
    ensures Run(l, Text.ReplaceAll(raw, '\'', "'\\''")) == l.(word := Some(l.word.value + Letters(raw, true)))
    decreases |raw|
  {
    if raw == "" {
      assert l.word.value + Letters(raw, true) == l.word.value;
    } else {
      var c, rest := raw[0], Text.ReplaceAll(raw[1..], '\'', "'\\''");
      var next := l.(word := Some(l.word.value + [Letter(c, true)]));
      assert l.word.value + Letters(raw, true) == next.word.value + Letters(raw[1..], true);
      if c == '\'' {
        var closed := l.(mode := Bare);
        RunAppend(l, "'\\''", rest);
        RunAppend(l, "'\\'", "'");
        RunAppend(l, "'\\", "'");
        RunAppend(l, "'", "\\");
        assert "'\\''" == "'\\'" + "'" && "'\\'" == "'\\" + "'" && "'\\" == "'" + "\\";
        assert next.word.value + [] == next.word.value;
      } else {
        RunAppend(l, [c], rest);
      }
      RunBody(next, raw[1..]);
    }
  }

  /** No word and operator are in progress at once. */
  predicate Ok(l: Lexer) {
    l.word.Some? ==> l.op == ""
  }

  lemma {:induction false} RunKeepsOk(l: Lexer, text: string)
    requires Ok(l)
    ensures Ok(Run(l, text))
    decreases |text|
  {
    if text != "" {
      RunKeepsOk(Step(l, text[0]), text[1..]);
    }
  }

  /** A quoted string becomes part of one word, whatever it contains. */
  lemma RunQuoted(l: Lexer, raw: string)
    requires l.mode.Bare? && Ok(l)
    ensures Run(l, ShellQuote(raw)) == Extended(l, Letters(raw, true))
  {
    var body := Text.ReplaceAll(raw, '\'', "'\\''");
    var start := Extended(l, []).(mode := SingleQuoted);
    var filled := start.(word := Some(start.word.value + Letters(raw, true)));
    assert Run(l, "'") == start by {
      StepQuote(l);
    }
    assert Run(start, body) == filled by {
      RunBody(start, raw);
    }
    assert Run(filled, "'") == filled.(mode := Bare) by {
    }
    RunAppend(l, "'" + body, "'");
    RunAppend(l, "'", body);
    ExtendedTwice(l, Letters(raw, true));
  }

  lemma ExtendedTwice(l: Lexer, letters: seq<Letter>)
    ensures var e := Extended(l, []); e.(word := Some(e.word.value + letters)) == Extended(l, letters)
  {
    var first := if l.op != "" then Delimited(l) else l;
    var word := if first.word.Some? then first.word.value else [];
    assert word + [] + letters == word + letters;
  }

  lemma StepQuote(l: Lexer)
    requires l.mode.Bare?
    ensures Step(l, '\'') == Extended(l, []).(mode := SingleQuoted)
  {
    assert (l.op + ['\''])[|l.op|] == '\'';
  }

  /** Quoting undone: every string lexes back to itself, as one word without any active character. */
  lemma QuotedIsOneWord(raw: string)
    ensures Lex(ShellQuote(raw)) == Some([Word(Letters(raw, true))])
  {
    RunQuoted(START, raw);
    FirstWord(Letters(raw, true));
  }

  lemma FirstWord(letters: seq<Letter>)
    ensures var l := Extended(START, letters); l.mode.Bare? && Delimited(l).tokens == [Word(letters)]
  {
    assert [] + letters == letters;
    assert Extended(START, letters).word.value == letters;
  }

  lemma QuoteIsInjective(a: string, b: string)
    requires ShellQuote(a) == ShellQuote(b)
    ensures a == b
  {
    QuotedIsOneWord(a);
    QuotedIsOneWord(b);
    assert forall i :: 0 <= i < |a| ==> Letters(a, true)[i].c == a[i];
    assert forall i :: 0 <= i < |b| ==> Letters(b, true)[i].c == b[i];
  }

  /** In any command a quoted string between delimiters is one word of its own, and what follows it is lexed
      as if it stood alone: the string cannot influence the rest of the command. */
  lemma QuotedInContext(before: string, raw: string, after: string)
    requires var l := Run(START, before); l.mode.Bare? && l.word.None?
    requires after != "" ==> IsBlank(after[0]) || StartsOperator(after[0])
    requires Lex(after).Some?
    ensures Lex(before + ShellQuote(raw) + after)
         == Some(Delimited(Run(START, before)).tokens + [Word(Letters(raw, true))] + Lex(after).value)
  {
    var l := Run(START, before);
    var d := Delimited(l);
    var word := Letters(raw, true);
    RunKeepsOk(START, before);
    RunAppend(START, before + ShellQuote(raw), after);
    RunAppend(START, before, ShellQuote(raw));
    RunQuoted(l, raw);
    assert [] + word == word;
    var w := d.(word := Some(word));
    assert Run(START, before + ShellQuote(raw)) == w;
    var tokens := d.tokens + [Word(word)];
    if after == "" {
      assert Run(START, before + ShellQuote(raw) + after) == w;
      assert Lex(after).value == [] && tokens + [] == tokens;
    } else {
      var next := Step(START, after[0]);
      assert Step(w, after[0]) == Prefixed(tokens, next) by {
        assert tokens + [] == tokens;
      }
      RunPrefixed(tokens, next, after[1..]);
      RunPrefixed(tokens, Run(next, after[1..]), "");
    }
  }

  function Prefixed(tokens: seq<Token>, l: Lexer): Lexer {
    l.(tokens := tokens + l.tokens)
  }

  /** Earlier tokens never influence later ones. */
  lemma {:induction false} RunPrefixed(tokens: seq<Token>, l: Lexer, text: string)
    ensures Run(Prefixed(tokens, l), text) == Prefixed(tokens, Run(l, text))
    ensures Delimited(Prefixed(tokens, l)) == Prefixed(tokens, Delimited(l))
    decreases |text|
  {
    DelimitedPrefixed(tokens, l);
    if text != "" {
      StepPrefixed(tokens, l, text[0]);
      RunPrefixed(tokens, Step(l, text[0]), text[1..]);
    }
    DelimitedPrefixed(tokens, Run(l, text));
  }

  lemma DelimitedPrefixed(tokens: seq<Token>, l: Lexer)
    ensures Delimited(Prefixed(tokens, l)) == Prefixed(tokens, Delimited(l))
  {
    if l.word.Some? {
      assert tokens + l.tokens + [Word(l.word.value)] == tokens + (l.tokens + [Word(l.word.value)]);
    } else if l.op != "" {
      assert tokens + l.tokens + [Operator(l.op)] == tokens + (l.tokens + [Operator(l.op)]);
    }
  }

  lemma StepPrefixed(tokens: seq<Token>, l: Lexer, c: char)
    ensures Step(Prefixed(tokens, l), c) == Prefixed(tokens, Step(l, c))
  {
    DelimitedPrefixed(tokens, l);
  }

  // ---------------------------------------------------------------- whole commands

  /** A part of a command: a literal word, a quoted argument, or an operator with or without a space before it. */
  datatype Piece = Lit(word: string) | Arg(raw: string) | Op(op: string) | GluedOp(op: string)

  predicate PlainWord(s: string) {
    s != "" && forall c <- s :: !IsBlank(c) && !StartsOperator(c) && !Special(c) && c != '\'' && c != '\\'
  }

  predicate PieceOk(p: Piece) {
    match p
    case Lit(word) => PlainWord(word)
    case Arg(_) => true
    case Op(op) => op in {"|", "||", "&&", ";", ">", "<", ">>"}
    case GluedOp(op) => op == ";"
  }

  function PieceText(p: Piece): string {
    match p
    case Lit(word) => " " + word
    case Arg(raw) => " " + ShellQuote(raw)
    case Op(op) => " " + op
    case GluedOp(op) => op
  }

  function PieceToken(p: Piece): Token {
    match p
    case Lit(word) => Word(Letters(word, false))
    case Arg(raw) => Word(Letters(raw, true))
    case Op(op) => Operator(op)
    case GluedOp(op) => Operator(op)
  }

  function Flat(parts: seq<string>): string {
    if parts == [] then "" else Flat(parts[..|parts| - 1]) + parts[|parts| - 1]
  }

  function Texts(pieces: seq<Piece>): (r: seq<string>)
    ensures |r| == |pieces|
  {
    seq(|pieces|, i requires 0 <= i < |pieces| => PieceText(pieces[i]))
  }

  /** The command line, with a space in front that the lexer ignores. */
  function CommandText(pieces: seq<Piece>): string {
    Flat(Texts(pieces))
  }

  function Tokens(pieces: seq<Piece>): (r: seq<Token>)
    ensures |r| == |pieces|
  {
    seq(|pieces|, i requires 0 <= i < |pieces| => PieceToken(pieces[i]))
  }

  lemma {:induction false} RunPlain(l: Lexer, s: string)
    requires l.mode.Bare? && l.op == "" && forall c <- s :: !IsBlank(c) && !StartsOperator(c) && !Special(c) && c != '\'' && c != '\\'
    ensures Run(l, s) == if s == "" then l else Extended(l, Letters(s, false))
    decreases |s|
  {
    if s != "" {
      assert s[0] in s && forall c <- s[1..] :: c in s;
      var next := Step(l, s[0]);
      RunPlain(next, s[1..]);
      var word := if l.word.Some? then l.word.value else [];
      assert word + [Letter(s[0], false)] + Letters(s[1..], false) == word + Letters(s, false);
      assert s[1..] == "" ==> word + [Letter(s[0], false)] == word + Letters(s, false);
    }
  }

  /** The state after a complete command: its last token is still in progress. */
  ghost predicate HasRead(l: Lexer, tokens: seq<Token>) {
    l.mode.Bare? && Ok(l) && Delimited(l).tokens == tokens && (tokens != [] ==> l.word.Some? || l.op != "")
  }

  lemma RunOperator(l: Lexer, op: string)
    requires l.mode.Bare? && l.op == "" && op in {"|", "||", "&&", ";", ">", "<", ">>"}
    ensures Run(l, op) == Delimited(l).(op := op)
  {
    if |op| == 1 {
      assert op == [op[0]];
    } else {
      assert op == [op[0]] + [op[1]];
      RunAppend(l, [op[0]], [op[1]]);
    }
  }

  lemma RunPiece(l: Lexer, tokens: seq<Token>, p: Piece)
    requires HasRead(l, tokens) && PieceOk(p) && (p.GluedOp? ==> l.op == "")
    ensures HasRead(Run(l, PieceText(p)), tokens + [PieceToken(p)])
  {
    var d := Delimited(l);
    if p.GluedOp? {
      RunOperator(l, p.op);
    } else {
      RunBlank(l);
      match p
      case Lit(word) =>
        RunAppend(l, " ", word);
        RunPlain(d, word);
        assert [] + Letters(word, false) == Letters(word, false);
      case Arg(raw) =>
        RunAppend(l, " ", ShellQuote(raw));
        RunQuoted(d, raw);
        assert [] + Letters(raw, true) == Letters(raw, true);
      case Op(op) =>
        RunAppend(l, " ", op);
        RunOperator(d, op);
    }
  }

  lemma RunBlank(l: Lexer)
    requires l.mode.Bare? && Ok(l)
    ensures Run(l, " ") == Delimited(l) && Delimited(l).op == "" && Delimited(l).word.None? && Delimited(l).mode.Bare?
  {
    assert (l.op + [' '])[|l.op|] == ' ';
  }

  predicate IsWord(p: Piece) {
    p.Lit? || p.Arg?
  }

  /** Operators written without a space follow a word. */
  predicate WellSpaced(pieces: seq<Piece>) {
    && (forall i :: 0 <= i < |pieces| ==> PieceOk(pieces[i]))
    && (forall i :: 0 <= i < |pieces| && pieces[i].GluedOp? ==> i > 0 && IsWord(pieces[i - 1]))
  }

  lemma WellSpacedPrefix(pieces: seq<Piece>, n: nat)
    requires WellSpaced(pieces) && n <= |pieces|
    ensures WellSpaced(pieces[..n])
  {
    forall i | 0 <= i < n && pieces[..n][i].GluedOp?
      ensures i > 0 && IsWord(pieces[..n][i - 1])
    {
      assert pieces[i].GluedOp?;
      assert pieces[..n][i - 1] == pieces[i - 1];
    }
  }

  lemma RunOneMore(before: string, tokens: seq<Token>, p: Piece)
    requires HasRead(Run(START, before), tokens) && PieceOk(p) && (p.GluedOp? ==> Run(START, before).op == "")
    ensures HasRead(Run(START, before + PieceText(p)), tokens + [PieceToken(p)])
    ensures IsWord(p) ==> Run(START, before + PieceText(p)).op == ""
  {
    var l := Run(START, before);
    RunAppend(START, before, PieceText(p));
    RunPiece(l, tokens, p);
    if IsWord(p) {
      WordInProgress(l, p);
    }
  }

  lemma CommandSnoc(pieces: seq<Piece>)
    requires pieces != []
    ensures var n := |pieces| - 1; CommandText(pieces) == CommandText(pieces[..n]) + PieceText(pieces[n])
  {
    var n := |pieces| - 1;
    assert Texts(pieces)[..n] == Texts(pieces[..n]);
  }

  lemma {:induction false} RunCommand(pieces: seq<Piece>)
    requires WellSpaced(pieces)
    ensures HasRead(Run(START, CommandText(pieces)), Tokens(pieces))
    ensures pieces != [] && IsWord(pieces[|pieces| - 1]) ==> Run(START, CommandText(pieces)).op == ""
  {
    if pieces != [] {
      var n := |pieces| - 1;
      WellSpacedPrefix(pieces, n);
      RunCommand(pieces[..n]);
      assert pieces[n].GluedOp? ==> pieces[..n][n - 1] == pieces[n - 1];
      CommandSnoc(pieces);
      RunOneMore(CommandText(pieces[..n]), Tokens(pieces[..n]), pieces[n]);
      assert Tokens(pieces) == Tokens(pieces[..n]) + [PieceToken(pieces[n])];
    }
  }

  lemma WordInProgress(l: Lexer, p: Piece)
    requires l.mode.Bare? && Ok(l) && PieceOk(p) && IsWord(p)
    ensures Run(l, PieceText(p)).op == ""
  {
    RunBlank(l);
    if p.Lit? {
      RunAppend(l, " ", p.word);
      RunPlain(Delimited(l), p.word);
    } else {
      RunAppend(l, " ", ShellQuote(p.raw));
      RunQuoted(Delimited(l), p.raw);
    }
  }

  /** A command built from literal words, operators and quoted arguments lexes to exactly those. */
  lemma CommandLexes(pieces: seq<Piece>)
    requires WellSpaced(pieces)
    ensures Lex(CommandText(pieces)) == Some(Tokens(pieces))
  {
    RunCommand(pieces);
  }

  lemma WrappedText(command: string)
    ensures CommandText([Lit("bash"), Lit("-lc"), Arg(command)]) == " " + Wrapped(command)
  {
    var pieces, q := [Lit("bash"), Lit("-lc"), Arg(command)], ShellQuote(command);
    assert " " + "bash" == " bash" && " " + "-lc" == " -lc";
    assert Texts(pieces) == [" bash", " -lc", " " + q];
    FlatThree(" bash", " -lc", " " + q);
    assert " bash" + " -lc" + (" " + q) == " " + ("bash -lc " + q);
  }

  lemma TwoWordsLex(a: string, b: string, raw: string)
    requires PlainWord(a) && PlainWord(b)
    ensures Lex(CommandText([Lit(a), Lit(b), Arg(raw)])) == Some([Word(Letters(a, false)), Word(Letters(b, false)), Word(Letters(raw, true))])
  {
    var pieces := [Lit(a), Lit(b), Arg(raw)];
    CommandLexes(pieces);
    assert Tokens(pieces) == [PieceToken(pieces[0]), PieceToken(pieces[1]), PieceToken(pieces[2])];
  }

  /** `bash -lc` receives the inner command unchanged, as its one quoted argument. */
  lemma WrappingIsTransparent(command: string)
    ensures Lex(Wrapped(command))
         == Some([Word(Letters("bash", false)), Word(Letters("-lc", false)), Word(Letters(command, true))])
  {
    WrappedText(command);
    TwoWordsLex("bash", "-lc", command);
  }

  lemma FlatThree(a: string, b: string, c: string)
    ensures Flat([a, b, c]) == a + b + c
  {
    assert [a][..0] == [] && "" + a == a;
    assert Flat([a]) == a;
    assert [a, b][..1] == [a];
    assert Flat([a, b]) == a + b;
    assert [a, b, c][..2] == [a, b];
  }

  lemma {:induction false} FlatAppend(a: seq<string>, b: seq<string>)
    ensures Flat(a + b) == Flat(a) + Flat(b)
  {
    if b == [] {
      assert a + b == a;
    } else {
      var n := |b| - 1;
      assert (a + b)[..|a| + n] == a + b[..n];
      FlatAppend(a, b[..n]);
    }
  }

  function MvPieces(from: string, to: string): seq<Piece> {
    [Lit("mv"), Lit("--"), Arg(from), Arg(to)]
  }

  function MkdirPieces(dir: string): seq<Piece> {
    [Lit("mkdir"), Lit("-p"), Lit("--"), Arg(dir)]
  }

  lemma FlatFour(a: string, b: string, c: string, d: string)
    ensures Flat([a, b, c, d]) == a + b + c + d
  {
    FlatThree(a, b, c);
    assert [a, b, c, d][..3] == [a, b, c];
  }

  lemma MvText(from: string, to: string)
    ensures CommandText(MvPieces(from, to)) == " " + ("mv -- " + (ShellQuote(from) + " " + ShellQuote(to)))
    ensures WellSpaced(MvPieces(from, to))
  {
    var q, r := ShellQuote(from), ShellQuote(to);
    assert " " + "mv" == " mv" && " " + "--" == " --";
    assert Texts(MvPieces(from, to)) == [" mv", " --", " " + q, " " + r];
    FlatFour(" mv", " --", " " + q, " " + r);
    assert " mv" + " --" + (" " + q) + (" " + r) == " " + ("mv -- " + (q + " " + r));
  }

  lemma ThreeWords(a: string, b: string, c: string, raw: string)
    requires PlainWord(a) && PlainWord(b) && PlainWord(c)
    ensures WellSpaced([Lit(a), Lit(b), Lit(c), Arg(raw)])
  {
  }

  lemma MkdirText(dir: string)
    ensures CommandText(MkdirPieces(dir)) == " " + ("mkdir -p -- " + ShellQuote(dir))
  {
    var q := ShellQuote(dir);
    assert " " + "mkdir" == " mkdir" && " " + "-p" == " -p" && " " + "--" == " --";
    assert Texts(MkdirPieces(dir)) == [" mkdir", " -p", " --", " " + q];
    FlatFour(" mkdir", " -p", " --", " " + q);
    assert " mkdir" + " -p" + " --" + (" " + q) == " " + ("mkdir -p -- " + q);
  }

  const FALLBACK: seq<Piece> := [Op("||"), Lit("sudo")]

  lemma FallbackText()
    ensures CommandText(FALLBACK) == " || sudo" && WellSpaced(FALLBACK)
  {
    assert " " + "||" == " ||" && " " + "sudo" == " sudo";
    assert Texts(FALLBACK) == [" ||"] + [" sudo"];
    FlatAppend([" ||"], [" sudo"]);
    assert [" ||"][..0] == [] && [" sudo"][..0] == [];
    assert "" + " ||" + ("" + " sudo") == " || sudo";
  }

  lemma CommandConcat(a: seq<Piece>, b: seq<Piece>)
    ensures CommandText(a + b) == CommandText(a) + CommandText(b)
  {
    assert Texts(a + b) == Texts(a) + Texts(b);
    FlatAppend(Texts(a), Texts(b));
  }

  lemma SpacedConcat(a: seq<Piece>, b: seq<Piece>)
    requires WellSpaced(a) && WellSpaced(b)
    ensures WellSpaced(a + b)
  {
    forall i | 0 <= i < |a + b|
      ensures PieceOk((a + b)[i]) && ((a + b)[i].GluedOp? ==> i > 0 && IsWord((a + b)[i - 1]))
    {
      assert i >= |a| ==> PieceOk(b[i - |a|]) && (b[i - |a|].GluedOp? ==> i > |a| && IsWord(b[i - |a| - 1]));
    }
  }

  /** A command, and the same with `sudo` should it fail, lexes to exactly these words. */
  lemma FallbackLexes(pieces: seq<Piece>, name: string, sudo: string, rest: string)
    requires WellSpaced(pieces) && CommandText(pieces) == " " + (name + rest) && sudo == " || sudo " + name
    ensures Lex((name + rest) + (sudo + rest)) == Some(Tokens(pieces + (FALLBACK + pieces)))
  {
    FallbackText();
    CommandConcat(FALLBACK, pieces);
    CommandConcat(pieces, FALLBACK + pieces);
    SpacedConcat(FALLBACK, pieces);
    SpacedConcat(pieces, FALLBACK + pieces);
    CommandLexes(pieces + (FALLBACK + pieces));
    FallbackSpelled(name, rest);
  }

  lemma FallbackSpelled(name: string, rest: string)
    ensures " " + (name + rest) + (" || sudo" + (" " + (name + rest))) == " " + ((name + rest) + ((" || sudo " + name) + rest))
  {
    assert " || sudo" + " " == " || sudo ";
  }

  lemma TwoPaths(name: string, sudo: string, q: string, r: string)
    ensures name + q + " " + r + sudo + q + " " + r == (name + (q + " " + r)) + (sudo + (q + " " + r))
  {
  }

  lemma OnePath(name: string, sudo: string, q: string)
    ensures name + q + sudo + q == (name + q) + (sudo + q)
  {
  }

  /** The command of `Move` on any two paths: `mv`, and `sudo mv` should that fail. */
  lemma MoveCommandLexes(from: string, to: string)
    ensures Lex("mv -- " + ShellQuote(from) + " " + ShellQuote(to) + " || sudo mv -- " + ShellQuote(from) + " " + ShellQuote(to))
         == Some(Tokens(MvPieces(from, to) + (FALLBACK + MvPieces(from, to))))
  {
    MvText(from, to);
    assert " || sudo mv -- " == " || sudo " + "mv -- ";
    FallbackLexes(MvPieces(from, to), "mv -- ", " || sudo mv -- ", ShellQuote(from) + " " + ShellQuote(to));
    TwoPaths("mv -- ", " || sudo mv -- ", ShellQuote(from), ShellQuote(to));
  }

  /** The command that `Move` sends before, for the directory of the new path. */
  lemma MkdirCommandLexes(dir: string)
    ensures Lex("mkdir -p -- " + ShellQuote(dir) + " || sudo mkdir -p -- " + ShellQuote(dir))
         == Some(Tokens(MkdirPieces(dir) + (FALLBACK + MkdirPieces(dir))))
  {
    MkdirText(dir);
    ThreeWords("mkdir", "-p", "--", dir);
    assert " || sudo mkdir -p -- " == " || sudo " + "mkdir -p -- ";
    FallbackLexes(MkdirPieces(dir), "mkdir -p -- ", " || sudo mkdir -p -- ", ShellQuote(dir));
    OnePath("mkdir -p -- ", " || sudo mkdir -p -- ", ShellQuote(dir));
  }
}
