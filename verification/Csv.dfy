/** The CSV that the analyser writes and the viewer reads back (RFC 4180, section 2). */
module Csv {
  import opened Sequences
  import Text

  // ---------------------------------------------------------------- writing

  predicate NeedsQuotes(s: string) {
    ',' in s || '"' in s || '\n' in s
  }

  /** `quote` */
  function Quote(s: string): string {
    if NeedsQuotes(s) then "\"" + Text.ReplaceAll(s, '"', "\"\"") + "\"" else s
  }

  function Joined(fields: seq<string>): string {
    if fields == [] then ""
    else if |fields| == 1 then fields[0]
    else Joined(fields[..|fields| - 1]) + "," + fields[|fields| - 1]
  }

  class StringBuilder {
    var text: string

    method WriteString(s: string)
      modifies this
      ensures text == old(text) + s
    {
      text := text + s;
    }
  }

  method WriteCsvRow(b: StringBuilder, fields: seq<string>)
    modifies b
    ensures b.text == old(b.text) + Joined(fields) + "\n"
  {
    for i := 0 to |fields|
      invariant b.text == old(b.text) + Joined(fields[..i])
    {
      assert fields[..i + 1][..i] == fields[..i];
      if i > 0 {
        b.WriteString(",");
      }
      b.WriteString(fields[i]);
    }
    assert fields[..|fields|] == fields;
    b.WriteString("\n");
  }

  function QuoteAll(row: seq<string>): (r: seq<string>)
    ensures |r| == |row|
  {
    seq(|row|, i requires 0 <= i < |row| => Quote(row[i]))
  }

  /** The file that one `writeCSVRow` per row of quoted fields produces. */
  function Written(rows: seq<seq<string>>): string {
    if rows == [] then "" else Written(rows[..|rows| - 1]) + Joined(QuoteAll(rows[|rows| - 1])) + "\n"
  }

  // ---------------------------------------------------------------- reading

  /** The variables of `parseCSV`. */
  datatype Reader = Reader(rows: seq<seq<string>>, current: seq<string>, field: string, inQuotes: bool)

  const START := Reader([], [], "", false)

  function PushField(r: Reader): Reader {
    r.(current := r.current + [r.field], field := "")
  }

  function PushRow(r: Reader): Reader {
    r.(rows := if r.current == [] then r.rows else r.rows + [r.current], current := [])
  }

  /** The scan of `text` from a given state: the loop of `parseCSV`. */
  function Scan(r: Reader, text: string): Reader
    decreases |text|
  {
    if text == "" then r
    else
      var c := text[0];
      if r.inQuotes then
        if c == '"' then
          if |text| > 1 && text[1] == '"' then Scan(r.(field := r.field + "\""), text[2..])
          else Scan(r.(inQuotes := false), text[1..])
        else Scan(r.(field := r.field + [c]), text[1..])
      else if c == '"' then Scan(r.(inQuotes := true), text[1..])
      else if c == ',' then Scan(PushField(r), text[1..])
      else if c == '\n' then Scan(PushRow(PushField(r)), text[1..])
      else if c == '\r' then Scan(r, text[1..])
      else Scan(r.(field := r.field + [c]), text[1..])
  }

  /** What follows the loop. */
  function Finished(r: Reader): seq<seq<string>> {
    var last := if r.inQuotes then PushField(r) else r;
    if last.current == [] then last.rows else PushRow(last).rows
  }

  function ParsedRows(text: string): seq<seq<string>> {
    Finished(Scan(START, text))
  }

  method ParseCsvRows(text: string) returns (rows: seq<seq<string>>)
    ensures rows == ParsedRows(text)
  {
    rows := [];
    var current: seq<string>, field, inQuotes := [], "", false;
    var i := 0;
    while i < |text|
      invariant i <= |text|
      invariant Scan(START, text) == Scan(Reader(rows, current, field, inQuotes), text[i..])
    {
      var c := text[i];
      if inQuotes {
        if c == '"' {
          if i + 1 < |text| && text[i + 1] == '"' {
            field := field + "\"";
            i := i + 1;
          } else {
            inQuotes := false;
          }
        } else {
          field := field + [c];
        }
      } else if c == '"' {
        inQuotes := true;
      } else if c == ',' {
        current, field := current + [field], "";
      } else if c == '\n' {
        current, field := current + [field], "";
        if |current| > 0 {
          rows := rows + [current];
        }
        current := [];
      } else if c != '\r' {
        field := field + [c];
      }
      i := i + 1;
    }
    if inQuotes {
      current, field := current + [field], "";
    }
    if |current| > 0 {
      rows := rows + [current];
    }
  }

  // ---------------------------------------------------------------- the round trip

  function WithoutReturns(s: string): string {
    Text.ReplaceAll(s, '\r', "")
  }

  /** What the reader makes of a quoted field: a field that is written bare loses its carriage returns. */
  function ReadBack(s: string): string {
    if NeedsQuotes(s) then s else WithoutReturns(s)
  }

  function ReadBackAll(row: seq<string>): (r: seq<string>)
    ensures |r| == |row|
  {
    seq(|row|, i requires 0 <= i < |row| => ReadBack(row[i]))
  }

  /** A row without fields is written as an empty line, which reads as one empty field. */
  function RowReadBack(row: seq<string>): seq<string> {
    if row == [] then [""] else ReadBackAll(row)
  }

  function RowsReadBack(rows: seq<seq<string>>): (r: seq<seq<string>>)
    ensures |r| == |rows|
  {
    seq(|rows|, i requires 0 <= i < |rows| => RowReadBack(rows[i]))
  }

  lemma {:induction false} ScanBare(r: Reader, s: string, rest: string)
    requires !r.inQuotes && !NeedsQuotes(s)
    ensures Scan(r, s + rest) == Scan(r.(field := r.field + WithoutReturns(s)), rest)
    decreases |s|
  {
    if s == "" {
      assert s + rest == rest;
      assert r.field + WithoutReturns(s) == r.field;
    } else {
      assert (s + rest)[1..] == s[1..] + rest;
      assert s[0] in s && forall c :: c in s[1..] ==> c in s;
      var n := if s[0] == '\r' then r else r.(field := r.field + [s[0]]);
      ScanBare(n, s[1..], rest);
      assert r.field + WithoutReturns(s) == n.field + WithoutReturns(s[1..]);
    }
  }

  lemma {:induction false} ScanQuoted(r: Reader, s: string, rest: string)
    requires r.inQuotes && (rest != "" ==> rest[0] != '"')
    ensures Scan(r, Text.ReplaceAll(s, '"', "\"\"") + "\"" + rest) == Scan(r.(field := r.field + s, inQuotes := false), rest)
    decreases |s|
  {
    var text := Text.ReplaceAll(s, '"', "\"\"") + "\"" + rest;
    if s == "" {
      assert text[1..] == rest;
      assert r.field + s == r.field;
    } else {
      var tail := Text.ReplaceAll(s[1..], '"', "\"\"") + "\"" + rest;
      ScanQuoted(r.(field := r.field + [s[0]]), s[1..], rest);
      assert r.field + s == r.field + [s[0]] + s[1..];
      if s[0] == '"' {
        assert text == "\"\"" + tail && text[2..] == tail;
      } else {
        assert text == [s[0]] + tail && text[1..] == tail;
      }
    }
  }

  lemma OpenQuote(r: Reader, s: string, rest: string)
    requires !r.inQuotes && NeedsQuotes(s)
    ensures Scan(r, Quote(s) + rest) == Scan(r.(inQuotes := true), Text.ReplaceAll(s, '"', "\"\"") + "\"" + rest)
  {
    var body := Text.ReplaceAll(s, '"', "\"\"") + "\"" + rest;
    assert Quote(s) + rest == "\"" + body;
    assert ("\"" + body)[1..] == body;
  }

  lemma ScanField(r: Reader, s: string, rest: string)
    requires !r.inQuotes && r.field == "" && (rest != "" ==> rest[0] != '"')
    ensures Scan(r, Quote(s) + rest) == Scan(r.(field := ReadBack(s)), rest)
  {
    if NeedsQuotes(s) {
      OpenQuote(r, s, rest);
      ScanQuoted(r.(inQuotes := true), s, rest);
      assert r.field + s == s;
    } else {
      ScanBare(r, s, rest);
      assert r.field + WithoutReturns(s) == WithoutReturns(s);
    }
  }

  lemma ScanComma(r: Reader, rest: string)
    requires !r.inQuotes
    ensures Scan(r, "," + rest) == Scan(r.(current := r.current + [r.field], field := ""), rest)
  {
    assert ("," + rest)[1..] == rest;
  }

  lemma JoinedLast(row: seq<string>, rest: string)
    requires |row| > 1
    ensures var n := |row| - 1;
      Joined(QuoteAll(row)) + rest == Joined(QuoteAll(row[..n])) + ("," + (Quote(row[n]) + rest))
  {
    assert QuoteAll(row)[..|row| - 1] == QuoteAll(row[..|row| - 1]);
  }

  /** The fields of a row but the last are pushed; the last one is still in `field`. */
  lemma {:induction false} ScanFields(r: Reader, row: seq<string>, rest: string)
    requires !r.inQuotes && r.field == "" && r.current == [] && row != [] && (rest != "" ==> rest[0] != '"')
    ensures Scan(r, Joined(QuoteAll(row)) + rest)
         == Scan(r.(current := ReadBackAll(row[..|row| - 1]), field := ReadBack(row[|row| - 1])), rest)
  {
    var n := |row| - 1;
    if n == 0 {
      assert Joined(QuoteAll(row)) == Quote(row[0]);
      ScanField(r, row[0], rest);
      assert ReadBackAll(row[..n]) == [];
    } else {
      var tail := "," + (Quote(row[n]) + rest);
      JoinedLast(row, rest);
      ScanFields(r, row[..n], tail);
      var before := ReadBackAll(row[..n][..n - 1]) + [ReadBack(row[n - 1])];
      assert before == ReadBackAll(row[..n]);
      ScanComma(r.(current := ReadBackAll(row[..n][..n - 1]), field := ReadBack(row[n - 1])), Quote(row[n]) + rest);
      ScanField(r.(current := before), row[n], rest);
    }
  }

  lemma ScanNewline(r: Reader, rest: string)
    requires !r.inQuotes
    ensures Scan(r, "\n" + rest) == Scan(Reader(r.rows + [r.current + [r.field]], [], "", false), rest)
  {
    assert ("\n" + rest)[1..] == rest;
  }

  lemma ReadBackLast(row: seq<string>)
    requires row != []
    ensures ReadBackAll(row) == ReadBackAll(row[..|row| - 1]) + [ReadBack(row[|row| - 1])]
  {
  }

  lemma ScanRow(r: Reader, row: seq<string>, rest: string)
    requires !r.inQuotes && r.field == "" && r.current == []
    ensures Scan(r, Joined(QuoteAll(row)) + "\n" + rest) == Scan(r.(rows := r.rows + [RowReadBack(row)]), rest)
  {
    var tail := "\n" + rest;
    assert Joined(QuoteAll(row)) + "\n" + rest == Joined(QuoteAll(row)) + tail;
    if row == [] {
      assert QuoteAll(row) == [] && Joined(QuoteAll(row)) + tail == tail;
      assert r.current + [r.field] == [""];
      ScanNewline(r, rest);
    } else {
      ScanFields(r, row, tail);
      ScanNewline(r.(current := ReadBackAll(row[..|row| - 1]), field := ReadBack(row[|row| - 1])), rest);
      ReadBackLast(row);
    }
  }

  lemma WrittenLast(rows: seq<seq<string>>, rest: string)
    requires rows != []
    ensures var n := |rows| - 1;
      Written(rows) + rest == Written(rows[..n]) + (Joined(QuoteAll(rows[n])) + "\n" + rest)
  {
    var n := |rows| - 1;
    LineByLine(Written(rows[..n]), Joined(QuoteAll(rows[n])), rest);
  }

  lemma LineByLine(before: string, line: string, rest: string)
    ensures before + line + "\n" + rest == before + (line + "\n" + rest)
  {
  }

  lemma {:induction false} ScanRows(r: Reader, rows: seq<seq<string>>, rest: string)
    requires !r.inQuotes && r.field == "" && r.current == []
    ensures Scan(r, Written(rows) + rest) == Scan(r.(rows := r.rows + RowsReadBack(rows)), rest)
  {
    if rows == [] {
      assert Written(rows) + rest == rest && r.rows + RowsReadBack(rows) == r.rows;
    } else {
      var n := |rows| - 1;
      var line := Joined(QuoteAll(rows[n])) + "\n" + rest;
      var before := r.rows + RowsReadBack(rows[..n]);
      WrittenLast(rows, rest);
      ScanRows(r, rows[..n], line);
      ScanRow(r.(rows := before), rows[n], rest);
      assert RowsReadBack(rows) == RowsReadBack(rows[..n]) + [RowReadBack(rows[n])];
      assert r.rows + RowsReadBack(rows) == before + [RowReadBack(rows[n])];
    }
  }

  /** For any rows whatever, this is what comes back. */
  lemma ParseWritten(rows: seq<seq<string>>)
    ensures ParsedRows(Written(rows)) == RowsReadBack(rows)
  {
    ScanRows(START, rows, "");
    assert Written(rows) + "" == Written(rows);
    assert START.rows + RowsReadBack(rows) == RowsReadBack(rows);
  }

  /** A field survives: it has no carriage return, or something that makes it be quoted. */
  predicate Survives(s: string) {
    '\r' in s ==> NeedsQuotes(s)
  }

  lemma {:induction false} ReturnsLost(s: string)
    ensures |WithoutReturns(s)| <= |s| && (WithoutReturns(s) == s <==> '\r' !in s)
  {
    if s != "" {
      ReturnsLost(s[1..]);
      assert '\r' in s <==> s[0] == '\r' || '\r' in s[1..];
      if s[0] != '\r' {
        assert WithoutReturns(s)[1..] == WithoutReturns(s[1..]);
      }
    }
  }

  /** The round trip restores the rows exactly when no row is empty and every field survives. */
  lemma CsvRoundTrip(rows: seq<seq<string>>)
    ensures ParsedRows(Written(rows)) == rows <==>
            forall row <- rows :: row != [] && forall field <- row :: Survives(field)
  {
    ParseWritten(rows);
    forall field
      ensures ReadBack(field) == field <==> Survives(field)
    {
      ReturnsLost(field);
    }
    if forall row <- rows :: row != [] && forall field <- row :: Survives(field) {
      forall i | 0 <= i < |rows|
        ensures RowsReadBack(rows)[i] == rows[i]
      {
        assert rows[i] in rows;
        assert forall j :: 0 <= j < |rows[i]| ==> rows[i][j] in rows[i];
        assert ReadBackAll(rows[i]) == rows[i];
      }
    } else {
      var i, j := Damaged(rows);
      assert j < |rows[i]| ==> RowsReadBack(rows)[i][j] == ReadBack(rows[i][j]);
    }
  }

  lemma Damaged(rows: seq<seq<string>>) returns (i: nat, j: nat)
    requires exists row <- rows :: row == [] || exists field <- row :: !Survives(field)
    ensures i < |rows| && (rows[i] == [] || (j < |rows[i]| && !Survives(rows[i][j])))
  {
    var row :| row in rows && (row == [] || exists field <- row :: !Survives(field));
    i :| 0 <= i < |rows| && rows[i] == row;
    j := 0;
    if row != [] {
      var field :| field in row && !Survives(field);
      j :| 0 <= j < |row| && row[j] == field;
    }
  }

  /** Without the final newline the last field is lost, and with it a row of one field. */
  lemma NewlineIsNeeded(rows: seq<seq<string>>, row: seq<string>)
    requires row != []
    ensures var text := Written(rows) + Joined(QuoteAll(row));
      ParsedRows(text) == RowsReadBack(rows) + if |row| == 1 then [] else [ReadBackAll(row[..|row| - 1])]
  {
    var r := START.(rows := RowsReadBack(rows));
    ScanRows(START, rows, Joined(QuoteAll(row)));
    assert START.rows + RowsReadBack(rows) == RowsReadBack(rows);
    ScanFields(r, row, "");
    assert Joined(QuoteAll(row)) + "" == Joined(QuoteAll(row));
  }

  // ---------------------------------------------------------------- rows with bare and quoted fields

  /** A field as `buildCSV` passes it on: as it is, or through `quote`. */
  datatype Cell = Bare(text: string) | Quoted(text: string)

  function CellText(c: Cell): string {
    if c.Bare? then c.text else Quote(c.text)
  }

  function CellTexts(row: seq<Cell>): (r: seq<string>)
    ensures |r| == |row| && forall i :: 0 <= i < |r| ==> r[i] == CellText(row[i])
  {
    seq(|row|, i requires 0 <= i < |row| => CellText(row[i]))
  }

  function Texts(row: seq<Cell>): (r: seq<string>)
    ensures |r| == |row| && forall i :: 0 <= i < |r| ==> r[i] == row[i].text
  {
    seq(|row|, i requires 0 <= i < |row| => row[i].text)
  }

  function AllTexts(rows: seq<seq<Cell>>): (r: seq<seq<string>>)
    ensures |r| == |rows| && forall i :: 0 <= i < |r| ==> r[i] == Texts(rows[i])
  {
    seq(|rows|, i requires 0 <= i < |rows| => Texts(rows[i]))
  }

  function CellsWritten(rows: seq<seq<Cell>>): string {
    if rows == [] then "" else CellsWritten(rows[..|rows| - 1]) + Joined(CellTexts(rows[|rows| - 1])) + "\n"
  }

  predicate Plain(s: string) {
    !NeedsQuotes(s) && '\r' !in s
  }

  /** A bare field may hold no special character; a quoted one may, but for a lone carriage return. */
  predicate Good(c: Cell) {
    if c.Bare? then Plain(c.text) else Survives(c.text)
  }

  predicate GoodRow(row: seq<Cell>) {
    row != [] && forall i :: 0 <= i < |row| ==> Good(row[i])
  }

  /** A good field is written as if quoted; any other is written as it is, special characters and all. */
  lemma CellAsWritten(c: Cell)
    ensures if Good(c) then CellText(c) == Quote(c.text) else CellText(c) == c.text && !Plain(c.text)
  {
  }

  lemma {:induction false} GoodAsWritten(rows: seq<seq<Cell>>)
    requires forall i :: 0 <= i < |rows| ==> GoodRow(rows[i])
    ensures CellsWritten(rows) == Written(AllTexts(rows)) && ParsedRows(CellsWritten(rows)) == AllTexts(rows)
    ensures RowsReadBack(AllTexts(rows)) == AllTexts(rows)
  {
    if rows != [] {
      var n := |rows| - 1;
      GoodAsWritten(rows[..n]);
      assert AllTexts(rows)[..n] == AllTexts(rows[..n]) && GoodRow(rows[n]);
      assert CellTexts(rows[n]) == QuoteAll(Texts(rows[n]));
    }
    forall row <- AllTexts(rows)
      ensures row != [] && forall field <- row :: Survives(field)
    {
      var i :| 0 <= i < |rows| && AllTexts(rows)[i] == row;
      assert GoodRow(rows[i]);
    }
    CsvRoundTrip(AllTexts(rows));
    ParseWritten(AllTexts(rows));
  }

  /** The reader can no longer return `s` as field `b` of row `a`. */
  predicate Spoilt(r: Reader, a: nat, b: nat, s: string) {
    if |r.rows| > a then !(b < |r.rows[a]| && r.rows[a][b] == s)
    else |r.rows| == a && if |r.current| > b then r.current[b] != s else |r.current| == b && !(r.field <= s)
  }

  lemma {:induction false} StaysSpoilt(r: Reader, text: string, a: nat, b: nat, s: string)
    requires Spoilt(r, a, b, s)
    ensures Spoilt(Scan(r, text), a, b, s)
    decreases |text|
  {
    if text != "" {
      var c, rest := text[0], text[1..];
      if r.inQuotes {
        if c == '"' && |text| > 1 && text[1] == '"' {
          StaysSpoilt(r.(field := r.field + "\""), text[2..], a, b, s);
        } else if c == '"' {
          StaysSpoilt(r.(inQuotes := false), rest, a, b, s);
        } else {
          StaysSpoilt(r.(field := r.field + [c]), rest, a, b, s);
        }
      } else if c == '"' {
        StaysSpoilt(r.(inQuotes := true), rest, a, b, s);
      } else if c == ',' {
        StaysSpoilt(PushField(r), rest, a, b, s);
      } else if c == '\n' {
        StaysSpoilt(PushRow(PushField(r)), rest, a, b, s);
      } else if c == '\r' {
        StaysSpoilt(r, rest, a, b, s);
      } else {
        StaysSpoilt(r.(field := r.field + [c]), rest, a, b, s);
      }
    }
  }

  lemma SpoiltInTheEnd(r: Reader, a: nat, b: nat, s: string, want: seq<seq<string>>)
    requires Spoilt(r, a, b, s) && a < |want| && b < |want[a]| && want[a][b] == s
    ensures Finished(r) != want
  {
  }

  /** The reader has used up `s[..i]`, without a separator in it, for the field that should become `s`. It has read
      a special character, and therefore holds fewer than `i` characters, or one is still to come. */
  ghost predicate Behind(r: Reader, s: string, i: nat, sep: char, a: nat, b: nat) {
    && i <= |s| && sep !in s[..i] && |r.rows| == a && |r.current| == b && r.field <= s
    && (|r.field| < i || (!r.inQuotes && r.field == s[..i] && !Plain(s[i..])))
  }

  lemma {:induction false} BehindSpoils(r: Reader, s: string, i: nat, sep: char, rest: string, a: nat, b: nat)
    requires Behind(r, s, i, sep, a, b) && (sep == ',' || sep == '\n')
    ensures Spoilt(Scan(r, s[i..] + ([sep] + rest)), a, b, s)
    decreases |s| - i
  {
    var text := s[i..] + ([sep] + rest);
    if i == |s| || s[i] == sep {
      SeparatorSpoils(r, s, i, sep, text, a, b);
    } else {
      var c := s[i];
      assert text[0] == c && text[1..] == s[i + 1..] + ([sep] + rest) && s[..i + 1] == s[..i] + [c];
      if r.inQuotes && c == '"' && i + 1 < |s| && s[i + 1] == '"' {
        assert text[1] == '"' && text[2..] == s[i + 2..] + ([sep] + rest) && s[..i + 2] == s[..i] + [c, '"'];
        Appended(r, s, i, 2, '"', sep, rest, a, b);
      } else if c == '"' {
        assert text[1] == if i + 1 < |s| then s[i + 1] else sep;
        BehindSpoils(r.(inQuotes := !r.inQuotes), s, i + 1, sep, rest, a, b);
      } else if r.inQuotes {
        Appended(r, s, i, 1, c, sep, rest, a, b);
      } else if c == ',' || c == '\n' {
        StaysSpoilt(if c == ',' then PushField(r) else PushRow(PushField(r)), text[1..], a, b, s);
      } else if c == '\r' {
        BehindSpoils(r, s, i + 1, sep, rest, a, b);
      } else {
        assert s[i..] == [c] + s[i + 1..];
        Appended(r, s, i, 1, c, sep, rest, a, b);
      }
    }
  }

  /** The separator itself is taken into the field too early, or ends it too early. */
  lemma SeparatorSpoils(r: Reader, s: string, i: nat, sep: char, text: string, a: nat, b: nat)
    requires Behind(r, s, i, sep, a, b) && (sep == ',' || sep == '\n')
    requires (i == |s| || s[i] == sep) && text != "" && text[0] == sep
    ensures Spoilt(Scan(r, text), a, b, s)
  {
    assert |r.field| < |s|;
    if r.inQuotes {
      assert s[|r.field|] in s[..i] by { assert s[..i][|r.field|] == s[|r.field|]; }
      assert (r.field + [sep])[|r.field|] == sep;
      StaysSpoilt(r.(field := r.field + [sep]), text[1..], a, b, s);
    } else if sep == ',' {
      StaysSpoilt(PushField(r), text[1..], a, b, s);
    } else {
      StaysSpoilt(PushRow(PushField(r)), text[1..], a, b, s);
    }
  }

  /** One more character in the field: it fits `s`, with more of `s` used up than held, or it does not. */
  lemma {:induction false} Appended(r: Reader, s: string, i: nat, used: nat, c: char, sep: char, rest: string, a: nat, b: nat)
    requires Behind(r, s, i, sep, a, b) && (sep == ',' || sep == '\n')
    requires 1 <= used <= 2 && i + used <= |s| && sep !in s[..i + used]
    requires !r.inQuotes ==> used == 1 && c == s[i] && Plain([c])
    requires r.inQuotes ==> |r.field| < i
    ensures Spoilt(Scan(r.(field := r.field + [c]), s[i + used..] + ([sep] + rest)), a, b, s)
    decreases |s| - i, 0
  {
    var n := r.(field := r.field + [c]);
    if n.field <= s {
      if |r.field| == i {
        assert s[..i + 1] == s[..i] + [c] && s[i..] == [c] + s[i + 1..];
      }
      BehindSpoils(n, s, i + used, sep, rest, a, b);
    } else {
      StaysSpoilt(n, s[i + used..] + ([sep] + rest), a, b, s);
    }
  }

  /** A joined row around its field `b`. */
  lemma {:induction false} JoinedAround(fields: seq<string>, b: nat) returns (tail: string)
    requires b < |fields|
    ensures Joined(fields) == (if b == 0 then "" else Joined(fields[..b]) + ",") + fields[b] + tail
    ensures if b == |fields| - 1 then tail == "" else tail != "" && tail[0] == ','
    decreases |fields|
  {
    var n := |fields| - 1;
    if b == n {
      tail := "";
      assert fields[..0] == [];
    } else {
      tail := JoinedAround(fields[..n], b);
      assert fields[..n][..b] == fields[..b];
      tail := tail + ("," + fields[n]);
    }
  }

  lemma {:induction false} WrittenAround(rows: seq<seq<Cell>>, a: nat) returns (tail: string)
    requires a < |rows|
    ensures CellsWritten(rows) == CellsWritten(rows[..a]) + (Joined(CellTexts(rows[a])) + "\n" + tail)
    decreases |rows|
  {
    var n := |rows| - 1;
    if a == n {
      tail := "";
    } else {
      tail := WrittenAround(rows[..n], a);
      assert rows[..n][..a] == rows[..a];
      LaterLine(CellsWritten(rows[..a]), Joined(CellTexts(rows[a])), tail, Joined(CellTexts(rows[n])));
      tail := tail + (Joined(CellTexts(rows[n])) + "\n");
    }
  }

  lemma LaterLine(before: string, line: string, tail: string, last: string)
    ensures before + (line + "\n" + tail) + last + "\n" == before + (line + "\n" + (tail + (last + "\n")))
  {
  }

  /** The first field of a row that is not good. */
  lemma FirstBadCell(row: seq<Cell>) returns (b: nat)
    requires row != [] && !GoodRow(row)
    ensures b < |row| && !Good(row[b]) && forall i :: 0 <= i < b ==> Good(row[i])
  {
    b := 0;
    while Good(row[b])
      invariant b < |row| && forall i :: 0 <= i < b ==> Good(row[i])
      decreases |row| - b
    {
      assert b + 1 < |row| by {
        assert !(forall i :: 0 <= i < |row| ==> Good(row[i]));
      }
      b := b + 1;
    }
  }

  lemma FirstBadRow(rows: seq<seq<Cell>>) returns (a: nat)
    requires exists i :: 0 <= i < |rows| && !GoodRow(rows[i])
    ensures a < |rows| && !GoodRow(rows[a]) && forall i :: 0 <= i < a ==> GoodRow(rows[i])
  {
    a := 0;
    while GoodRow(rows[a])
      invariant a < |rows| && forall i :: 0 <= i < a ==> GoodRow(rows[i])
      decreases |rows| - a
    {
      assert a + 1 < |rows|;
      a := a + 1;
    }
  }

  lemma ScanFront(r: Reader, front: seq<string>, rest: string)
    requires !r.inQuotes && r.field == "" && r.current == [] && front != []
    requires forall i :: 0 <= i < |front| ==> ReadBack(front[i]) == front[i]
    ensures Scan(r, Joined(QuoteAll(front)) + "," + rest) == Scan(r.(current := front), rest)
  {
    var n, line := |front| - 1, Joined(QuoteAll(front));
    assert ReadBackAll(front[..n]) == front[..n] && front[..n] + [front[n]] == front;
    assert line + "," + rest == line + ("," + rest);
    ScanFields(r, front, "," + rest);
    ScanComma(r.(current := front[..n], field := front[n]), rest);
  }

  /** The good fields in front of field `b`, read back. */
  lemma ScanGoodCells(r: Reader, row: seq<Cell>, b: nat, rest: string)
    requires !r.inQuotes && r.field == "" && r.current == [] && b < |row| && forall i :: 0 <= i < b ==> Good(row[i])
    ensures Scan(r, (if b == 0 then "" else Joined(CellTexts(row)[..b]) + ",") + rest) == Scan(r.(current := Texts(row)[..b]), rest)
  {
    if b == 0 {
      assert "" + rest == rest;
    } else {
      var front := Texts(row)[..b];
      forall i | 0 <= i < b
        ensures ReadBack(front[i]) == front[i] && CellText(row[i]) == Quote(front[i])
      {
        ReturnsLost(front[i]);
        assert Good(row[i]);
      }
      assert CellTexts(row)[..b] == QuoteAll(front);
      ScanFront(r, front, rest);
    }
  }

  /** A row with a bad field is spoilt at that field, whatever follows it. */
  lemma BadRowSpoils(r: Reader, row: seq<Cell>, rest: string) returns (b: nat)
    requires !r.inQuotes && r.field == "" && r.current == [] && row != [] && !GoodRow(row)
    ensures b < |row| && Spoilt(Scan(r, Joined(CellTexts(row)) + "\n" + rest), |r.rows|, b, row[b].text)
  {
    b := FirstBadCell(row);
    var tail := JoinedAround(CellTexts(row), b);
    var s := row[b].text;
    CellAsWritten(row[b]);
    var after := tail + "\n" + rest;
    var front := if b == 0 then "" else Joined(CellTexts(row)[..b]) + ",";
    FieldInLine(front, s, tail, rest);
    ScanGoodCells(r, row, b, s + after);
    BadFieldSpoils(r.(current := Texts(row)[..b]), s, after, |r.rows|, b);
  }

  lemma FieldInLine(front: string, s: string, tail: string, rest: string)
    ensures front + s + tail + "\n" + rest == front + (s + (tail + "\n" + rest))
  {
  }

  /** A field written bare that is not plain, followed by a separator. */
  lemma BadFieldSpoils(r: Reader, s: string, after: string, a: nat, b: nat)
    requires !r.inQuotes && r.field == "" && |r.rows| == a && |r.current| == b && !Plain(s)
    requires after != "" && (after[0] == ',' || after[0] == '\n')
    ensures Spoilt(Scan(r, s + after), a, b, s)
  {
    assert s[0..] == s && s[..0] == "" && after == [after[0]] + after[1..];
    BehindSpoils(r, s, 0, after[0], after[1..], a, b);
  }

  lemma {:induction false} RowsStay(r: Reader, text: string, k: nat)
    requires k < |r.rows|
    ensures k < |Finished(Scan(r, text))| && Finished(Scan(r, text))[k] == r.rows[k]
    decreases |text|
  {
    if text != "" {
      var c, rest := text[0], text[1..];
      if r.inQuotes {
        if c == '"' && |text| > 1 && text[1] == '"' {
          RowsStay(r.(field := r.field + "\""), text[2..], k);
        } else if c == '"' {
          RowsStay(r.(inQuotes := false), rest, k);
        } else {
          RowsStay(r.(field := r.field + [c]), rest, k);
        }
      } else {
        RowsStay(if c == '"' then r.(inQuotes := true) else if c == ',' then PushField(r)
                 else if c == '\n' then PushRow(PushField(r)) else if c == '\r' then r else r.(field := r.field + [c]), rest, k);
      }
    }
  }

  /** Rows of bare and quoted fields come back exactly when no row is empty, every bare field is plain and every
      quoted field survives. */
  lemma MixedRoundTrip(rows: seq<seq<Cell>>)
    ensures ParsedRows(CellsWritten(rows)) == AllTexts(rows) <==> forall i :: 0 <= i < |rows| ==> GoodRow(rows[i])
  {
    if forall i :: 0 <= i < |rows| ==> GoodRow(rows[i]) {
      GoodAsWritten(rows);
    } else {
      var a := FirstBadRow(rows);
      BadRowShows(rows, a);
    }
  }

  lemma ScanGoodRows(rows: seq<seq<Cell>>, rest: string)
    requires forall i :: 0 <= i < |rows| ==> GoodRow(rows[i])
    ensures Scan(START, CellsWritten(rows) + rest) == Scan(START.(rows := AllTexts(rows)), rest)
  {
    GoodAsWritten(rows);
    ScanRows(START, AllTexts(rows), rest);
    assert START.rows + AllTexts(rows) == AllTexts(rows);
  }

  lemma BadRowShows(rows: seq<seq<Cell>>, a: nat)
    requires a < |rows| && !GoodRow(rows[a]) && forall i :: 0 <= i < a ==> GoodRow(rows[i])
    ensures ParsedRows(CellsWritten(rows)) != AllTexts(rows)
  {
    var tail := WrittenAround(rows, a);
    var r := START.(rows := AllTexts(rows[..a]));
    ScanGoodRows(rows[..a], Joined(CellTexts(rows[a])) + "\n" + tail);
    if rows[a] == [] {
      EmptyRowShows(r, CellTexts(rows[a]), tail);
      assert AllTexts(rows)[a] == [];
    } else {
      BadRowDiffers(r, rows[a], tail, AllTexts(rows));
    }
  }

  lemma BadRowDiffers(r: Reader, row: seq<Cell>, tail: string, want: seq<seq<string>>)
    requires !r.inQuotes && r.field == "" && r.current == [] && row != [] && !GoodRow(row)
    requires |r.rows| < |want| && want[|r.rows|] == Texts(row)
    ensures Finished(Scan(r, Joined(CellTexts(row)) + "\n" + tail)) != want
  {
    var b := BadRowSpoils(r, row, tail);
    SpoiltInTheEnd(Scan(r, Joined(CellTexts(row)) + "\n" + tail), |r.rows|, b, row[b].text, want);
  }

  lemma EmptyRowShows(r: Reader, row: seq<string>, tail: string)
    requires row == [] && r.current == [] && r.field == "" && !r.inQuotes
    ensures var read := Finished(Scan(r, Joined(row) + "\n" + tail));
      |r.rows| < |read| && read[|r.rows|] == [""]
  {
    assert Joined(row) + "\n" + tail == "\n" + tail && r.current + [r.field] == [""];
    ScanNewline(r, tail);
    RowsStay(Reader(r.rows + [[""]], [], "", false), tail, |r.rows|);
  }

  // ---------------------------------------------------------------- the file of `buildCSV`

  /** Text without a special character, such as `fmtInt` and `fmtFloat` produce. */
  type PlainText = s: string | Plain(s) witness ""

  /** A page of the analysis; the last three are the joined lists. */
  datatype Page = Page(
    position: PlainText, title: string, url: string, finalUrl: string, status: PlainText, domain: string,
    titleLength: PlainText, words: PlainText, chars: PlainText, reading: PlainText, h1: PlainText, h2: PlainText,
    h1List: string, h2List: string, terms: string)

  datatype Aggregates = Aggregates(average: PlainText, median: PlainText, max: PlainText)

  const WHERE: seq<PlainText> := ["query", "country", "lang", "position", "title", "link", "final_url"]
  const COUNTS: seq<PlainText> := ["status_code", "domain", "page_title", "page_title_len", "word_count", "char_count"]
  const LISTS: seq<PlainText> := ["reading_time_min", "h1_count", "h2_count", "h1_list", "h2_list", "tfidf_top_terms"]

  /** The column names. */
  function Header(): seq<PlainText> {
    WHERE + COUNTS + LISTS
  }

  function HeaderCells(): (r: seq<Cell>) {
    seq(|Header()|, i requires 0 <= i < |Header()| => Bare(Header()[i]))
  }

  function PageCells(keyword: string, country: string, lang: string, p: Page): seq<Cell> {
    [Bare(keyword), Bare(country), Bare(lang), Bare(p.position), Quoted(p.title), Quoted(p.url), Quoted(p.finalUrl),
     Bare(p.status), Bare(p.domain), Quoted(p.title), Bare(p.titleLength), Bare(p.words), Bare(p.chars),
     Bare(p.reading), Bare(p.h1), Bare(p.h2), Quoted(p.h1List), Quoted(p.h2List), Quoted(p.terms)]
  }

  function AggregateCells(keyword: string, country: string, lang: string, g: Aggregates): seq<Cell> {
    [Bare(keyword), Bare(country), Bare(lang), Bare("AGGREGATES"), Bare(""), Bare(""), Bare(""), Bare(""), Bare(""),
     Bare(""), Bare(""), Bare(g.average), Bare(""), Bare(""), Bare(""), Bare(""), Bare(""), Bare("median=" + g.median),
     Bare("max=" + g.max), Bare("")]
  }

  function PageRows(keyword: string, country: string, lang: string, pages: seq<Page>): (r: seq<seq<Cell>>)
    ensures |r| == |pages|
  {
    seq(|pages|, i requires 0 <= i < |pages| => PageCells(keyword, country, lang, pages[i]))
  }

  /** The rows of the file: the header, a row for each page, and the aggregates unless there is no page. */
  function FileRows(keyword: string, country: string, lang: string, pages: seq<Page>, g: Aggregates): seq<seq<Cell>> {
    [HeaderCells()] + PageRows(keyword, country, lang, pages)
    + if pages == [] then [] else [AggregateCells(keyword, country, lang, g)]
  }

  lemma OneMoreRow(rows: seq<seq<Cell>>, row: seq<Cell>)
    ensures CellsWritten(rows + [row]) == CellsWritten(rows) + Joined(CellTexts(row)) + "\n"
  {
    assert (rows + [row])[..|rows|] == rows;
  }

  /** The loop over the pages; `before` are the rows in front of them. */
  method WritePages(b: StringBuilder, keyword: string, country: string, lang: string, pages: seq<Page>, ghost before: seq<seq<Cell>>)
    requires b.text == CellsWritten(before)
    modifies b
    ensures b.text == CellsWritten(before + PageRows(keyword, country, lang, pages))
  {
    assert before + PageRows(keyword, country, lang, pages[..0]) == before;
    for i := 0 to |pages|
      invariant b.text == CellsWritten(before + PageRows(keyword, country, lang, pages[..i]))
    {
      var row := PageCells(keyword, country, lang, pages[i]);
      WriteCsvRow(b, CellTexts(row));
      OnePageMore(keyword, country, lang, pages, i, before, row);
    }
    assert pages[..|pages|] == pages;
  }

  lemma OnePageMore(keyword: string, country: string, lang: string, pages: seq<Page>, i: nat, before: seq<seq<Cell>>, row: seq<Cell>)
    requires i < |pages| && row == PageCells(keyword, country, lang, pages[i])
    ensures CellsWritten(before + PageRows(keyword, country, lang, pages[..i + 1]))
         == CellsWritten(before + PageRows(keyword, country, lang, pages[..i])) + Joined(CellTexts(row)) + "\n"
  {
    var rows := before + PageRows(keyword, country, lang, pages[..i]);
    assert before + PageRows(keyword, country, lang, pages[..i + 1]) == rows + [row];
    OneMoreRow(rows, row);
  }

  /** `buildCSV`, its averages taken as given. */
  method BuildCsv(keyword: string, country: string, lang: string, pages: seq<Page>, g: Aggregates) returns (text: string)
    ensures text == CellsWritten(FileRows(keyword, country, lang, pages, g))
  {
    var b := new StringBuilder;
    b.text := "";
    var header := HeaderCells();
    WriteCsvRow(b, CellTexts(header));
    OneMoreRow([], header);
    assert [] + [header] == [header];
    WritePages(b, keyword, country, lang, pages, [header]);
    if |pages| > 0 {
      var aggregates := AggregateCells(keyword, country, lang, g);
      WriteCsvRow(b, CellTexts(aggregates));
      OneMoreRow([header] + PageRows(keyword, country, lang, pages), aggregates);
    }
    text := b.text;
  }

  /** The quoted texts of a page survive, and its domain needs no quotes. */
  predicate GoodPage(p: Page) {
    Plain(p.domain) && Survives(p.title) && Survives(p.url) && Survives(p.finalUrl)
    && Survives(p.h1List) && Survives(p.h2List) && Survives(p.terms)
  }

  lemma HeaderIsGood()
    ensures GoodRow(HeaderCells())
  {
  }

  lemma PageIsGood(keyword: string, country: string, lang: string, p: Page)
    ensures GoodRow(PageCells(keyword, country, lang, p)) <==> Plain(keyword) && Plain(country) && Plain(lang) && GoodPage(p)
  {
    var row := PageCells(keyword, country, lang, p);
    assert |row| == 19 && Good(row[3]) && Good(row[7]) && Good(row[10]) && Good(row[11]) && Good(row[12]) && Good(row[13]);
    if GoodRow(row) {
      assert Good(row[0]) && Good(row[1]) && Good(row[2]) && Good(row[4]) && Good(row[5]) && Good(row[6]) && Good(row[8]);
      assert Good(row[16]) && Good(row[17]) && Good(row[18]);
    }
  }

  lemma PagesAreGood(keyword: string, country: string, lang: string, pages: seq<Page>)
    ensures var rows := PageRows(keyword, country, lang, pages);
      (forall i :: 0 <= i < |rows| ==> GoodRow(rows[i])) <==>
      pages == [] || (Plain(keyword) && Plain(country) && Plain(lang) && forall p <- pages :: GoodPage(p))
  {
    var rows := PageRows(keyword, country, lang, pages);
    forall i | 0 <= i < |pages|
      ensures GoodRow(rows[i]) <==> Plain(keyword) && Plain(country) && Plain(lang) && GoodPage(pages[i])
    {
      PageIsGood(keyword, country, lang, pages[i]);
    }
    if pages != [] && forall i :: 0 <= i < |rows| ==> GoodRow(rows[i]) {
      assert GoodRow(rows[0]);
      forall i | 0 <= i < |pages|
        ensures GoodPage(pages[i])
      {
        assert GoodRow(rows[i]);
      }
    }
    assert (forall p <- pages :: GoodPage(p)) <==> forall i :: 0 <= i < |pages| ==> GoodPage(pages[i]);
  }

  lemma AggregatesAreGood(keyword: string, country: string, lang: string, g: Aggregates)
    ensures GoodRow(AggregateCells(keyword, country, lang, g)) <==> Plain(keyword) && Plain(country) && Plain(lang)
  {
    var row := AggregateCells(keyword, country, lang, g);
    FixedAggregates(keyword, country, lang, g);
    if GoodRow(row) {
      assert Good(row[0]) && Good(row[1]) && Good(row[2]);
    }
  }

  lemma FixedAggregates(keyword: string, country: string, lang: string, g: Aggregates)
    ensures var row := AggregateCells(keyword, country, lang, g);
      |row| == 20 && forall i :: 3 <= i < |row| ==> Good(row[i])
  {
    PlainLabels(g);
    var row := AggregateCells(keyword, country, lang, g);
    assert Good(row[3]) && Good(row[11]) && Good(row[17]) && Good(row[18]);
    forall i | 3 <= i < |row| && i != 3 && i != 11 && i != 17 && i != 18
      ensures row[i] == Bare("")
    {
    }
  }

  lemma PlainLabels(g: Aggregates)
    ensures Plain("AGGREGATES") && Plain("") && Plain("median=" + g.median) && Plain("max=" + g.max)
  {
    assert Plain("median=") && Plain("max=");
  }

  /** The file of an analysis comes back exactly when there is no page, or keyword, country, language and every
      domain are plain, for they are not quoted, and every quoted text survives. */
  lemma BuildCsvRoundTrip(keyword: string, country: string, lang: string, pages: seq<Page>, g: Aggregates)
    ensures var rows := FileRows(keyword, country, lang, pages, g);
      ParsedRows(CellsWritten(rows)) == AllTexts(rows) <==>
      pages == [] || (Plain(keyword) && Plain(country) && Plain(lang) && forall p <- pages :: GoodPage(p))
  {
    MixedRoundTrip(FileRows(keyword, country, lang, pages, g));
    HeaderIsGood();
    PagesAreGood(keyword, country, lang, pages);
    AggregatesAreGood(keyword, country, lang, g);
    GoodThroughout(HeaderCells(), PageRows(keyword, country, lang, pages),
                   if pages == [] then [] else [AggregateCells(keyword, country, lang, g)]);
  }

  lemma GoodThroughout(head: seq<Cell>, middle: seq<seq<Cell>>, end: seq<seq<Cell>>)
    requires |end| <= 1
    ensures var rows := [head] + middle + end;
      (forall i :: 0 <= i < |rows| ==> GoodRow(rows[i])) <==>
      GoodRow(head) && (forall i :: 0 <= i < |middle| ==> GoodRow(middle[i])) && (end != [] ==> GoodRow(end[0]))
  {
    var rows := [head] + middle + end;
    assert rows[0] == head && forall i :: 0 <= i < |middle| ==> rows[i + 1] == middle[i];
    assert end != [] ==> rows[|middle| + 1] == end[0];
    if forall i :: 0 <= i < |rows| ==> GoodRow(rows[i]) {
      forall i | 0 <= i < |middle|
        ensures GoodRow(middle[i])
      {
        assert GoodRow(rows[i + 1]);
      }
    }
  }
}
