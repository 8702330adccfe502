/** Python's `csv.reader` with the default excel dialect (delimiter `,`,
    quote character `"`, doubled quotes inside a quoted field, no escape
    character, no initial-space skipping, not strict), applied to a list of
    strings, one string per input line. The reader is the character state
    machine of CPython's `_csv` module: a row is complete when a line ends
    outside a quoted field; a line that ends inside a quoted field continues
    the same field on the next line. */
module Csv {
  import opened Text

  type Row = seq<string>

  datatype State =
    | StartRecord
    | StartField
    | InField
    | InQuotedField
    | QuoteInQuotedField
    | EatCrNl

  /** Parser state: machine state, fields completed so far in this row, and
      the field being built. */
  datatype Parser = Parser(state: State, fields: Row, field: string)

  /** The only error the excel dialect raises on str input: a carriage
      return or line feed inside a line, outside quotes, followed by more text. */
  datatype CsvError = NewLineInUnquotedField

  const Fresh := Parser(StartRecord, [], "")

  predicate IsNewLine(c: char) { c == '\n' || c == '\r' }

  function SaveField(p: Parser, next: State): Parser
  {
    Parser(next, p.fields + [p.field], "")
  }

  function AddChar(p: Parser, c: char, next: State): Parser
  {
    Parser(next, p.fields, p.field + [c])
  }

  /** One character of a line. */
  function Step(p: Parser, c: char): Result<Parser, CsvError>
  {
    match p.state
    case StartRecord =>
      if IsNewLine(c) then Ok(p.(state := EatCrNl)) else StepStartField(p, c)
    case StartField => StepStartField(p, c)
    case InField =>
      if IsNewLine(c) then Ok(SaveField(p, EatCrNl))
      else if c == ',' then Ok(SaveField(p, StartField))
      else Ok(AddChar(p, c, InField))
    case InQuotedField =>
      if c == '"' then Ok(p.(state := QuoteInQuotedField)) else Ok(AddChar(p, c, InQuotedField))
    case QuoteInQuotedField =>
      if c == '"' then Ok(AddChar(p, '"', InQuotedField))
      else if c == ',' then Ok(SaveField(p, StartField))
      else if IsNewLine(c) then Ok(SaveField(p, EatCrNl))
      else Ok(AddChar(p, c, InField))
    case EatCrNl =>
      if IsNewLine(c) then Ok(p) else Err(NewLineInUnquotedField)
  }

  function StepStartField(p: Parser, c: char): Result<Parser, CsvError>
  {
    if IsNewLine(c) then Ok(SaveField(p, EatCrNl))
    else if c == '"' then Ok(p.(state := InQuotedField))
    else if c == ',' then Ok(SaveField(p, StartField))
    else Ok(AddChar(p, c, InField))
  }

  /** The end of a line: completes the row unless inside a quoted field. */
  function EndOfLine(p: Parser): (q: Parser)
    ensures q.state == StartRecord || q.state == InQuotedField
  {
    match p.state
    case StartRecord => p
    case StartField => SaveField(p, StartRecord)
    case InField => SaveField(p, StartRecord)
    case InQuotedField => p
    case QuoteInQuotedField => SaveField(p, StartRecord)
    case EatCrNl => p.(state := StartRecord)
  }

  function FeedChars(p: Parser, s: string): Result<Parser, CsvError>
    decreases |s|
  {
    if s == [] then Ok(p)
    else
      match Step(p, s[0])
      case Err(e) => Err(e)
      case Ok(q) => FeedChars(q, s[1..])
  }

  /** One whole line: its characters, then the end of the line. */
  function Feed(p: Parser, line: string): Result<Parser, CsvError>
  {
    match FeedChars(p, line)
    case Err(e) => Err(e)
    case Ok(q) => Ok(EndOfLine(q))
  }

  /** The rows `csv.reader(lines)` yields, starting with parser p in the
      middle of a row; at the end of the input an open quoted field ends the
      last row. */
  function ReadFrom(p: Parser, lines: seq<string>): Result<seq<Row>, CsvError>
    decreases |lines|
  {
    if lines == [] then
      if p.state == InQuotedField then Ok([p.fields + [p.field]]) else Ok([])
    else
      match Feed(p, lines[0])
      case Err(e) => Err(e)
      case Ok(q) =>
        if q.state == StartRecord then
          match ReadFrom(Fresh, lines[1..])
          case Err(e) => Err(e)
          case Ok(rows) => Ok([q.fields] + rows)
        else ReadFrom(q, lines[1..])
  }

  /** `list(csv.reader(lines))`, or the csv.Error it raises. */
  function ReadRows(lines: seq<string>): Result<seq<Row>, CsvError>
  {
    ReadFrom(Fresh, lines)
  }

  /** What iterating `csv.reader(lines)` yields before it stops: the rows
      completed so far, and the csv.Error that stopped it, if any. */
  function ReadPrefixFrom(p: Parser, lines: seq<string>): (r: (seq<Row>, Option<CsvError>))
    decreases |lines|
  {
    if lines == [] then
      if p.state == InQuotedField then ([p.fields + [p.field]], None) else ([], None)
    else
      match Feed(p, lines[0])
      case Err(e) => ([], Some(e))
      case Ok(q) =>
        if q.state == StartRecord then
          var rest := ReadPrefixFrom(Fresh, lines[1..]);
          ([q.fields] + rest.0, rest.1)
        else ReadPrefixFrom(q, lines[1..])
  }

  function ReadPrefix(lines: seq<string>): (seq<Row>, Option<CsvError>)
  {
    ReadPrefixFrom(Fresh, lines)
  }

  /** Iterating to the end yields exactly the rows of `list(...)`, and it
      stops with an error exactly when `list(...)` raises that error. */
  lemma {:induction false} ReadPrefixAgrees(p: Parser, lines: seq<string>)
    ensures ReadPrefixFrom(p, lines).1.None? ==> ReadFrom(p, lines) == Ok(ReadPrefixFrom(p, lines).0)
    ensures ReadPrefixFrom(p, lines).1.Some? ==> ReadFrom(p, lines) == Err(ReadPrefixFrom(p, lines).1.value)
    decreases |lines|
  {
    if lines != [] {
      match Feed(p, lines[0])
      case Err(e) =>
      case Ok(q) =>
        if q.state == StartRecord {
          ReadPrefixAgrees(Fresh, lines[1..]);
        } else {
          ReadPrefixAgrees(q, lines[1..]);
        }
    }
  }

  // ------------------------------------------------------------------
  // Lines without quotes or line breaks split like str.split(",")

  /** A line with no quote character and no line-break character. */
  predicate Plain(line: string)
  {
    forall k :: 0 <= k < |line| ==> line[k] != '"' && !IsNewLine(line[k])
  }

  /** The row of a plain line: the empty line gives the empty row. */
  function PlainRow(line: string): Row
  {
    if line == "" then [] else Split(line, ',')
  }

  lemma StepPlain(p: Parser, c: char)
    requires p.state == StartField || p.state == InField
    requires c != '"' && !IsNewLine(c)
    ensures Step(p, c) == Ok(if c == ',' then SaveField(p, StartField) else AddChar(p, c, InField))
  {
  }

  /** At the start of a row, any character but a line break acts as at the
      start of a field. */
  lemma StartRecordAsStartField(c: char)
    requires !IsNewLine(c)
    ensures Step(Fresh, c) == Step(Parser(StartField, [], ""), c)
  {
  }

  lemma FeedCharsCons(p: Parser, s: string)
    requires s != [] && Step(p, s[0]).Ok?
    ensures FeedChars(p, s) == FeedChars(Step(p, s[0]).value, s[1..])
  {
  }

  /** Feeding plain characters in an unquoted field and ending the line
      completes the row with the comma-split segments. */
  lemma {:induction false} FeedPlainChars(p: Parser, s: string)
    requires p.state == StartField || p.state == InField
    requires ',' !in p.field
    requires Plain(s)
    ensures FeedChars(p, s).Ok?
    ensures EndOfLine(FeedChars(p, s).value) == Parser(StartRecord, p.fields + Split(p.field + s, ','), "")
    decreases |s|
  {
    if s == [] {
      SplitWithoutSep(p.field, ',');
      assert p.field + s == p.field;
    } else {
      var c, rest := s[0], s[1..];
      assert Plain(rest);
      StepPlain(p, c);
      var q := Step(p, c).value;
      FeedCharsCons(p, s);
      assert FeedChars(p, s) == FeedChars(q, rest);
      assert ',' !in q.field;
      FeedPlainChars(q, rest);
      var r := FeedChars(q, rest).value;
      assert EndOfLine(r) == Parser(StartRecord, q.fields + Split(q.field + rest, ','), "");
      HeadTail(s);
      if c == ',' {
        assert q.fields == p.fields + [p.field] && q.field == "";
        SplitAfterSep(p.field, rest, ',');
        ConcatAssoc(p.field, [','], rest);
        assert q.field + rest == rest;
        ConcatAssoc(p.fields, [p.field], Split(rest, ','));
      } else {
        assert q.field == p.field + [c];
        ConcatAssoc(p.field, [c], rest);
        assert q.fields == p.fields;
      }
    }
  }

  /** A plain line is one complete row: csv.reader splits it on commas. */
  lemma FeedPlainLine(line: string)
    requires Plain(line)
    ensures Feed(Fresh, line) == Ok(Parser(StartRecord, PlainRow(line), ""))
  {
    if line != [] {
      var p := Parser(StartField, [], "");
      StartRecordAsStartField(line[0]);
      FeedCharsCons(Fresh, line);
      FeedCharsCons(p, line);
      FeedPlainChars(p, line);
      assert p.field + line == line;
      assert p.fields + Split(line, ',') == Split(line, ',');
    }
  }

  /** Without quotes or line breaks, each line is exactly one row (so the
      number of rows equals the number of lines) and that row is the line
      split on commas. */
  lemma {:induction false} ReadPlainLines(lines: seq<string>)
    requires forall i :: 0 <= i < |lines| ==> Plain(lines[i])
    ensures ReadRows(lines).Ok?
    ensures |ReadRows(lines).value| == |lines|
    ensures forall i :: 0 <= i < |lines| ==> ReadRows(lines).value[i] == PlainRow(lines[i])
  {
    if lines != [] {
      FeedPlainLine(lines[0]);
      ReadPlainLines(lines[1..]);
    }
  }

  // ------------------------------------------------------------------
  // Quoted fields keep embedded commas

  lemma {:induction false} FeedCharsAppend(p: Parser, a: string, b: string)
    requires FeedChars(p, a).Ok?
    ensures FeedChars(p, a + b) == FeedChars(FeedChars(p, a).value, b)
    decreases |a|
  {
    if a == [] {
      assert a + b == b;
    } else {
      assert (a + b)[1..] == a[1..] + b;
      FeedCharsAppend(Step(p, a[0]).value, a[1..], b);
    }
  }

  lemma {:induction false} FeedQuotedBody(p: Parser, f: string)
    requires p.state == InQuotedField
    requires '"' !in f
    ensures FeedChars(p, f) == Ok(Parser(InQuotedField, p.fields, p.field + f))
    decreases |f|
  {
    if f == [] {
      assert p.field + f == p.field;
    } else {
      assert '"' !in f[1..];
      FeedQuotedBody(AddChar(p, f[0], InQuotedField), f[1..]);
      assert p.field + [f[0]] + f[1..] == p.field + f;
    }
  }

  function Quote(f: string): string { "\"" + f + "\"" }

  /** Quoted fields joined by commas, as a spreadsheet writes them. */
  function JoinQuoted(fs: seq<string>): string
    requires |fs| >= 1
  {
    if |fs| == 1 then Quote(fs[0]) else Quote(fs[0]) + "," + JoinQuoted(fs[1..])
  }

  lemma QuotedField(p: Parser, f: string)
    requires p.state == StartField
    requires '"' !in f
    ensures FeedChars(p, Quote(f)) == Ok(Parser(QuoteInQuotedField, p.fields, p.field + f))
  {
    var p1 := p.(state := InQuotedField);
    assert Quote(f) == "\"" + (f + "\"");
    assert FeedChars(p, "\"") == Ok(p1);
    FeedCharsAppend(p, "\"", f + "\"");
    FeedQuotedBody(p1, f);
    FeedCharsAppend(p1, f, "\"");
  }

  lemma {:induction false} FeedJoinQuoted(p: Parser, fs: seq<string>)
    requires p.state == StartField && p.field == ""
    requires |fs| >= 1
    requires forall i :: 0 <= i < |fs| ==> '"' !in fs[i]
    ensures FeedChars(p, JoinQuoted(fs)).Ok?
    ensures EndOfLine(FeedChars(p, JoinQuoted(fs)).value) == Parser(StartRecord, p.fields + fs, "")
    decreases |fs|
  {
    QuotedField(p, fs[0]);
    var q := Parser(QuoteInQuotedField, p.fields, fs[0]);
    assert p.field + fs[0] == fs[0];
    if |fs| == 1 {
      assert fs == [fs[0]];
    } else {
      var r := SaveField(q, StartField);
      FeedCharsAppend(p, Quote(fs[0]), "," + JoinQuoted(fs[1..]));
      assert "," + JoinQuoted(fs[1..]) == [','] + JoinQuoted(fs[1..]);
      FeedCharsAppend(q, ",", JoinQuoted(fs[1..]));
      assert FeedChars(q, ",") == Ok(r);
      FeedJoinQuoted(r, fs[1..]);
      assert Quote(fs[0]) + "," + JoinQuoted(fs[1..]) == Quote(fs[0]) + ("," + JoinQuoted(fs[1..]));
      assert p.fields + [fs[0]] + fs[1..] == p.fields + fs;
    }
  }

  /** A line of quoted fields is one row holding the fields' texts, commas
      inside the quotes included. */
  lemma QuotedLine(fs: seq<string>)
    requires |fs| >= 1
    requires forall i :: 0 <= i < |fs| ==> '"' !in fs[i]
    ensures ReadRows([JoinQuoted(fs)]) == Ok([fs])
  {
    var p := Parser(StartField, [], "");
    var line := JoinQuoted(fs);
    assert line[0] == '"';
    StartRecordAsStartField('"');
    FeedCharsCons(Fresh, line);
    FeedCharsCons(p, line);
    FeedJoinQuoted(p, fs);
    assert p.fields + fs == fs;
    assert Feed(Fresh, line) == Ok(Parser(StartRecord, fs, ""));
    ReadOneLine(line, fs);
  }

  lemma ReadOneLine(line: string, row: Row)
    requires Feed(Fresh, line) == Ok(Parser(StartRecord, row, ""))
    ensures ReadRows([line]) == Ok([row])
  {
    var lines := [line];
    assert lines[0] == line && lines[1..] == [];
    assert ReadFrom(Fresh, lines[1..]) == Ok([]);
    assert [row] + [] == [row];
  }

  /** `"Home Runs","Ruth, Babe","BOS","54","N/A"` reads as five fields: the
      comma inside the quoted name does not split it. */
  lemma RuthRow(line: string)
    requires line == "\"Home Runs\"," + "\"Ruth, Babe\"," + "\"BOS\"," + "\"54\"," + "\"N/A\""
    ensures ReadRows([line]) == Ok([["Home Runs", "Ruth, Babe", "BOS", "54", "N/A"]])
  {
    RuthFieldsJoined();
    QuotedLine(["Home Runs", "Ruth, Babe", "BOS", "54", "N/A"]);
  }

  lemma RuthFieldsJoined()
    ensures JoinQuoted(["Home Runs", "Ruth, Babe", "BOS", "54", "N/A"])
      == "\"Home Runs\"," + "\"Ruth, Babe\"," + "\"BOS\"," + "\"54\"," + "\"N/A\""
  {
    var rest := "\"Ruth, Babe\"," + "\"BOS\"," + "\"54\"," + "\"N/A\"";
    RuthFieldsJoined1();
    assert ["Home Runs", "Ruth, Babe", "BOS", "54", "N/A"][1..] == ["Ruth, Babe", "BOS", "54", "N/A"];
    assert "\"Home Runs\"," + rest == "\"Home Runs\"," + "\"Ruth, Babe\"," + "\"BOS\"," + "\"54\"," + "\"N/A\"";
  }

  lemma RuthFieldsJoined1()
    ensures JoinQuoted(["Ruth, Babe", "BOS", "54", "N/A"])
      == "\"Ruth, Babe\"," + "\"BOS\"," + "\"54\"," + "\"N/A\""
  {
    RuthFieldsJoined2();
    assert ["Ruth, Babe", "BOS", "54", "N/A"][1..] == ["BOS", "54", "N/A"];
    assert "\"Ruth, Babe\"," + ("\"BOS\"," + "\"54\"," + "\"N/A\"")
      == "\"Ruth, Babe\"," + "\"BOS\"," + "\"54\"," + "\"N/A\"";
  }

  lemma RuthFieldsJoined2()
    ensures JoinQuoted(["BOS", "54", "N/A"]) == "\"BOS\"," + "\"54\"," + "\"N/A\""
  {
    assert ["BOS", "54", "N/A"][1..] == ["54", "N/A"];
    assert ["54", "N/A"][1..] == ["N/A"];
    assert JoinQuoted(["54", "N/A"]) == "\"54\"," + "\"N/A\"";
  }
}
