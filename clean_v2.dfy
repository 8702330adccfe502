/** clean_all_nl_v2.py: every raw National League table file is turned
    into records, and the records of each of the five tables are gathered,
    file after file, into one tidy list per table. */
module CleanV2 {
  import opened Text
  import opened Csv
  import opened RawTable

  /** One output row. Its constructor fixes the columns it has. */
  datatype Record =
    | Standing(year: int, team: string, wins: Option<nat>, losses: Option<nat>, ties: Option<nat>,
               wp: Option<string>, gb: Option<string>, payroll: Option<string>)
    | PlayerLeader(year: int, statistic: string, name: string, team: string, number: string)
    | TeamLeader(year: int, statistic: string, team: string, number: string)

  /** An entry of the OUT table: the output file and its columns. */
  datatype Schema = Schema(file: string, cols: seq<string>)

  const PlayerCols: seq<string> := ["Year", "Statistic", "Name", "Team", "#"]
  const TeamCols: seq<string> := ["Year", "Statistic", "Team", "#"]
  const StandingCols: seq<string> := ["Year", "Team", "Wins", "Losses", "Ties", "WP", "GB", "Payroll"]

  function SchemaOf(tbl: string): (s: Schema)
    requires tbl in Tables
    ensures |s.cols| >= 4 && s.cols[0] == "Year"
  {
    match tbl
    case "1" => Schema("player_hitting_leadersv2.csv", PlayerCols)
    case "2" => Schema("player_pitching_leadersv2.csv", PlayerCols)
    case "3" => Schema("team_standingsv2.csv", StandingCols)
    case "4" => Schema("team_hitting_leadersv2.csv", TeamCols)
    case "5" => Schema("team_pitching_leadersv2s.csv", TeamCols)
  }

  /** The keys of a record's dictionary, in insertion order. */
  function Columns(r: Record): seq<string>
  {
    match r
    case Standing(_, _, _, _, _, _, _, _) => StandingCols
    case PlayerLeader(_, _, _, _, _) => PlayerCols
    case TeamLeader(_, _, _, _) => TeamCols
  }

  // ------------------------------------------------------------------
  // Lines

  /** The stripped lines that are not blank. */
  function StrippedNonBlank(lines: seq<string>): (r: seq<string>)
    ensures |r| <= |lines|
  {
    if lines == [] then []
    else (if Strip(lines[0]) == "" then [] else [Strip(lines[0])]) + StrippedNonBlank(lines[1..])
  }

  /** The lines a file is read as: stripped, non-blank and not junk. */
  function CleanLines(lines: seq<string>): seq<string>
  {
    DropJunk(StrippedNonBlank(lines))
  }

  /** Reference definition: one pass that keeps a line's stripped text when
      it is neither blank nor junk. */
  function KeptLines(lines: seq<string>): seq<string>
  {
    if lines == [] then []
    else
      var t := Strip(lines[0]);
      (if t != "" && !IsJunk(t) then [t] else []) + KeptLines(lines[1..])
  }

  lemma {:induction false} DropJunkAppend(a: seq<string>, b: seq<string>)
    ensures DropJunk(a + b) == DropJunk(a) + DropJunk(b)
  {
    if a == [] {
      assert a + b == b;
    } else {
      assert (a + b)[0] == a[0] && (a + b)[1..] == a[1..] + b;
      DropJunkAppend(a[1..], b);
      var head := if IsJunk(a[0]) then [] else [a[0]];
      assert DropJunk(a + b) == head + DropJunk(a[1..] + b);
      assert DropJunk(a) == head + DropJunk(a[1..]);
    }
  }

  /** The two filters in a row are the one-pass filter. */
  lemma {:induction false} CleanLinesOnePass(lines: seq<string>)
    ensures CleanLines(lines) == KeptLines(lines)
  {
    if lines != [] {
      CleanLinesOnePass(lines[1..]);
      var t := Strip(lines[0]);
      var head := if t == "" then [] else [t];
      assert StrippedNonBlank(lines) == head + StrippedNonBlank(lines[1..]);
      DropJunkAppend(head, StrippedNonBlank(lines[1..]));
      if t != "" {
        assert DropJunk(head) == (if IsJunk(t) then [] else [t]) + DropJunk([]);
      }
    }
  }

  /** Every clean line is stripped, not blank and not junk. */
  lemma {:induction false} CleanLinesShape(lines: seq<string>)
    ensures forall k :: 0 <= k < |KeptLines(lines)| ==>
      KeptLines(lines)[k] != "" && !IsJunk(KeptLines(lines)[k]) && Strip(KeptLines(lines)[k]) == KeptLines(lines)[k]
  {
    if lines != [] {
      CleanLinesShape(lines[1..]);
      StripIdempotent(lines[0]);
    }
  }

  /** Already clean lines are all kept. */
  lemma {:induction false} CleanLinesFixed(lines: seq<string>)
    requires forall k :: 0 <= k < |lines| ==> lines[k] != "" && !IsJunk(lines[k]) && Strip(lines[k]) == lines[k]
    ensures CleanLines(lines) == lines
  {
    CleanLinesOnePass(lines);
    KeptFixed(lines);
  }

  lemma {:induction false} KeptFixed(lines: seq<string>)
    requires forall k :: 0 <= k < |lines| ==> lines[k] != "" && !IsJunk(lines[k]) && Strip(lines[k]) == lines[k]
    ensures KeptLines(lines) == lines
  {
    if lines != [] {
      KeptFixed(lines[1..]);
      assert [lines[0]] + lines[1..] == lines;
    }
  }

  // ------------------------------------------------------------------
  // Standings records

  /** `parts[i] if len(parts) > i else None`. */
  function At(parts: seq<string>, i: nat): (r: Option<string>)
    ensures r.Some? <==> i < |parts|
  {
    if i < |parts| then Some(parts[i]) else None
  }

  /** The record of an accepted standings line (Ties is always present, as
      an accepted line has at least four segments). */
  function StandingOf(year: int, parts: seq<string>): Record
    requires |parts| >= 4
  {
    Standing(year, parts[0], ToInt(parts[1]), ToInt(parts[2]), ToInt(parts[3]),
             At(parts, 4), At(parts, 5), At(parts, 6))
  }

  function Standings(year: int, accepted: seq<seq<string>>): (r: seq<Record>)
    requires forall k :: 0 <= k < |accepted| ==> Accepted(accepted[k])
    ensures |r| == |accepted|
  {
    seq(|accepted|, k requires 0 <= k < |accepted| && Accepted(accepted[k]) => StandingOf(year, accepted[k]))
  }

  /** A line made of stripped, comma-free fields gives the record whose
      team is the first field, whose counts are the numbers in the next
      three, and whose WP, GB and Payroll are the fifth to seventh fields
      where the line has them. */
  lemma StandingOfLine(year: int, fields: seq<string>)
    requires |fields| >= 4 && fields[0] != "Payroll"
    requires forall k :: 0 <= k < |fields| ==> fields[k] != "" && Strip(fields[k]) == fields[k] && ',' !in fields[k]
    ensures Accepted(Parts(Join(fields, ',')))
    ensures StandingOf(year, Parts(Join(fields, ','))) ==
      Standing(year, fields[0], ToInt(fields[1]), ToInt(fields[2]), ToInt(fields[3]),
               if |fields| > 4 then Some(fields[4]) else None,
               if |fields| > 5 then Some(fields[5]) else None,
               if |fields| > 6 then Some(fields[6]) else None)
  {
    PartsOfJoin(fields);
  }

  // ------------------------------------------------------------------
  // Leader records

  /** A csv row the leader loop does not skip. */
  predicate LeaderKept(r: Row)
  {
    !(|r| < 2 || r[0] == "Statistic")
  }

  function KeptRows(rows: seq<Row>): (r: seq<Row>)
    ensures |r| <= |rows|
    ensures forall k :: 0 <= k < |r| ==> LeaderKept(r[k])
  {
    if rows == [] then []
    else (if LeaderKept(rows[0]) then [rows[0]] else []) + KeptRows(rows[1..])
  }

  lemma {:induction false} KeptRowsAppend(a: seq<Row>, b: seq<Row>)
    ensures KeptRows(a + b) == KeptRows(a) + KeptRows(b)
  {
    if a == [] {
      assert a + b == b;
    } else {
      assert (a + b)[0] == a[0] && (a + b)[1..] == a[1..] + b;
      KeptRowsAppend(a[1..], b);
      var head := if LeaderKept(a[0]) then [a[0]] else [];
      assert KeptRows(a + b) == head + KeptRows(a[1..] + b);
      assert KeptRows(a) == head + KeptRows(a[1..]);
    }
  }

  lemma KeptRowsSnoc(rows: seq<Row>, i: nat)
    requires i < |rows|
    ensures KeptRows(rows[..i + 1]) == KeptRows(rows[..i]) + (if LeaderKept(rows[i]) then [rows[i]] else [])
  {
    assert rows[..i + 1] == rows[..i] + [rows[i]];
    KeptRowsAppend(rows[..i], [rows[i]]);
  }

  /** A row is kept exactly when it is one of the rows and not skipped. */
  lemma {:induction false} KeptRowsMembers(rows: seq<Row>, r: Row)
    ensures r in KeptRows(rows) <==> r in rows && LeaderKept(r)
  {
    if rows != [] {
      KeptRowsMembers(rows[1..], r);
      assert rows == [rows[0]] + rows[1..];
    }
  }

  function IsPlayerTable(tbl: string): bool { tbl == "1" || tbl == "2" }

  /** The record of a kept leader row: the row padded with five empty
      strings, the Top-25 column of the player tables dropped, zipped with
      the table's columns after Year. */
  function LeaderOf(year: int, tbl: string, r: Row): Record
  {
    var p := Pad(r);
    if IsPlayerTable(tbl) then
      var q := p[..4] + [p[3]];
      PlayerLeader(year, q[0], q[1], q[2], q[3])
    else TeamLeader(year, p[0], p[1], p[2])
  }

  /** A leader record holds the row's first fields in order, empty strings
      where the row is short, and nothing of the fields after them. */
  lemma LeaderFields(year: int, tbl: string, r: Row)
    ensures IsPlayerTable(tbl) ==>
      LeaderOf(year, tbl, r) == PlayerLeader(year, Field(r, 0), Field(r, 1), Field(r, 2), Field(r, 3))
    ensures !IsPlayerTable(tbl) ==>
      LeaderOf(year, tbl, r) == TeamLeader(year, Field(r, 0), Field(r, 1), Field(r, 2))
  {
    PadAt(r, 0);
    PadAt(r, 1);
    PadAt(r, 2);
    PadAt(r, 3);
  }

  function Leaders(year: int, tbl: string, rows: seq<Row>): (r: seq<Record>)
    ensures |r| == |rows|
  {
    seq(|rows|, k requires 0 <= k < |rows| => LeaderOf(year, tbl, rows[k]))
  }

  lemma StandingsSnoc(year: int, accepted: seq<seq<string>>, parts: seq<string>)
    requires forall k :: 0 <= k < |accepted| ==> Accepted(accepted[k])
    requires Accepted(parts)
    ensures Standings(year, accepted + [parts]) == Standings(year, accepted) + [StandingOf(year, parts)]
  {
    var a := accepted + [parts];
    assert forall k :: 0 <= k < |accepted| ==> a[k] == accepted[k];
  }

  lemma LeadersSnoc(year: int, tbl: string, rows: seq<Row>, r: Row)
    ensures Leaders(year, tbl, rows + [r]) == Leaders(year, tbl, rows) + [LeaderOf(year, tbl, r)]
  {
    var a := rows + [r];
    assert forall k :: 0 <= k < |rows| ==> a[k] == rows[k];
  }

  /** One more kept row adds its record to the end. */
  lemma KeptStep(year: int, tbl: string, rs: seq<Row>, i: nat)
    requires i < |rs| && LeaderKept(rs[i])
    ensures KeptRows(rs[..i + 1]) != []
    ensures Leaders(year, tbl, KeptRows(rs[..i + 1])) == Leaders(year, tbl, KeptRows(rs[..i])) + [LeaderOf(year, tbl, rs[i])]
  {
    KeptRowsSnoc(rs, i);
    LeadersSnoc(year, tbl, KeptRows(rs[..i]), rs[i]);
  }

  /** Some row is kept once any row is. */
  lemma KeptAt(rs: seq<Row>, i: nat)
    requires i < |rs| && LeaderKept(rs[i])
    ensures KeptRows(rs) != []
  {
    KeptRowsSnoc(rs, i);
    KeptRowsAppend(rs[..i + 1], rs[i + 1..]);
    assert rs[..i + 1] + rs[i + 1..] == rs;
  }

  /** A skipped row adds nothing. */
  lemma SkippedStep(rs: seq<Row>, i: nat)
    requires i < |rs| && !LeaderKept(rs[i])
    ensures KeptRows(rs[..i + 1]) == KeptRows(rs[..i])
  {
    KeptRowsSnoc(rs, i);
    EmptyUnits(KeptRows(rs[..i]));
  }

  lemma LeadersOne(year: int, tbl: string, r: Row)
    ensures Leaders(year, tbl, [r]) == [LeaderOf(year, tbl, r)]
  {
  }

  /** The lines handed to the csv reader: newlines replaced by spaces, then stripped. */
  function LeaderLines(body: seq<string>): (r: seq<string>)
    ensures |r| == |body|
  {
    seq(|body|, k requires 0 <= k < |body| => Strip(ReplaceChar(body[k], '\n', ' ')))
  }

  // ------------------------------------------------------------------
  // One file

  /** The records of a standings file's body. The year is converted at the
      first accepted line, so a file without one never fails. */
  function StandingsFile(yearText: string, body: seq<string>): (r: Result<seq<Record>, FileError>)
    ensures r.Err? ==> r.error == BadYear
  {
    var accepted := AcceptedParts(body);
    if accepted == [] then Ok([])
    else if PyInt(yearText).None? then Err(BadYear)
    else Ok(Standings(PyInt(yearText).value, accepted))
  }

  /** The records of a leader file's body. The rows the reader yields before
      any error are looked at first: the year is converted and the table
      looked up at the first kept row; the reader's error comes after them. */
  function LeadersFile(yearText: string, tbl: string, body: seq<string>): (r: Result<seq<Record>, FileError>)
    ensures r.Ok? && r.value != [] ==> tbl in Tables
  {
    var read := ReadPrefix(LeaderLines(body));
    var kept := KeptRows(read.0);
    if kept != [] && PyInt(yearText).None? then Err(BadYear)
    else if kept != [] && tbl !in Tables then Err(UnknownTable)
    else if read.1.Some? then Err(CsvFailure(read.1.value))
    else Ok(Leaders(YearOr(yearText), tbl, kept))
  }

  /** The records of a file whose name gave this year text and table number. */
  function TableFile(yearText: string, tbl: string, lines: seq<string>): (r: Result<seq<Record>, FileError>)
    ensures r.Ok? && r.value != [] ==> tbl in Tables
    ensures r.Err? ==> r.error != MissingTableNumber
  {
    var body := Body(CleanLines(lines));
    if tbl == "3" then StandingsFile(yearText, body) else LeadersFile(yearText, tbl, body)
  }

  /** What processing one file yields: its table number and its records in
      order, or the error that stops the script. */
  function FileRecords(f: RawFile): (r: Result<(string, seq<Record>), FileError>)
    ensures r.Ok? && r.value.1 != [] ==> r.value.0 in Tables
    ensures r.Err? && r.error == MissingTableNumber <==> StemFields(f.stem).None?
  {
    match StemFields(f.stem)
    case None => Err(MissingTableNumber)
    case Some((yearText, tbl)) =>
      match TableFile(yearText, tbl, f.lines)
      case Err(e) => Err(e)
      case Ok(recs) => Ok((tbl, recs))
  }

  /** Every record of a file carries the year of its name. */
  lemma FileRecordsYear(f: RawFile)
    requires FileRecords(f).Ok?
    ensures forall k :: 0 <= k < |FileRecords(f).value.1| ==>
      PyInt(StemFields(f.stem).value.0) == Some(FileRecords(f).value.1[k].year)
  {
    var (yearText, tbl) := StemFields(f.stem).value;
    FileRecordsOfStem(f, yearText, tbl);
    TableFileYear(yearText, tbl, f.lines);
  }

  lemma TableFileYear(yearText: string, tbl: string, lines: seq<string>)
    requires TableFile(yearText, tbl, lines).Ok?
    ensures forall k :: 0 <= k < |TableFile(yearText, tbl, lines).value| ==>
      PyInt(yearText) == Some(TableFile(yearText, tbl, lines).value[k].year)
  {
    var body := Body(CleanLines(lines));
    if tbl == "3" {
      StandingsFileYear(yearText, body);
    } else {
      TableFileLeaders(yearText, tbl, lines);
      LeadersFileYear(yearText, tbl, body);
    }
  }

  lemma StandingsFileYear(yearText: string, body: seq<string>)
    requires StandingsFile(yearText, body).Ok?
    ensures forall k :: 0 <= k < |StandingsFile(yearText, body).value| ==>
      PyInt(yearText) == Some(StandingsFile(yearText, body).value[k].year)
  {
  }

  lemma LeadersFileYear(yearText: string, tbl: string, body: seq<string>)
    requires LeadersFile(yearText, tbl, body).Ok?
    ensures forall k :: 0 <= k < |LeadersFile(yearText, tbl, body).value| ==>
      PyInt(yearText) == Some(LeadersFile(yearText, tbl, body).value[k].year)
  {
  }

  /** Every record of a file has the columns of its table. */
  lemma FileRecordsShape(f: RawFile)
    requires FileRecords(f).Ok?
    ensures forall k :: 0 <= k < |FileRecords(f).value.1| ==>
      Columns(FileRecords(f).value.1[k]) == SchemaOf(FileRecords(f).value.0).cols
  {
    var (yearText, tbl) := StemFields(f.stem).value;
    var recs := FileRecords(f).value.1;
    assert recs == TableFile(yearText, tbl, f.lines).value;
    var body := Body(CleanLines(f.lines));
    if recs != [] {
      SchemaCols(tbl);
      if tbl == "3" {
        assert recs == StandingsFile(yearText, body).value;
        var acc := AcceptedParts(body);
        StandingsShape(PyInt(yearText).value, acc);
      } else {
        assert recs == LeadersFile(yearText, tbl, body).value;
        var kept := KeptRows(ReadPrefix(LeaderLines(body)).0);
        LeadersShape(YearOr(yearText), tbl, kept);
      }
    }
  }

  lemma SchemaCols(tbl: string)
    requires tbl in Tables
    ensures SchemaOf(tbl).cols ==
      if tbl == "3" then StandingCols else if IsPlayerTable(tbl) then PlayerCols else TeamCols
  {
  }

  lemma StandingsShape(year: int, accepted: seq<seq<string>>)
    requires forall k :: 0 <= k < |accepted| ==> Accepted(accepted[k])
    ensures forall k :: 0 <= k < |accepted| ==> Columns(Standings(year, accepted)[k]) == StandingCols
  {
  }

  lemma LeadersShape(year: int, tbl: string, rows: seq<Row>)
    ensures forall k :: 0 <= k < |rows| ==>
      Columns(Leaders(year, tbl, rows)[k]) == if IsPlayerTable(tbl) then PlayerCols else TeamCols
  {
  }

  /** A file with no line after its caption yields no record and no error. */
  lemma CaptionOnly(f: RawFile)
    requires StemFields(f.stem).Some?
    requires |CleanLines(f.lines)| <= 1
    ensures FileRecords(f) == Ok((StemFields(f.stem).value.1, []))
  {
    var body := Body(CleanLines(f.lines));
    assert body == [];
    assert LeaderLines(body) == [];
  }

  /** A leader file of a table outside the five fails once it has a row to
      record, and only then. */
  lemma UnknownTableFails(f: RawFile)
    requires StemFields(f.stem).Some? && StemFields(f.stem).value.1 !in Tables
    requires PyInt(StemFields(f.stem).value.0).Some?
    ensures FileRecords(f).Ok? ==> FileRecords(f).value.1 == []
    ensures FileRecords(f).Err? && FileRecords(f).error == UnknownTable <==>
      KeptRows(ReadPrefix(LeaderLines(Body(CleanLines(f.lines)))).0) != []
  {
  }

  /** A file of one caption and one plain leader line yields the record of
      that line's comma fields. */
  lemma PlainLeaderFile(yearText: string, tbl: string, caption: string, line: string)
    requires '_' !in yearText && '_' !in tbl && tbl in Tables && tbl != "3"
    requires PyInt(yearText).Some?
    requires caption != "" && !IsJunk(caption) && Strip(caption) == caption
    requires line != "" && !IsJunk(line) && Strip(line) == line && Plain(line)
    requires LeaderKept(Split(line, ','))
    ensures FileRecords(RawFile(yearText + "_Table_" + tbl, [caption, line]))
      == Ok((tbl, [LeaderOf(PyInt(yearText).value, tbl, Split(line, ','))]))
  {
    StemOfTableFile(yearText, tbl);
    var lines := [caption, line];
    var row := Split(line, ',');
    var y := PyInt(yearText).value;
    assert LeadersFile(yearText, tbl, [line]) == Ok([LeaderOf(y, tbl, row)]) by {
      ReadPlainLeaderLine(line);
      assert KeptRows([row]) == [row] + KeptRows([]);
      assert KeptRows([row]) == [row];
      LeadersOne(y, tbl, row);
      LeadersFileRead(yearText, tbl, [line], [row]);
    }
    assert TableFile(yearText, tbl, lines) == Ok([LeaderOf(y, tbl, row)]) by {
      CaptionAndLine(caption, line);
      TableFileLeaders(yearText, tbl, lines);
    }
    FileRecordsOfStem(RawFile(yearText + "_Table_" + tbl, lines), yearText, tbl);
  }

  lemma FileRecordsOfStem(f: RawFile, yearText: string, tbl: string)
    requires StemFields(f.stem) == Some((yearText, tbl))
    requires TableFile(yearText, tbl, f.lines).Ok?
    ensures FileRecords(f) == Ok((tbl, TableFile(yearText, tbl, f.lines).value))
  {
  }

  lemma FileRecordsNoStem(f: RawFile)
    requires StemFields(f.stem).None?
    ensures FileRecords(f) == Err(MissingTableNumber)
  {
  }

  lemma FileRecordsFromTable(f: RawFile, yearText: string, tbl: string)
    requires StemFields(f.stem) == Some((yearText, tbl))
    ensures TableFile(yearText, tbl, f.lines).Err? ==> FileRecords(f) == Err(TableFile(yearText, tbl, f.lines).error)
    ensures TableFile(yearText, tbl, f.lines).Ok? ==> FileRecords(f) == Ok((tbl, TableFile(yearText, tbl, f.lines).value))
  {
  }

  lemma TableFileStandings(yearText: string, tbl: string, lines: seq<string>)
    requires tbl == "3"
    ensures TableFile(yearText, tbl, lines) == StandingsFile(yearText, Body(CleanLines(lines)))
  {
  }

  lemma TableFileLeaders(yearText: string, tbl: string, lines: seq<string>)
    requires tbl != "3"
    ensures TableFile(yearText, tbl, lines) == LeadersFile(yearText, tbl, Body(CleanLines(lines)))
  {
  }

  lemma LeadersFileRead(yearText: string, tbl: string, body: seq<string>, rows: seq<Row>)
    requires ReadPrefix(LeaderLines(body)) == (rows, None)
    requires PyInt(yearText).Some? && tbl in Tables
    ensures LeadersFile(yearText, tbl, body) == Ok(Leaders(PyInt(yearText).value, tbl, KeptRows(rows)))
  {
  }

  lemma CaptionAndLine(caption: string, line: string)
    requires caption != "" && !IsJunk(caption) && Strip(caption) == caption
    requires line != "" && !IsJunk(line) && Strip(line) == line
    ensures Body(CleanLines([caption, line])) == [line]
  {
    var lines := [caption, line];
    assert forall k :: 0 <= k < |lines| ==> lines[k] == caption || lines[k] == line;
    CleanLinesFixed(lines);
  }

  lemma ReadPlainLeaderLine(line: string)
    requires line != "" && Strip(line) == line && Plain(line)
    ensures ReadPrefix(LeaderLines([line])) == ([Split(line, ',')], None)
  {
    assert '\n' !in line;
    ReplaceAbsent(line, '\n', ' ');
    assert LeaderLines([line]) == [line];
    ReadPlainLines([line]);
    var v := ReadRows([line]).value;
    assert |v| == 1 && v[0] == PlainRow(line) == Split(line, ',');
    assert v == [Split(line, ',')];
    ReadPrefixAgrees(Fresh, [line]);
  }

  // ------------------------------------------------------------------
  // The accumulated tables

  const EmptyOut: map<string, seq<Record>> := map t | t in Tables :: []

  /** The lists after a file's records are appended to its table. */
  function Deposit(m: map<string, seq<Record>>, tbl: string, recs: seq<Record>): (r: map<string, seq<Record>>)
    requires m.Keys == Tables
    requires recs != [] ==> tbl in Tables
    ensures r.Keys == Tables
  {
    if recs == [] then m else m[tbl := m[tbl] + recs]
  }

  /** What one file yields. */
  type FileResult = Result<(string, seq<Record>), FileError>

  /** A result that carries records names one of the five tables. */
  predicate Tabled(r: FileResult)
  {
    r.Ok? && r.value.1 != [] ==> r.value.0 in Tables
  }

  /** The result of each file, in processing order. */
  function Results(files: seq<RawFile>): (r: seq<FileResult>)
    ensures |r| == |files|
    ensures forall k :: 0 <= k < |r| ==> Tabled(r[k])
  {
    if files == [] then [] else [FileRecords(files[0])] + Results(files[1..])
  }

  lemma {:induction false} ResultsAt(files: seq<RawFile>, i: nat)
    requires i < |files|
    ensures Results(files)[i] == FileRecords(files[i])
  {
    if i > 0 {
      ResultsAt(files[1..], i - 1);
    }
  }

  /** The lists after the results are deposited in order, or the first error. */
  function Collect(m: map<string, seq<Record>>, rs: seq<FileResult>): (r: Result<map<string, seq<Record>>, FileError>)
    requires m.Keys == Tables
    requires forall k :: 0 <= k < |rs| ==> Tabled(rs[k])
    ensures r.Ok? ==> r.value.Keys == Tables
    decreases |rs|
  {
    if rs == [] then Ok(m)
    else
      assert Tabled(rs[0]);
      assert forall k :: 0 <= k < |rs[1..]| ==> rs[1..][k] == rs[k + 1];
      match rs[0]
      case Err(e) => Err(e)
      case Ok((tbl, recs)) => Collect(Deposit(m, tbl, recs), rs[1..])
  }

  function RunSpec(files: seq<RawFile>): Result<map<string, seq<Record>>, FileError>
  {
    Collect(EmptyOut, Results(files))
  }

  /** Reference definition: one table's records, result after result. */
  function TableRecords(rs: seq<FileResult>, t: string): seq<Record>
  {
    if rs == [] then []
    else
      (match rs[0]
       case Ok((tbl, recs)) => if tbl == t then recs else []
       case Err(_) => [])
      + TableRecords(rs[1..], t)
  }

  predicate AllOk(rs: seq<FileResult>)
  {
    forall i :: 0 <= i < |rs| ==> rs[i].Ok?
  }

  lemma {:induction false} CollectTables(m: map<string, seq<Record>>, rs: seq<FileResult>)
    requires m.Keys == Tables
    requires forall k :: 0 <= k < |rs| ==> Tabled(rs[k])
    ensures Collect(m, rs).Ok? <==> AllOk(rs)
    ensures Collect(m, rs).Ok? ==>
      forall t :: t in Tables ==> Collect(m, rs).value[t] == m[t] + TableRecords(rs, t)
    decreases |rs|
  {
    if rs != [] {
      assert forall i :: 1 <= i < |rs| ==> rs[1..][i - 1] == rs[i];
      match rs[0]
      case Err(e) =>
      case Ok((tbl, recs)) =>
        var m' := Deposit(m, tbl, recs);
        CollectTables(m', rs[1..]);
        assert Collect(m, rs) == Collect(m', rs[1..]);
        if Collect(m, rs).Ok? {
          var out := Collect(m', rs[1..]).value;
          forall t | t in Tables
            ensures out[t] == m[t] + TableRecords(rs, t)
          {
            var own := if tbl == t then recs else [];
            assert TableRecords(rs, t) == own + TableRecords(rs[1..], t);
            DepositTable(m, tbl, recs, t);
            assert out[t] == m'[t] + TableRecords(rs[1..], t);
            ConcatAssoc(m[t], own, TableRecords(rs[1..], t));
          }
        }
    }
  }

  /** Depositing adds the records to their own table and to no other. */
  lemma DepositTable(m: map<string, seq<Record>>, tbl: string, recs: seq<Record>, t: string)
    requires m.Keys == Tables && t in Tables
    requires recs != [] ==> tbl in Tables
    ensures Deposit(m, tbl, recs)[t] == m[t] + (if tbl == t then recs else [])
  {
    EmptyUnits(m[t]);
  }

  /** The script either stops at a file that fails, or leaves each table
      with the records of its files in the order the files are processed. */
  lemma RunIsConcatenation(files: seq<RawFile>)
    ensures RunSpec(files).Ok? <==> forall i :: 0 <= i < |files| ==> FileRecords(files[i]).Ok?
    ensures RunSpec(files).Ok? ==> RunSpec(files).value.Keys == Tables
    ensures RunSpec(files).Ok? ==>
      forall t :: t in Tables ==> RunSpec(files).value[t] == TableRecords(Results(files), t)
  {
    CollectTables(EmptyOut, Results(files));
    forall i | 0 <= i < |files|
      ensures Results(files)[i] == FileRecords(files[i])
    {
      ResultsAt(files, i);
    }
  }

  lemma {:induction false} CollectFirstError(m: map<string, seq<Record>>, rs: seq<FileResult>, i: nat)
    requires m.Keys == Tables
    requires forall k :: 0 <= k < |rs| ==> Tabled(rs[k])
    requires i < |rs| && rs[i].Err?
    requires forall j :: 0 <= j < i ==> rs[j].Ok?
    ensures Collect(m, rs) == Err(rs[i].error)
    decreases i
  {
    if i > 0 {
      match rs[0]
      case Ok((tbl, recs)) =>
        assert rs[1..][i - 1] == rs[i];
        assert forall j :: 0 <= j < i - 1 ==> rs[1..][j] == rs[j + 1];
        CollectFirstError(Deposit(m, tbl, recs), rs[1..], i - 1);
    }
  }

  /** The error the script stops with is that of the first failing file. */
  lemma RunFirstError(files: seq<RawFile>, i: nat)
    requires i < |files| && FileRecords(files[i]).Err?
    requires forall j :: 0 <= j < i ==> FileRecords(files[j]).Ok?
    ensures RunSpec(files) == Err(FileRecords(files[i]).error)
  {
    forall j | 0 <= j <= i
      ensures Results(files)[j] == FileRecords(files[j])
    {
      ResultsAt(files, j);
    }
    CollectFirstError(EmptyOut, Results(files), i);
  }

  /** The OUT table: one list of records per table number. */
  class Out {
    var rows: map<string, seq<Record>>

    ghost predicate Valid()
      reads this
    {
      rows.Keys == Tables
    }

    constructor()
      ensures Valid() && rows == EmptyOut
    {
      rows := EmptyOut;
    }

    /** The standings branch of the file loop: the records of the accepted
        lines, converting the year at each one. */
    method StandingRecords(yearText: string, body: seq<string>) returns (res: Result<seq<Record>, FileError>)
      ensures res == StandingsFile(yearText, body)
    {
      var recs: seq<Record> := [];
      var i := 0;
      assert body[..i] == [] && AcceptedParts([]) == [];
      assert Standings(YearOr(yearText), []) == [];
      while i < |body|
        invariant 0 <= i <= |body|
        invariant AcceptedParts(body[..i]) == [] || PyInt(yearText).Some?
        invariant recs == Standings(YearOr(yearText), AcceptedParts(body[..i]))
      {
        var parts := Parts(body[i]);
        ghost var before := AcceptedParts(body[..i]);
        AcceptedPartsSnoc(body, i);
        if !(|parts| < 4 || parts[0] == "Payroll") {
          var year := PyInt(yearText);
          if year.None? {
            AcceptedAt(body, i);
            return Err(BadYear);
          }
          assert AcceptedParts(body[..i + 1]) == before + [parts];
          StandingsSnoc(year.value, before, parts);
          recs := recs + [StandingOf(year.value, parts)];
        } else {
          assert AcceptedParts(body[..i + 1]) == before;
        }
        assert AcceptedParts(body[..i + 1]) == [] || PyInt(yearText).Some?;
        assert recs == Standings(YearOr(yearText), AcceptedParts(body[..i + 1]));
        i := i + 1;
      }
      assert body[..i] == body;
      return Ok(recs);
    }

    /** The leader branch of the file loop: the records of the kept csv
        rows, converting the year and looking the table up at each one. */
    method LeaderRecords(yearText: string, tbl: string, body: seq<string>) returns (res: Result<seq<Record>, FileError>)
      requires Valid()
      ensures res == LeadersFile(yearText, tbl, body)
    {
      var read := ReadPrefix(LeaderLines(body));
      var rs := read.0;
      var recs: seq<Record> := [];
      var i := 0;
      while i < |rs|
        invariant 0 <= i <= |rs|
        invariant KeptRows(rs[..i]) == [] || (PyInt(yearText).Some? && tbl in Tables)
        invariant recs == Leaders(YearOr(yearText), tbl, KeptRows(rs[..i]))
      {
        var r := rs[i];
        if !(|r| < 2 || r[0] == "Statistic") {
          r := r + ["", "", "", "", ""];
          if tbl == "1" || tbl == "2" {
            r := r[..4] + [r[3]];
          }
          var year := PyInt(yearText);
          if year.None? || tbl !in rows {
            KeptAt(rs, i);
            return if year.None? then Err(BadYear) else Err(UnknownTable);
          }
          var rec := if tbl == "1" || tbl == "2" then PlayerLeader(year.value, r[0], r[1], r[2], r[3])
                     else TeamLeader(year.value, r[0], r[1], r[2]);
          assert rec == LeaderOf(year.value, tbl, rs[i]);
          KeptStep(year.value, tbl, rs, i);
          recs := recs + [rec];
        } else {
          SkippedStep(rs, i);
        }
        i := i + 1;
      }
      assert rs[..i] == rs;
      if read.1.Some? {
        return Err(CsvFailure(read.1.value));
      }
      return Ok(recs);
    }

    /** One pass of the file loop. The file's records are gathered and then
        appended to its table; a failing file leaves the lists unchanged. */
    method ProcessFile(f: RawFile) returns (err: Option<FileError>)
      requires Valid()
      modifies this
      ensures Valid()
      ensures FileRecords(f).Err? ==> err == Some(FileRecords(f).error) && rows == old(rows)
      ensures FileRecords(f).Ok? ==>
        err == None && rows == Deposit(old(rows), FileRecords(f).value.0, FileRecords(f).value.1)
    {
      var segs := Split(f.stem, '_');
      if |segs| < 3 {
        FileRecordsNoStem(f);
        return Some(MissingTableNumber);
      }
      var yearText, tbl := segs[0], segs[2];
      FileRecordsFromTable(f, yearText, tbl);
      var body := Body(CleanLines(f.lines));
      var res;
      if tbl == "3" {
        res := StandingRecords(yearText, body);
        TableFileStandings(yearText, tbl, f.lines);
      } else {
        res := LeaderRecords(yearText, tbl, body);
        TableFileLeaders(yearText, tbl, f.lines);
      }
      if res.Err? {
        return Some(res.error);
      }
      if res.value != [] {
        rows := rows[tbl := rows[tbl] + res.value];
      }
      return None;
    }
  }

  /** The whole script: every file in order, stopping at the first error.
      On success the result is the five lists, ready to be written. */
  method Run(files: seq<RawFile>) returns (res: Result<map<string, seq<Record>>, FileError>)
    ensures res == RunSpec(files)
  {
    var out := new Out();
    var i := 0;
    while i < |files|
      invariant 0 <= i <= |files|
      invariant out.Valid()
      invariant Collect(out.rows, Results(files[i..])) == RunSpec(files)
    {
      assert files[i..][0] == files[i] && files[i..][1..] == files[i + 1..];
      assert Results(files[i..]) == [FileRecords(files[i])] + Results(files[i + 1..]);
      var err := out.ProcessFile(files[i]);
      if err.Some? {
        return Err(err.value);
      }
      i := i + 1;
    }
    return Ok(out.rows);
  }
}
