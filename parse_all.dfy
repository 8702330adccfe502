/** parse_all_tables.py, the earlier parser: every raw table file becomes
    at most one frame, the frames of each table are kept in processing
    order, and each table with frames is written as their concatenation. */
module ParseAll {
  import opened Text
  import opened Csv
  import opened RawTable

  /** One output row. Standings have no Ties or Payroll; the player tables
      lose the Top 25 column and the team tables keep it. */
  datatype Record =
    | ShortStanding(year: int, team: string, wins: Option<nat>, losses: Option<nat>,
                    wp: Option<string>, gb: Option<string>)
    | PlayerRow(year: int, statistic: string, name: string, team: string, number: string)
    | TeamRow(year: int, statistic: string, name: string, team: string, number: string, top25: string)

  /** One frame: the rows one file contributes. */
  type FrameRows = seq<Record>

  /** `table_map`: the output file of a table and whether its Top 25 column
      is kept. */
  function TableEntry(tbl: string): (e: (string, bool))
    requires tbl in Tables
    ensures e.1 <==> !(tbl == "1" || tbl == "2")
  {
    match tbl
    case "1" => ("player_hitting_leaders.csv", false)
    case "2" => ("player_pitching_leaders.csv", false)
    case "3" => ("team_standings.csv", true)
    case "4" => ("team_hitting_leaders.csv", true)
    case "5" => ("team_pitching_leaders.csv", true)
  }

  // ------------------------------------------------------------------
  // Standings

  /** The record of an accepted standings line; `parts[3]` is not read. */
  function ShortStandingOf(year: int, parts: seq<string>): Record
    requires |parts| >= 4
  {
    ShortStanding(year, parts[0], ToInt(parts[1]), ToInt(parts[2]),
                  if |parts| > 4 then Some(parts[4]) else None,
                  if |parts| > 5 then Some(parts[5]) else None)
  }

  function ShortStandings(year: int, accepted: seq<seq<string>>): (r: FrameRows)
    requires forall k :: 0 <= k < |accepted| ==> Accepted(accepted[k])
    ensures |r| == |accepted|
  {
    seq(|accepted|, k requires 0 <= k < |accepted| && Accepted(accepted[k]) => ShortStandingOf(year, accepted[k]))
  }

  lemma ShortStandingsSnoc(year: int, accepted: seq<seq<string>>, parts: seq<string>)
    requires forall k :: 0 <= k < |accepted| ==> Accepted(accepted[k])
    requires Accepted(parts)
    ensures ShortStandings(year, accepted + [parts]) == ShortStandings(year, accepted) + [ShortStandingOf(year, parts)]
  {
    var a := accepted + [parts];
    assert forall k :: 0 <= k < |accepted| ==> a[k] == accepted[k];
  }

  /** The fourth segment has no influence on the record. */
  lemma TiesIgnored(year: int, parts: seq<string>, other: string)
    requires |parts| >= 4
    ensures ShortStandingOf(year, parts[3 := other]) == ShortStandingOf(year, parts)
  {
  }

  /** A line of stripped, comma-free fields gives the record of its team,
      the numbers in its second and third fields, and its fifth and sixth
      fields where it has them. */
  lemma ShortStandingOfLine(year: int, fields: seq<string>)
    requires |fields| >= 4 && fields[0] != "Payroll"
    requires forall k :: 0 <= k < |fields| ==> fields[k] != "" && Strip(fields[k]) == fields[k] && ',' !in fields[k]
    ensures Accepted(Parts(Join(fields, ',')))
    ensures ShortStandingOf(year, Parts(Join(fields, ','))) ==
      ShortStanding(year, fields[0], ToInt(fields[1]), ToInt(fields[2]),
                    if |fields| > 4 then Some(fields[4]) else None,
                    if |fields| > 5 then Some(fields[5]) else None)
  {
    PartsOfJoin(fields);
  }

  /** The standings frame of a body, or None when no line was accepted and
      no frame is added. The year is converted at the first accepted line. */
  function StandingsFrame(yearText: string, body: seq<string>): (r: Result<Option<FrameRows>, FileError>)
    ensures r.Err? ==> r.error == BadYear
  {
    var accepted := AcceptedParts(body);
    if accepted == [] then Ok(None)
    else if PyInt(yearText).None? then Err(BadYear)
    else Ok(Some(ShortStandings(PyInt(yearText).value, accepted)))
  }

  /** A standings frame is added exactly when some line is accepted, and an
      added frame is never empty. */
  lemma StandingsFrameAdded(yearText: string, body: seq<string>)
    requires StandingsFrame(yearText, body).Ok?
    ensures StandingsFrame(yearText, body).value.None? <==> AcceptedParts(body) == []
    ensures StandingsFrame(yearText, body).value.Some? ==> StandingsFrame(yearText, body).value.value != []
  {
  }

  // ------------------------------------------------------------------
  // Leader tables

  /** `(r + [""] * 5)[:5]`. */
  function PadTo5(r: Row): (p: Row)
    ensures |p| == 5
  {
    Pad(r)[..5]
  }

  /** Every row becomes exactly five fields: its own first five, with ""
      where it is short. */
  lemma PadTo5Fields(r: Row)
    ensures forall k :: 0 <= k < 5 ==> PadTo5(r)[k] == Field(r, k)
  {
    forall k | 0 <= k < 5
      ensures PadTo5(r)[k] == Field(r, k)
    {
      PadAt(r, k);
    }
  }

  /** A padded row with Year inserted first, and Top 25 dropped unless kept. */
  function LeaderRow(year: int, keepTop: bool, p: Row): Record
    requires |p| == 5
  {
    if keepTop then TeamRow(year, p[0], p[1], p[2], p[3], p[4])
    else PlayerRow(year, p[0], p[1], p[2], p[3])
  }

  function LeaderFrameRows(year: int, keepTop: bool, rows: seq<Row>): (r: FrameRows)
    ensures |r| == |rows|
  {
    seq(|rows|, k requires 0 <= k < |rows| => LeaderRow(year, keepTop, PadTo5(rows[k])))
  }

  /** The body handed to the csv reader: newlines replaced, not stripped. */
  function RawLines(body: seq<string>): (r: seq<string>)
    ensures |r| == |body|
  {
    seq(|body|, k requires 0 <= k < |body| => ReplaceChar(body[k], '\n', ' '))
  }

  /** The leader frame of a body. The reader is run to the end first, then
      the year is converted and the table looked up, each unconditionally. */
  function LeadersFrame(yearText: string, tbl: string, body: seq<string>): (r: Result<Option<FrameRows>, FileError>)
    ensures r.Ok? ==> r.value.Some? && tbl in Tables
  {
    match ReadRows(RawLines(body))
    case Err(e) => Err(CsvFailure(e))
    case Ok(rows) =>
      if PyInt(yearText).None? then Err(BadYear)
      else if tbl !in Tables then Err(UnknownTable)
      else Ok(Some(LeaderFrameRows(PyInt(yearText).value, TableEntry(tbl).1, rows)))
  }

  /** Every csv row of a leader file gives exactly one output row. */
  lemma LeaderRowCount(yearText: string, tbl: string, body: seq<string>)
    requires LeadersFrame(yearText, tbl, body).Ok?
    ensures ReadRows(RawLines(body)).Ok?
    ensures |LeadersFrame(yearText, tbl, body).value.value| == |ReadRows(RawLines(body)).value|
  {
  }

  /** A body of plain lines gives one output row per line. */
  lemma PlainLeaderRowCount(yearText: string, tbl: string, body: seq<string>)
    requires forall k :: 0 <= k < |body| ==> Plain(body[k])
    requires PyInt(yearText).Some? && tbl in Tables
    ensures LeadersFrame(yearText, tbl, body).Ok?
    ensures |LeadersFrame(yearText, tbl, body).value.value| == |body|
  {
    forall k | 0 <= k < |body|
      ensures RawLines(body)[k] == body[k]
    {
      assert '\n' !in body[k];
      ReplaceAbsent(body[k], '\n', ' ');
    }
    assert RawLines(body) == body;
    ReadPlainLines(body);
  }

  /** The player tables hold a row's first four fields, the team tables its
      first five, with "" for missing fields and nothing of the rest. */
  lemma LeaderRowFields(year: int, tbl: string, r: Row)
    requires tbl in Tables
    ensures !TableEntry(tbl).1 ==>
      LeaderRow(year, false, PadTo5(r)) == PlayerRow(year, Field(r, 0), Field(r, 1), Field(r, 2), Field(r, 3))
    ensures TableEntry(tbl).1 ==>
      LeaderRow(year, true, PadTo5(r)) == TeamRow(year, Field(r, 0), Field(r, 1), Field(r, 2), Field(r, 3), Field(r, 4))
  {
    PadTo5Fields(r);
  }

  // ------------------------------------------------------------------
  // One file

  /** What one file contributes: its table number and its frame (None when
      no frame is added), or the error that stops the script. */
  function FileFrame(f: RawFile): (r: Result<(string, Option<FrameRows>), FileError>)
    ensures r.Ok? && r.value.1.Some? ==> r.value.0 in Tables
    ensures r.Err? && r.error == MissingTableNumber <==> StemFields(f.stem).None?
  {
    match StemFields(f.stem)
    case None => Err(MissingTableNumber)
    case Some((yearText, tbl)) =>
      match TableFrame(yearText, tbl, f.lines)
      case Err(e) => Err(e)
      case Ok(frame) => Ok((tbl, frame))
  }

  /** The frame of a file whose name gave this year text and table number. */
  function TableFrame(yearText: string, tbl: string, lines: seq<string>): (r: Result<Option<FrameRows>, FileError>)
    ensures r.Ok? && r.value.Some? ==> tbl in Tables
    ensures r.Err? ==> r.error != MissingTableNumber
  {
    var body := Body(DropJunk(lines));
    if tbl == "3" then StandingsFrame(yearText, body) else LeadersFrame(yearText, tbl, body)
  }

  /** Every row of a file's frame carries the year of its name. */
  lemma FrameYear(f: RawFile)
    requires FileFrame(f).Ok? && FileFrame(f).value.1.Some?
    ensures forall k :: 0 <= k < |FileFrame(f).value.1.value| ==>
      PyInt(StemFields(f.stem).value.0) == Some(FileFrame(f).value.1.value[k].year)
  {
    var (yearText, tbl) := StemFields(f.stem).value;
    var frame := FileFrame(f).value.1;
    assert frame == TableFrame(yearText, tbl, f.lines).value;
    var body := Body(DropJunk(f.lines));
    if tbl == "3" {
      assert frame == StandingsFrame(yearText, body).value;
      StandingsFrameYear(yearText, body);
    } else {
      assert frame == LeadersFrame(yearText, tbl, body).value;
      LeadersFrameYear(yearText, tbl, body);
    }
  }

  lemma StandingsFrameYear(yearText: string, body: seq<string>)
    requires StandingsFrame(yearText, body).Ok? && StandingsFrame(yearText, body).value.Some?
    ensures forall k :: 0 <= k < |StandingsFrame(yearText, body).value.value| ==>
      PyInt(yearText) == Some(StandingsFrame(yearText, body).value.value[k].year)
  {
  }

  lemma LeadersFrameYear(yearText: string, tbl: string, body: seq<string>)
    requires LeadersFrame(yearText, tbl, body).Ok?
    ensures forall k :: 0 <= k < |LeadersFrame(yearText, tbl, body).value.value| ==>
      PyInt(yearText) == Some(LeadersFrame(yearText, tbl, body).value.value[k].year)
  {
  }

  // ------------------------------------------------------------------
  // The frames of all files

  const NoFrames: map<string, seq<FrameRows>> := map t | t in Tables :: []

  /** The frame lists after a file's frame, if any, is appended. */
  function AddFrame(m: map<string, seq<FrameRows>>, tbl: string, frame: Option<FrameRows>): (r: map<string, seq<FrameRows>>)
    requires m.Keys == Tables
    requires frame.Some? ==> tbl in Tables
    ensures r.Keys == Tables
  {
    if frame.None? then m else m[tbl := m[tbl] + [frame.value]]
  }

  /** What one file yields. */
  type FileResult = Result<(string, Option<FrameRows>), FileError>

  /** A result that carries a frame names one of the five tables. */
  predicate Tabled(r: FileResult)
  {
    r.Ok? && r.value.1.Some? ==> r.value.0 in Tables
  }

  /** The result of each file, in processing order. */
  function Results(files: seq<RawFile>): (r: seq<FileResult>)
    ensures |r| == |files|
    ensures forall k :: 0 <= k < |r| ==> Tabled(r[k])
  {
    if files == [] then [] else [FileFrame(files[0])] + Results(files[1..])
  }

  lemma {:induction false} ResultsAt(files: seq<RawFile>, i: nat)
    requires i < |files|
    ensures Results(files)[i] == FileFrame(files[i])
  {
    if i > 0 {
      ResultsAt(files[1..], i - 1);
    }
  }

  /** The frame lists after the results are added in order, or the first error. */
  function Gather(m: map<string, seq<FrameRows>>, rs: seq<FileResult>): (r: Result<map<string, seq<FrameRows>>, FileError>)
    requires m.Keys == Tables
    requires forall k :: 0 <= k < |rs| ==> Tabled(rs[k])
    ensures r.Ok? ==> r.value.Keys == Tables
    decreases |rs|
  {
    if rs == [] then Ok(m)
    else
      assert Tabled(rs[0]);
      assert forall k :: 0 <= k < |rs[1..]| ==> rs[1..][k] == rs[k + 1];
      match rs[0]
      case Err(e) => Err(e)
      case Ok((tbl, frame)) => Gather(AddFrame(m, tbl, frame), rs[1..])
  }

  function Concat(frames: seq<FrameRows>): FrameRows
  {
    if frames == [] then [] else frames[0] + Concat(frames[1..])
  }

  /** The files written: one per table that has frames, holding the
      concatenation of its frames. */
  function Written(m: map<string, seq<FrameRows>>): map<string, FrameRows>
    requires m.Keys == Tables
  {
    map t | t in Tables && m[t] != [] :: Concat(m[t])
  }

  function RunSpec(files: seq<RawFile>): Result<map<string, FrameRows>, FileError>
  {
    match Gather(NoFrames, Results(files))
    case Err(e) => Err(e)
    case Ok(m) => Ok(Written(m))
  }

  /** Reference definition: one table's frames, result after result. */
  function TableFrames(rs: seq<FileResult>, t: string): seq<FrameRows>
  {
    if rs == [] then []
    else
      (match rs[0]
       case Ok((tbl, Some(frame))) => if tbl == t then [frame] else []
       case _ => [])
      + TableFrames(rs[1..], t)
  }

  predicate AllOk(rs: seq<FileResult>)
  {
    forall i :: 0 <= i < |rs| ==> rs[i].Ok?
  }

  /** Adding a frame extends its own table's list and no other. */
  lemma AddFrameTable(m: map<string, seq<FrameRows>>, tbl: string, frame: Option<FrameRows>, t: string)
    requires m.Keys == Tables && t in Tables
    requires frame.Some? ==> tbl in Tables
    ensures AddFrame(m, tbl, frame)[t] == m[t] + (if frame.Some? && tbl == t then [frame.value] else [])
  {
    EmptyUnits(m[t]);
  }

  lemma {:induction false} GatherTables(m: map<string, seq<FrameRows>>, rs: seq<FileResult>)
    requires m.Keys == Tables
    requires forall k :: 0 <= k < |rs| ==> Tabled(rs[k])
    ensures Gather(m, rs).Ok? <==> AllOk(rs)
    ensures Gather(m, rs).Ok? ==>
      forall t :: t in Tables ==> Gather(m, rs).value[t] == m[t] + TableFrames(rs, t)
    decreases |rs|
  {
    if rs != [] {
      assert forall i :: 1 <= i < |rs| ==> rs[1..][i - 1] == rs[i];
      match rs[0]
      case Err(e) =>
      case Ok((tbl, frame)) =>
        var m' := AddFrame(m, tbl, frame);
        GatherTables(m', rs[1..]);
        assert Gather(m, rs) == Gather(m', rs[1..]);
        if Gather(m, rs).Ok? {
          var out := Gather(m', rs[1..]).value;
          forall t | t in Tables
            ensures out[t] == m[t] + TableFrames(rs, t)
          {
            var own := if frame.Some? && tbl == t then [frame.value] else [];
            assert TableFrames(rs, t) == own + TableFrames(rs[1..], t);
            AddFrameTable(m, tbl, frame, t);
            assert out[t] == m'[t] + TableFrames(rs[1..], t);
            ConcatAssoc(m[t], own, TableFrames(rs[1..], t));
          }
        }
    }
  }

  /** Either the script stops at a failing file, or each table with frames
      is written as the concatenation of its files' frames in processing
      order, and a table without frames is not written. */
  lemma RunWritesConcatenation(files: seq<RawFile>)
    ensures RunSpec(files).Ok? <==> forall i :: 0 <= i < |files| ==> FileFrame(files[i]).Ok?
    ensures RunSpec(files).Ok? ==>
      forall t :: t in RunSpec(files).value <==> t in Tables && TableFrames(Results(files), t) != []
    ensures RunSpec(files).Ok? ==>
      forall t :: t in RunSpec(files).value ==> RunSpec(files).value[t] == Concat(TableFrames(Results(files), t))
  {
    var rs := Results(files);
    GatherTables(NoFrames, rs);
    forall i | 0 <= i < |files|
      ensures rs[i] == FileFrame(files[i])
    {
      ResultsAt(files, i);
    }
    if AllOk(rs) {
      var m := Gather(NoFrames, rs).value;
      assert RunSpec(files).value == Written(m);
      forall t | t in Tables
        ensures m[t] == TableFrames(rs, t)
      {
        assert NoFrames[t] == [];
      }
    }
  }

  lemma {:induction false} GatherFirstError(m: map<string, seq<FrameRows>>, rs: seq<FileResult>, i: nat)
    requires m.Keys == Tables
    requires forall k :: 0 <= k < |rs| ==> Tabled(rs[k])
    requires i < |rs| && rs[i].Err?
    requires forall j :: 0 <= j < i ==> rs[j].Ok?
    ensures Gather(m, rs) == Err(rs[i].error)
    decreases i
  {
    if i > 0 {
      match rs[0]
      case Ok((tbl, frame)) =>
        assert rs[1..][i - 1] == rs[i];
        assert forall j :: 0 <= j < i - 1 ==> rs[1..][j] == rs[j + 1];
        GatherFirstError(AddFrame(m, tbl, frame), rs[1..], i - 1);
    }
  }

  /** The error the script stops with is that of the first failing file. */
  lemma RunFirstError(files: seq<RawFile>, i: nat)
    requires i < |files| && FileFrame(files[i]).Err?
    requires forall j :: 0 <= j < i ==> FileFrame(files[j]).Ok?
    ensures RunSpec(files) == Err(FileFrame(files[i]).error)
  {
    forall j | 0 <= j <= i
      ensures Results(files)[j] == FileFrame(files[j])
    {
      ResultsAt(files, j);
    }
    GatherFirstError(NoFrames, Results(files), i);
  }

  /** The `frames` dictionary: a list of frames per table number. */
  class FrameStore {
    var frames: map<string, seq<FrameRows>>

    ghost predicate Valid()
      reads this
    {
      frames.Keys == Tables
    }

    constructor()
      ensures Valid() && frames == NoFrames
    {
      frames := NoFrames;
    }

    /** The standings branch: the records of the accepted lines, converting
        the year at each, and a frame only when there are records. */
    method StandingRecords(yearText: string, body: seq<string>) returns (res: Result<Option<FrameRows>, FileError>)
      ensures res == StandingsFrame(yearText, body)
    {
      var records: FrameRows := [];
      var i := 0;
      assert body[..i] == [] && AcceptedParts([]) == [];
      assert ShortStandings(YearOr(yearText), []) == [];
      while i < |body|
        invariant 0 <= i <= |body|
        invariant AcceptedParts(body[..i]) == [] || PyInt(yearText).Some?
        invariant records == ShortStandings(YearOr(yearText), AcceptedParts(body[..i]))
      {
        var parts := Parts(body[i]);
        ghost var before := AcceptedParts(body[..i]);
        AcceptedPartsSnoc(body, i);
        if !(|parts| < 4 || parts[0] == "Payroll") {
          var year := PyInt(yearText);
          if year.None? {
            AcceptedAt(body, i);
            return Err(BadYear);
          }
          assert AcceptedParts(body[..i + 1]) == before + [parts];
          ShortStandingsSnoc(year.value, before, parts);
          records := records + [ShortStandingOf(year.value, parts)];
        } else {
          assert AcceptedParts(body[..i + 1]) == before;
        }
        assert AcceptedParts(body[..i + 1]) == [] || PyInt(yearText).Some?;
        assert records == ShortStandings(YearOr(yearText), AcceptedParts(body[..i + 1]));
        i := i + 1;
      }
      assert body[..i] == body;
      if records != [] {
        return Ok(Some(records));
      }
      return Ok(None);
    }

    /** One pass of the file loop: the file's frame, if any, is appended to
        its table's list; a failing file leaves the lists unchanged. */
    method AddFile(f: RawFile) returns (err: Option<FileError>)
      requires Valid()
      modifies this
      ensures Valid()
      ensures FileFrame(f).Err? ==> err == Some(FileFrame(f).error) && frames == old(frames)
      ensures FileFrame(f).Ok? ==>
        err == None && frames == AddFrame(old(frames), FileFrame(f).value.0, FileFrame(f).value.1)
    {
      var segs := Split(f.stem, '_');
      if |segs| < 3 {
        return Some(MissingTableNumber);
      }
      var yearText, tblNo := segs[0], segs[2];
      var body := Body(DropJunk(f.lines));
      var res;
      if tblNo == "3" {
        res := StandingRecords(yearText, body);
      } else {
        res := LeadersFrame(yearText, tblNo, body);
      }
      assert res == TableFrame(yearText, tblNo, f.lines);
      if res.Err? {
        return Some(res.error);
      }
      if res.value.Some? {
        frames := frames[tblNo := frames[tblNo] + [res.value.value]];
      }
      return None;
    }
  }

  /** The whole script: every file in order, stopping at the first error,
      then one output per table that has frames. */
  method Run(files: seq<RawFile>) returns (res: Result<map<string, FrameRows>, FileError>)
    ensures res == RunSpec(files)
  {
    var store := new FrameStore();
    var i := 0;
    while i < |files|
      invariant 0 <= i <= |files|
      invariant store.Valid()
      invariant Gather(store.frames, Results(files[i..])) == Gather(NoFrames, Results(files))
    {
      assert files[i..][0] == files[i] && files[i..][1..] == files[i + 1..];
      assert Results(files[i..]) == [FileFrame(files[i])] + Results(files[i + 1..]);
      var err := store.AddFile(files[i]);
      if err.Some? {
        return Err(err.value);
      }
      i := i + 1;
    }
    return Ok(Written(store.frames));
  }
}
