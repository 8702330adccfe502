/** The cleaning pass of 3.National_League_Cleaned/clean_nl_csvs.py over one
    raw table file: the table number and year come from the file name, the
    number picks a logical table name, caption-echo and empty rows are
    removed, a Year column is inserted first, and every text column that
    looks numeric is converted with `tidy_numeric`. */
module CleanCsvs {
  import opened Text
  import opened Decimal
  import opened Frames

  // ------------------------------------------------------------------
  // tidy_numeric, one cell at a time

  /** The characters `[^0-9.+-]` does not remove. */
  predicate NumericChar(c: char) { IsDigit(c) || c == '.' || c == '+' || c == '-' }

  /** `str.replace("[^0-9.+-]", "", regex=True)`. */
  function KeepNumericChars(s: string): (r: string)
    ensures |r| <= |s|
    ensures forall k :: 0 <= k < |r| ==> NumericChar(r[k])
  {
    if s == [] then ""
    else (if NumericChar(s[0]) then [s[0]] else "") + KeepNumericChars(s[1..])
  }

  /** On one character the filter keeps exactly the characters of `[0-9.+-]`;
      with KeepNumericCharsAppend this fixes the filter on every text. */
  lemma KeepNumericCharsOne(c: char)
    ensures KeepNumericChars([c]) == (if NumericChar(c) then [c] else "")
  {
    assert [c][1..] == [];
  }

  /** `tidy_numeric` on the text of one cell: the character filter, comma
      removal, strip, the placeholders "", "-" and "—" as missing, then
      `pd.to_numeric(errors="coerce")`. */
  function TidyText(text: string): Option<Dec>
  {
    var cleaned := Strip(RemoveChar(KeepNumericChars(text), ','));
    if cleaned == "" || cleaned == "-" || cleaned == "—" then None
    else ParseNumber(cleaned)
  }

  /** `tidy_numeric` on one cell of a text column, after `astype(str)`
      (a missing cell reads as "nan"). */
  function TidyNumeric(cell: Cell): Option<Dec>
  {
    TidyText(CellText(cell))
  }

  function TidyCell(cell: Cell): Cell
  {
    match TidyNumeric(cell)
    case None => NA
    case Some(d) => Num(d)
  }

  lemma {:induction false} KeepNumericCharsFixed(s: string)
    requires forall k :: 0 <= k < |s| ==> NumericChar(s[k])
    ensures KeepNumericChars(s) == s
  {
    if s != [] {
      assert forall k :: 0 <= k < |s[1..]| ==> s[1..][k] == s[k + 1];
      KeepNumericCharsFixed(s[1..]);
      assert KeepNumericChars(s) == [s[0]] + KeepNumericChars(s[1..]);
      HeadTail(s);
    }
  }

  /** The character filter is idempotent. */
  lemma KeepNumericCharsIdempotent(s: string)
    ensures KeepNumericChars(KeepNumericChars(s)) == KeepNumericChars(s)
  {
    KeepNumericCharsFixed(KeepNumericChars(s));
  }

  lemma ParsePlaceholders()
    ensures ParseNumber("") == None && ParseNumber("-") == None
  {
    assert LeadingDigits("") == "";
    var m := "-";
    assert m[1..] == "";
  }

  lemma {:induction false} NoCommaNoSpace(kept: string)
    requires forall k :: 0 <= k < |kept| ==> NumericChar(kept[k])
    ensures ',' !in kept && kept != "—"
    ensures forall k :: 0 <= k < |kept| ==> !IsSpace(kept[k])
  {
    forall k | 0 <= k < |kept| ensures kept[k] != ',' && !IsSpace(kept[k]) {
      assert NumericChar(kept[k]);
    }
    if |kept| == 1 {
      assert NumericChar(kept[0]);
    }
  }

  /** After the filter no step but the parse matters: the comma removal,
      the strip and the placeholder mapping change nothing, so
      `tidy_numeric` is `to_numeric` of the filtered text. */
  lemma TidyIsParseOfFiltered(text: string)
    ensures TidyText(text) == ParseNumber(KeepNumericChars(text))
  {
    var kept := KeepNumericChars(text);
    FilteredIsClean(kept);
    ParsePlaceholders();
  }

  lemma FilteredIsClean(kept: string)
    requires forall k :: 0 <= k < |kept| ==> NumericChar(kept[k])
    ensures Strip(RemoveChar(kept, ',')) == kept && kept != "—"
  {
    NoCommaNoSpace(kept);
    RemoveAbsentChar(kept, ',');
    StripNoSpace(kept);
  }

  /** Normalising is idempotent: the plain rendering of a cleaned number
      cleans back to the same number. */
  lemma TidyIdempotent(cell: Cell)
    requires TidyNumeric(cell).Some?
    ensures TidyNumeric(Str(Render(TidyNumeric(cell).value))) == TidyNumeric(cell)
  {
    var d := TidyNumeric(cell).value;
    RenderChars(d);
    forall k | 0 <= k < |Render(d)| ensures NumericChar(Render(d)[k]) {
    }
    KeepNumericCharsFixed(Render(d));
    TidyIsParseOfFiltered(Render(d));
    ParseRender(d);
  }

  lemma {:induction false} KeepNumericCharsAppend(a: string, b: string)
    ensures KeepNumericChars(a + b) == KeepNumericChars(a) + KeepNumericChars(b)
  {
    if a == [] {
      EmptyUnits(b);
    } else {
      var h := if NumericChar(a[0]) then [a[0]] else "";
      assert (a + b)[0] == a[0] && (a + b)[1..] == a[1..] + b;
      assert KeepNumericChars(a + b) == h + KeepNumericChars(a[1..] + b);
      KeepNumericCharsAppend(a[1..], b);
      assert KeepNumericChars(a) == h + KeepNumericChars(a[1..]);
      ConcatAssoc(h, KeepNumericChars(a[1..]), KeepNumericChars(b));
    }
  }

  lemma DigitsAreNumeric(s: string)
    requires AllDigits(s)
    ensures KeepNumericChars(s) == s
  {
    KeepNumericCharsFixed(s);
  }

  /** Thousands separators are dropped: "1,544" cleans to 1544. */
  lemma TidyThousands(a: string, b: string)
    requires a != [] && AllDigits(a) && AllDigits(b)
    ensures TidyText(a + "," + b) == Some(Dec(DigitsValue(a + b), 0))
  {
    ThousandsFiltered(a, b);
    TidyIsParseOfFiltered(a + "," + b);
    DigitsValueConcat(a, b);
    ParseUnsignedInteger(a + b);
    assert (a + b)[0] == a[0];
  }

  lemma ThousandsFiltered(a: string, b: string)
    requires AllDigits(a) && AllDigits(b)
    ensures KeepNumericChars(a + "," + b) == a + b
  {
    KeepNumericCharsAppend(a + ",", b);
    KeepNumericCharsAppend(a, ",");
    DigitsAreNumeric(a);
    DigitsAreNumeric(b);
    assert KeepNumericChars(",") == "";
    EmptyUnits(a);
  }

  lemma ParseFractionOnly(fp: string)
    requires fp != [] && AllDigits(fp)
    ensures ParseNumber("." + fp) == Some(Dec(DigitsValue(fp), |fp|))
  {
    ParseUnsignedDot(fp);
    assert ("." + fp)[0] == '.';
  }

  lemma ParseUnsignedDot(fp: string)
    requires fp != [] && AllDigits(fp)
    ensures ParseUnsigned("." + fp) == Some((DigitsValue(fp), |fp|))
  {
    var body := "." + fp;
    ConsParts('.', fp);
    assert LeadingDigits(body) == "";
    assert body[0..] == body;
    LeadingDigitsAll(fp);
    EmptyUnits(fp);
  }

  /** Averages written without the leading zero keep their value:
      ".362" cleans to 362 thousandths. */
  lemma TidyAverage(fp: string)
    requires fp != [] && AllDigits(fp)
    ensures TidyText("." + fp) == Some(Dec(DigitsValue(fp), |fp|))
  {
    KeepNumericCharsAppend(".", fp);
    DigitsAreNumeric(fp);
    assert KeepNumericChars(".") == ".";
    TidyIsParseOfFiltered("." + fp);
    ParseFractionOnly(fp);
  }

  /** The dash placeholder and a missing cell stay missing. */
  lemma TidyMissing()
    ensures TidyText("—") == None
    ensures TidyNumeric(NA) == None
  {
    TidyIsParseOfFiltered("—");
    assert KeepNumericChars("—") == "";
    TidyIsParseOfFiltered("nan");
    assert KeepNumericChars("nan") == "";
    ParsePlaceholders();
  }

  lemma ParseTwoPoints(a: string, b: string, c: string)
    requires AllDigits(a) && AllDigits(b) && AllDigits(c)
    ensures ParseNumber(a + "." + b + "." + c) == None
  {
    var s := a + "." + b + "." + c;
    if a == [] {
      assert s[0] == '.';
      assert LeadingDigits(s) == "";
    } else {
      assert s[..|a|] == a && s[|a|] == '.';
      LeadingDigitsRun(s, |a|);
    }
    var rest := s[|a|..];
    assert rest == "." + b + "." + c;
    var t := rest[1..];
    assert t == b + "." + c;
    if b == [] {
      assert t[0] == '.';
      assert LeadingDigits(t) == "";
    } else {
      assert t[..|b|] == b && t[|b|] == '.';
      LeadingDigitsRun(t, |b|);
    }
    assert ParseUnsigned(s) == None;
    assert s[0] != '-' && s[0] != '+' by {
      assert IsDigit(s[0]) || s[0] == '.';
    }
  }

  lemma KeepTwoPoints(a: string, b: string, c: string)
    requires AllDigits(a) && AllDigits(b) && AllDigits(c)
    ensures KeepNumericChars(a + "." + b + "." + c) == a + "." + b + "." + c
  {
    KeepNumericCharsAppend(a + "." + b + ".", c);
    KeepNumericCharsAppend(a + "." + b, ".");
    KeepNumericCharsAppend(a + ".", b);
    KeepNumericCharsAppend(a, ".");
    DigitsAreNumeric(a);
    DigitsAreNumeric(b);
    DigitsAreNumeric(c);
    assert KeepNumericChars(".") == ".";
  }

  /** Malformed numbers become missing instead of raising: a second
      decimal point, or a sign followed by another sign. */
  lemma TidyTwoPoints(a: string, b: string, c: string)
    requires AllDigits(a) && AllDigits(b) && AllDigits(c)
    ensures TidyText(a + "." + b + "." + c) == None
  {
    KeepTwoPoints(a, b, c);
    TidyIsParseOfFiltered(a + "." + b + "." + c);
    ParseTwoPoints(a, b, c);
  }

  lemma TidyTwoSigns(x: string)
    ensures TidyText("+-" + x) == None
  {
    var s := "+-" + x;
    KeepNumericCharsAppend("+-", x);
    var kept := KeepNumericChars(s);
    assert KeepNumericChars("+-") == "+-";
    TidyIsParseOfFiltered(s);
    assert kept[0] == '+' && kept[1..][0] == '-';
    assert LeadingDigits(kept[1..]) == "";
  }

  // ------------------------------------------------------------------
  // Table number to logical name

  /** `TABLE_MAP.get(tbl_no, f"table_{tbl_no}")`. */
  function LogicalName(tbl: string): string
  {
    if tbl == "1" then "player_hitting_leaders"
    else if tbl == "2" then "player_pitching_leaders"
    else if tbl == "3" then "team_standings"
    else if tbl == "4" then "team_hitting_leaders"
    else if tbl == "5" then "team_pitching_leaders"
    else "table_" + tbl
  }

  /** Distinct table numbers always get distinct names: "1" to "5" get the
      five logical names and every other number its own `table_<n>` name,
      which never collides with them. */
  lemma LogicalNameInjective(a: string, b: string)
    ensures LogicalName(a) == LogicalName(b) ==> a == b
  {
    var known := {"1", "2", "3", "4", "5"};
    if a !in known && b !in known {
      FallbackSecond(a);
      FallbackSecond(b);
      PrefixCancel("table_", a, b);
    } else if a !in known || b !in known {
      var u, v := if a in known then b else a, if a in known then a else b;
      FallbackSecond(u);
      KnownSecond(v);
    }
  }

  lemma FallbackSecond(tbl: string)
    requires tbl !in {"1", "2", "3", "4", "5"}
    ensures LogicalName(tbl) == "table_" + tbl && LogicalName(tbl)[1] == 'a'
  {
  }

  lemma KnownSecond(tbl: string)
    requires tbl in {"1", "2", "3", "4", "5"}
    ensures LogicalName(tbl)[1] in {'l', 'e'}
  {
  }

  // ------------------------------------------------------------------
  // The file name: re.search(r"(\d{4})_Table_(\d+)\.csv", path)

  /** The pattern matched at position i, giving the two groups. */
  function MatchAt(path: string, i: nat): (r: Option<(string, string)>)
    ensures r.Some? ==> |r.value.0| == 4 && AllDigits(r.value.0)
    ensures r.Some? ==> r.value.1 != [] && AllDigits(r.value.1)
  {
    if i + 11 > |path| then None
    else
      var year := path[i..i + 4];
      var tail := path[i + 11..];
      var num := LeadingDigits(tail);
      if AllDigits(year) && path[i + 4..i + 11] == "_Table_" && num != []
         && StartsWith(tail[|num|..], ".csv")
      then Some((year, num))
      else None
  }

  /** The leftmost match at or after position i. */
  function SearchFrom(path: string, i: nat): (r: Option<(string, string)>)
    ensures r.Some? ==> |r.value.0| == 4 && AllDigits(r.value.0)
    decreases |path| - i
  {
    if i > |path| then None
    else if MatchAt(path, i).Some? then MatchAt(path, i)
    else SearchFrom(path, i + 1)
  }

  /** The groups (year, table number), or None when the name does not
      match and the script fails on `.groups()`. */
  function FileNameGroups(path: string): Option<(string, string)>
  {
    SearchFrom(path, 0)
  }

  /** The search finds the leftmost position where the pattern matches. */
  lemma {:induction false} SearchLeftmost(path: string, i: nat, j: nat)
    requires i <= j <= |path|
    requires MatchAt(path, j).Some?
    requires forall k :: i <= k < j ==> MatchAt(path, k).None?
    ensures SearchFrom(path, i) == MatchAt(path, j)
    decreases j - i
  {
    if i < j {
      SearchLeftmost(path, i + 1, j);
    }
  }

  /** No position matches exactly when the search gives None. */
  lemma {:induction false} SearchNone(path: string, i: nat)
    ensures SearchFrom(path, i).None? <==> forall k :: i <= k <= |path| ==> MatchAt(path, k).None?
    decreases |path| - i
  {
    if i <= |path| {
      SearchNone(path, i + 1);
      if MatchAt(path, i).None? {
        assert (forall k :: i <= k <= |path| ==> MatchAt(path, k).None?)
          <==> (forall k :: i + 1 <= k <= |path| ==> MatchAt(path, k).None?);
      }
    }
  }

  lemma FileNameExample(path: string)
    requires path == "National_League/" + "1901_Table_3.csv"
    ensures FileNameGroups(path) == Some(("1901", "3"))
  {
    ExampleMatchAt(path);
    ExampleNoEarlierMatch(path);
    SearchLeftmost(path, 0, 16);
  }

  lemma ExampleMatchAt(path: string)
    requires path == "National_League/" + "1901_Table_3.csv"
    ensures MatchAt(path, 16) == Some(("1901", "3"))
  {
    ExampleSlices(path);
    ExampleTail("3.csv");
  }

  lemma ExampleSlices(path: string)
    requires path == "National_League/" + "1901_Table_3.csv"
    ensures |path| == 32
    ensures path[16..20] == "1901" && path[20..27] == "_Table_" && path[27..] == "3.csv"
  {
  }

  lemma ExampleTail(tail: string)
    requires tail == "3.csv"
    ensures LeadingDigits(tail) == "3" && StartsWith(tail[1..], ".csv")
  {
    LeadingDigitsRun(tail, 1);
    assert tail[..1] == "3" && tail[1..] == ".csv" && ".csv"[..4] == ".csv";
  }

  lemma ExampleNoEarlierMatch(path: string)
    requires path == "National_League/" + "1901_Table_3.csv"
    ensures forall k :: 0 <= k < 16 ==> MatchAt(path, k).None?
  {
    forall k | 0 <= k < 16 ensures MatchAt(path, k).None? {
      assert !IsDigit(path[k]);
      MatchNeedsDigit(path, k);
    }
  }

  lemma MatchNeedsDigit(path: string, k: nat)
    requires k < |path|
    ensures MatchAt(path, k).Some? ==> IsDigit(path[k])
  {
    if MatchAt(path, k).Some? {
      assert path[k..k + 4][0] == path[k];
    }
  }

  // ------------------------------------------------------------------
  // Row filters

  predicate AllMissing(row: seq<Cell>) { forall j :: 0 <= j < |row| ==> row[j] == NA }

  /** Every cell equals its column's name (the table's header repeated). */
  predicate HeaderEcho(columns: seq<Column>, row: seq<Cell>)
  {
    |row| == |columns| && forall j :: 0 <= j < |row| ==> row[j] == Str(columns[j].name)
  }

  /** `df.dropna(how="all")`. */
  function DropAllMissing(rows: seq<seq<Cell>>): (r: seq<seq<Cell>>)
    ensures |r| <= |rows|
  {
    if rows == [] then []
    else (if AllMissing(rows[0]) then [] else [rows[0]]) + DropAllMissing(rows[1..])
  }

  /** `df[~df.eq(df.columns).all(axis=1)]`. */
  function DropHeaderEchoes(columns: seq<Column>, rows: seq<seq<Cell>>): (r: seq<seq<Cell>>)
    ensures |r| <= |rows|
  {
    if rows == [] then []
    else (if HeaderEcho(columns, rows[0]) then [] else [rows[0]]) + DropHeaderEchoes(columns, rows[1..])
  }

  /** An order-preserving one-pass reference: keep a row unless it is all
      missing or echoes the header. */
  function DataRows(columns: seq<Column>, rows: seq<seq<Cell>>): seq<seq<Cell>>
  {
    if rows == [] then []
    else
      (if AllMissing(rows[0]) || HeaderEcho(columns, rows[0]) then [] else [rows[0]])
      + DataRows(columns, rows[1..])
  }

  /** The two filters in sequence keep exactly the data rows, in order. */
  lemma {:induction false} FiltersKeepDataRows(columns: seq<Column>, rows: seq<seq<Cell>>)
    ensures DropHeaderEchoes(columns, DropAllMissing(rows)) == DataRows(columns, rows)
  {
    if rows != [] {
      FiltersKeepDataRows(columns, rows[1..]);
      var head := if AllMissing(rows[0]) then [] else [rows[0]];
      DropHeaderEchoesAppend(columns, head, DropAllMissing(rows[1..]));
    }
  }

  lemma {:induction false} DropHeaderEchoesAppend(columns: seq<Column>, a: seq<seq<Cell>>, b: seq<seq<Cell>>)
    ensures DropHeaderEchoes(columns, a + b) == DropHeaderEchoes(columns, a) + DropHeaderEchoes(columns, b)
  {
    if a == [] {
      assert a + b == b;
    } else {
      assert (a + b)[1..] == a[1..] + b;
      DropHeaderEchoesAppend(columns, a[1..], b);
    }
  }

  /** A row survives exactly when it is not all missing and not a header echo. */
  lemma {:induction false} DataRowsMembers(columns: seq<Column>, rows: seq<seq<Cell>>, row: seq<Cell>)
    ensures row in DataRows(columns, rows) <==> row in rows && !AllMissing(row) && !HeaderEcho(columns, row)
  {
    if rows != [] {
      DataRowsMembers(columns, rows[1..], row);
      assert rows == [rows[0]] + rows[1..];
    }
  }

  // ------------------------------------------------------------------
  // Which columns are converted

  /** ASCII lower-casing, as `str.lower()` does on ASCII names. */
  function Lower(s: string): (r: string)
    ensures |r| == |s|
  {
    if s == [] then ""
    else [if 'A' <= s[0] <= 'Z' then (s[0] as int + 32) as char else s[0]] + Lower(s[1..])
  }

  const NumericNames: set<string> :=
    {"wins", "losses", "gb", "#", "payroll", "rbi", "home runs", "doubles", "triples", "runs"}

  predicate HasDigit(s: string) { exists k :: 0 <= k < |s| && IsDigit(s[k]) }

  /** `df[col].str.contains(r"\d").any()`: some string cell has a digit. */
  predicate SomeCellHasDigit(rows: seq<seq<Cell>>, j: nat)
  {
    exists i :: 0 <= i < |rows| && j < |rows[i]| && rows[i][j].Str? && HasDigit(rows[i][j].s)
  }

  /** A text column is converted when its lower-cased name is one of the
      fixed numeric names or some cell holds a digit. */
  predicate Converts(f: Frame, j: nat)
    requires j < |f.columns|
  {
    f.columns[j].isText && (Lower(f.columns[j].name) in NumericNames || SomeCellHasDigit(f.rows, j))
  }

  /** `df[col] = tidy_numeric(df[col])`: the column's cells cleaned and the
      column numeric from then on. */
  function ConvertColumn(f: Frame, j: nat): (g: Frame)
    requires WellFormed(f) && j < |f.columns|
    ensures WellFormed(g)
  {
    Frame(f.columns[j := Column(f.columns[j].name, false)],
          seq(|f.rows|, i requires 0 <= i < |f.rows| => f.rows[i][j := TidyCell(f.rows[i][j])]))
  }

  // ------------------------------------------------------------------
  // One file

  datatype CleanError = NameMismatch | YearExists

  predicate HasColumn(columns: seq<Column>, name: string)
  {
    exists j :: 0 <= j < |columns| && columns[j].name == name
  }

  /** The frame after the row filters and the Year insertion, before any
      column is converted. */
  function Prepared(year: string, df: Frame): (g: Frame)
    requires WellFormed(df) && |year| == 4 && AllDigits(year)
    ensures WellFormed(g)
  {
    var rows := DataRows(df.columns, df.rows);
    DataRowsWellFormed(df.columns, df.rows);
    Frame([Column("Year", false)] + df.columns,
          seq(|rows|, i requires 0 <= i < |rows| => [Num(Dec(DigitsValue(year), 0))] + rows[i]))
  }

  lemma {:induction false} DataRowsWellFormed(columns: seq<Column>, rows: seq<seq<Cell>>)
    requires forall i :: 0 <= i < |rows| ==> |rows[i]| == |columns|
    ensures forall i :: 0 <= i < |DataRows(columns, rows)| ==> |DataRows(columns, rows)[i]| == |columns|
  {
    if rows != [] {
      DataRowsWellFormed(columns, rows[1..]);
    }
  }

  /** The prepared frame with the columns before j converted where they
      qualify. */
  function Partial(pre: Frame, j: nat): (g: Frame)
    requires WellFormed(pre)
    ensures WellFormed(g) && |g.columns| == |pre.columns| && |g.rows| == |pre.rows|
  {
    Frame(seq(|pre.columns|, k requires 0 <= k < |pre.columns| =>
                if k < j && Converts(pre, k) then Column(pre.columns[k].name, false) else pre.columns[k]),
          seq(|pre.rows|, i requires 0 <= i < |pre.rows| =>
                seq(|pre.columns|, k requires 0 <= k < |pre.columns| =>
                  if k < j && Converts(pre, k) then TidyCell(pre.rows[i][k]) else pre.rows[i][k])))
  }

  /** The frame once every qualifying column is converted. */
  function Cleaned(pre: Frame): Frame
    requires WellFormed(pre)
  {
    Partial(pre, |pre.columns|)
  }

  lemma PartialStart(pre: Frame)
    requires WellFormed(pre)
    ensures Partial(pre, 0) == pre
  {
    var g := Partial(pre, 0);
    assert g.columns == pre.columns;
    forall i | 0 <= i < |pre.rows| ensures g.rows[i] == pre.rows[i] {
    }
  }

  /** The decision on column j and its cells do not depend on the columns
      converted before it. */
  lemma PartialColumn(pre: Frame, j: nat)
    requires WellFormed(pre) && j < |pre.columns|
    ensures Partial(pre, j).columns[j] == pre.columns[j]
    ensures SomeCellHasDigit(Partial(pre, j).rows, j) == SomeCellHasDigit(pre.rows, j)
  {
    var g := Partial(pre, j);
    assert forall i :: 0 <= i < |pre.rows| ==> g.rows[i][j] == pre.rows[i][j];
    if SomeCellHasDigit(g.rows, j) {
      var i :| 0 <= i < |g.rows| && j < |g.rows[i]| && g.rows[i][j].Str? && HasDigit(g.rows[i][j].s);
      assert pre.rows[i][j] == g.rows[i][j];
    }
    if SomeCellHasDigit(pre.rows, j) {
      var i :| 0 <= i < |pre.rows| && j < |pre.rows[i]| && pre.rows[i][j].Str? && HasDigit(pre.rows[i][j].s);
      assert pre.rows[i][j] == g.rows[i][j];
    }
  }

  /** One loop step: converting column j of the partial frame, or leaving
      it, gives the partial frame one column further. */
  lemma PartialStep(pre: Frame, j: nat)
    requires WellFormed(pre) && j < |pre.columns|
    ensures Converts(pre, j) ==> ConvertColumn(Partial(pre, j), j) == Partial(pre, j + 1)
    ensures !Converts(pre, j) ==> Partial(pre, j) == Partial(pre, j + 1)
  {
    if Converts(pre, j) {
      PartialStepConvert(pre, j);
    } else {
      PartialStepKeep(pre, j);
    }
  }

  lemma PartialStepConvert(pre: Frame, j: nat)
    requires WellFormed(pre) && j < |pre.columns| && Converts(pre, j)
    ensures ConvertColumn(Partial(pre, j), j) == Partial(pre, j + 1)
  {
    var c, h := ConvertColumn(Partial(pre, j), j), Partial(pre, j + 1);
    assert c.columns == h.columns by {
      assert forall k :: 0 <= k < |pre.columns| ==> c.columns[k] == h.columns[k];
    }
    forall i | 0 <= i < |pre.rows| ensures c.rows[i] == h.rows[i] {
      ConvertRowStep(pre, j, i);
    }
    assert c.rows == h.rows;
  }

  lemma ConvertRowStep(pre: Frame, j: nat, i: nat)
    requires WellFormed(pre) && j < |pre.columns| && Converts(pre, j) && i < |pre.rows|
    ensures ConvertColumn(Partial(pre, j), j).rows[i] == Partial(pre, j + 1).rows[i]
  {
    var c, h := ConvertColumn(Partial(pre, j), j).rows[i], Partial(pre, j + 1).rows[i];
    assert forall k :: 0 <= k < |pre.columns| ==> c[k] == h[k];
  }

  lemma PartialStepKeep(pre: Frame, j: nat)
    requires WellFormed(pre) && j < |pre.columns| && !Converts(pre, j)
    ensures Partial(pre, j) == Partial(pre, j + 1)
  {
    var g, h := Partial(pre, j), Partial(pre, j + 1);
    assert g.columns == h.columns by {
      assert forall k :: 0 <= k < |pre.columns| ==> g.columns[k] == h.columns[k];
    }
    forall i | 0 <= i < |pre.rows| ensures g.rows[i] == h.rows[i] {
      KeepRowStep(pre, j, i);
    }
    assert g.rows == h.rows;
  }

  lemma KeepRowStep(pre: Frame, j: nat, i: nat)
    requires WellFormed(pre) && j < |pre.columns| && !Converts(pre, j) && i < |pre.rows|
    ensures Partial(pre, j).rows[i] == Partial(pre, j + 1).rows[i]
  {
    var g, h := Partial(pre, j).rows[i], Partial(pre, j + 1).rows[i];
    forall k | 0 <= k < |pre.columns| ensures g[k] == h[k] {
      if k == j {
        assert g[k] == pre.rows[i][k] && h[k] == pre.rows[i][k];
      }
    }
  }

  /** Every column of the cleaned frame is the prepared column, converted
      exactly when it qualifies; the cells follow their column. */
  lemma CleanedCells(pre: Frame, i: nat, j: nat)
    requires WellFormed(pre) && i < |pre.rows| && j < |pre.columns|
    ensures Cleaned(pre).columns[j] == (if Converts(pre, j) then Column(pre.columns[j].name, false) else pre.columns[j])
    ensures Cleaned(pre).rows[i][j] == (if Converts(pre, j) then TidyCell(pre.rows[i][j]) else pre.rows[i][j])
  {
  }

  /** After cleaning, no column still qualifies for conversion: numeric
      columns stay numeric, so cleaning twice converts nothing more. */
  lemma CleanedSettled(pre: Frame, j: nat)
    requires WellFormed(pre) && j < |pre.columns|
    ensures !Converts(Cleaned(pre), j)
  {
  }

  /** The cleaning of one raw file `path` read as `df`: the output's logical
      name and frame, or the error the script stops with (the name does not
      match, or the file already has a Year column). */
  method CleanTable(path: string, df: Frame) returns (res: Result<(string, Frame), CleanError>)
    requires WellFormed(df)
    ensures FileNameGroups(path).None? ==> res == Err(NameMismatch)
    ensures FileNameGroups(path).Some? && HasColumn(df.columns, "Year") ==> res == Err(YearExists)
    ensures res.Ok? ==> FileNameGroups(path).Some? && !HasColumn(df.columns, "Year")
    ensures res.Ok? ==>
      var (year, tbl) := FileNameGroups(path).value;
      res.value == (LogicalName(tbl), Cleaned(Prepared(year, df)))
  {
    var groups := FileNameGroups(path);
    if groups.None? {
      return Err(NameMismatch);
    }
    var (year, tbl) := groups.value;
    var name := LogicalName(tbl);
    // 1. drop all-missing rows and header echoes
    var rows := DropAllMissing(df.rows);
    rows := DropHeaderEchoes(df.columns, rows);
    FiltersKeepDataRows(df.columns, df.rows);
    // 2. insert Year first
    if exists j :: 0 <= j < |df.columns| && df.columns[j].name == "Year" {
      return Err(YearExists);
    }
    var yearCell := Num(Dec(DigitsValue(year), 0));
    var frame := Frame([Column("Year", false)] + df.columns,
                       seq(|rows|, i requires 0 <= i < |rows| => [yearCell] + rows[i]));
    ghost var pre := Prepared(year, df);
    assert frame == pre;
    PartialStart(pre);
    // 3. convert the text columns that look numeric
    var j := 0;
    while j < |frame.columns|
      invariant 0 <= j <= |pre.columns|
      invariant frame == Partial(pre, j)
    {
      PartialColumn(pre, j);
      PartialStep(pre, j);
      if frame.columns[j].isText
         && (Lower(frame.columns[j].name) in NumericNames || SomeCellHasDigit(frame.rows, j))
      {
        frame := ConvertColumn(frame, j);
      }
      j := j + 1;
    }
    return Ok((name, frame));
  }

  /** Year is the first column, a number equal to the file name's year, on
      every surviving row; the rest of each row is the raw row. */
  lemma PreparedYear(year: string, df: Frame)
    requires WellFormed(df) && |year| == 4 && AllDigits(year)
    ensures var pre := Prepared(year, df);
      pre.columns[0] == Column("Year", false)
      && !Converts(pre, 0)
      && |pre.rows| == |DataRows(df.columns, df.rows)|
      && forall i :: 0 <= i < |pre.rows| ==>
           pre.rows[i][0] == Num(Dec(DigitsValue(year), 0)) && pre.rows[i][1..] == DataRows(df.columns, df.rows)[i]
  {
    var pre := Prepared(year, df);
    forall i | 0 <= i < |pre.rows|
      ensures pre.rows[i][1..] == DataRows(df.columns, df.rows)[i]
    {
      assert pre.rows[i] == [Num(Dec(DigitsValue(year), 0))] + DataRows(df.columns, df.rows)[i];
    }
  }
}
