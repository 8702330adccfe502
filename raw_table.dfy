/** What clean_all_nl_v2.py and parse_all_tables.py share about one raw
    table file: the year and table number in its name, the junk-line
    filter, the comma segments of a standings line and the rule that
    accepts one, the padding of a leader row, and the ways processing a
    file can stop the script. */
module RawTable {
  import opened Text
  import opened Csv

  /** The table numbers both scripts know ("1" to "5"). */
  const Tables: set<string> := {"1", "2", "3", "4", "5"}

  /** A raw file: the stem of its name and the lines of its text. */
  datatype RawFile = RawFile(stem: string, lines: seq<string>)

  /** Why processing a file stops the script:
      MissingTableNumber is the IndexError of a stem with fewer than three
      `_` segments, BadYear the ValueError of `int(year)`, UnknownTable the
      KeyError of looking the table number up, CsvFailure the error of the
      csv reader. */
  datatype FileError = MissingTableNumber | BadYear | UnknownTable | CsvFailure(e: CsvError)

  /** `stem.split("_")[0]` and `stem.split("_")[2]`, or None for the
      IndexError raised when the stem has fewer than three segments. */
  function StemFields(stem: string): (r: Option<(string, string)>)
    ensures r.None? <==> |Split(stem, '_')| < 3
    ensures r.Some? ==> '_' !in r.value.0 && '_' !in r.value.1
  {
    var parts := Split(stem, '_');
    if |parts| < 3 then None
    else
      SplitPartsFree(stem, '_');
      Some((parts[0], parts[2]))
  }

  lemma {:induction false} SplitPartsFree(s: string, sep: char)
    ensures forall k :: 0 <= k < |Split(s, sep)| ==> sep !in Split(s, sep)[k]
  {
    if s != [] {
      SplitPartsFree(s[1..], sep);
      var rest := Split(s[1..], sep);
      if s[0] != sep {
        var r := [[s[0]] + rest[0]] + rest[1..];
        assert forall k :: 1 <= k < |r| ==> r[k] == rest[k];
      }
    }
  }

  /** The stems of the raw files, "<year>_Table_<n>", split as intended. */
  lemma StemOfTableFile(year: string, n: string)
    requires '_' !in year && '_' !in n
    ensures StemFields(year + "_Table_" + n) == Some((year, n))
  {
    var stem := year + "_Table_" + n;
    assert stem == year + ['_'] + ("Table" + ['_'] + n);
    SplitAfterSep(year, "Table" + ['_'] + n, '_');
    assert '_' !in "Table";
    SplitAfterSep("Table", n, '_');
    SplitWithoutSep(n, '_');
  }

  /** `int(year)`, or 0 where no record will ever use it. */
  function YearOr(yearText: string): int
  {
    match PyInt(yearText)
    case Some(y) => y
    case None => 0
  }

  // ------------------------------------------------------------------
  // Junk lines

  /** `re.search("History|→|←", line)` finds something. */
  predicate IsJunk(line: string)
  {
    Contains(line, "History") || '→' in line || '←' in line
  }

  /** The lines without junk, in their order. */
  function DropJunk(lines: seq<string>): (r: seq<string>)
    ensures |r| <= |lines|
  {
    if lines == [] then []
    else (if IsJunk(lines[0]) then [] else [lines[0]]) + DropJunk(lines[1..])
  }

  lemma {:induction false} DropJunkMembers(lines: seq<string>, l: string)
    ensures l in DropJunk(lines) <==> l in lines && !IsJunk(l)
  {
    if lines != [] {
      DropJunkMembers(lines[1..], l);
      assert lines == [lines[0]] + lines[1..];
    }
  }

  /** `lines[1:]`, which is empty for an empty list: the caption is dropped. */
  function Body<T>(lines: seq<T>): (r: seq<T>)
    ensures |r| == if lines == [] then 0 else |lines| - 1
  {
    if lines == [] then [] else lines[1..]
  }

  // ------------------------------------------------------------------
  // Standings lines

  /** The stripped, non-blank segments: `[p.strip() for p in segs if p.strip()]`. */
  function NonBlank(segs: seq<string>): (r: seq<string>)
    ensures |r| <= |segs|
    ensures forall k :: 0 <= k < |r| ==> r[k] != ""
  {
    if segs == [] then []
    else (if Strip(segs[0]) == "" then [] else [Strip(segs[0])]) + NonBlank(segs[1..])
  }

  /** The comma segments of a standings line. */
  function Parts(line: string): seq<string>
  {
    NonBlank(Split(line, ','))
  }

  /** `len(parts) < 4 or parts[0] == "Payroll"` does not hold. */
  predicate Accepted(parts: seq<string>)
  {
    |parts| >= 4 && parts[0] != "Payroll"
  }

  /** The segments of each line. */
  function LineParts(lines: seq<string>): (r: seq<seq<string>>)
    ensures |r| == |lines|
  {
    if lines == [] then [] else [Parts(lines[0])] + LineParts(lines[1..])
  }

  /** The accepted segment lists, in order. */
  function KeepAccepted(segs: seq<seq<string>>): (r: seq<seq<string>>)
    ensures |r| <= |segs|
    ensures forall k :: 0 <= k < |r| ==> Accepted(r[k])
  {
    if segs == [] then []
    else (if Accepted(segs[0]) then [segs[0]] else []) + KeepAccepted(segs[1..])
  }

  /** The segments of every accepted line, in order. */
  function AcceptedParts(lines: seq<string>): (r: seq<seq<string>>)
    ensures |r| <= |lines|
    ensures forall k :: 0 <= k < |r| ==> Accepted(r[k])
  {
    KeepAccepted(LineParts(lines))
  }

  lemma {:induction false} KeepAcceptedAppend(a: seq<seq<string>>, b: seq<seq<string>>)
    ensures KeepAccepted(a + b) == KeepAccepted(a) + KeepAccepted(b)
  {
    if a == [] {
      assert a + b == b;
    } else {
      assert (a + b)[0] == a[0] && (a + b)[1..] == a[1..] + b;
      KeepAcceptedAppend(a[1..], b);
      var head := if Accepted(a[0]) then [a[0]] else [];
      assert KeepAccepted(a + b) == head + KeepAccepted(a[1..] + b);
      assert KeepAccepted(a) == head + KeepAccepted(a[1..]);
    }
  }

  lemma {:induction false} LinePartsAppend(a: seq<string>, b: seq<string>)
    ensures LineParts(a + b) == LineParts(a) + LineParts(b)
  {
    if a == [] {
      assert a + b == b;
    } else {
      assert (a + b)[0] == a[0] && (a + b)[1..] == a[1..] + b;
      LinePartsAppend(a[1..], b);
    }
  }

  lemma AcceptedPartsAppend(a: seq<string>, b: seq<string>)
    ensures AcceptedParts(a + b) == AcceptedParts(a) + AcceptedParts(b)
  {
    LinePartsAppend(a, b);
    KeepAcceptedAppend(LineParts(a), LineParts(b));
  }

  lemma AcceptedPartsSnoc(lines: seq<string>, i: nat)
    requires i < |lines|
    ensures AcceptedParts(lines[..i + 1])
         == AcceptedParts(lines[..i]) + (if Accepted(Parts(lines[i])) then [Parts(lines[i])] else [])
  {
    assert lines[..i + 1] == lines[..i] + [lines[i]];
    AcceptedPartsAppend(lines[..i], [lines[i]]);
    LinePartsOne(lines[i]);
    KeepAcceptedOne(Parts(lines[i]));
  }

  lemma LinePartsOne(line: string)
    ensures LineParts([line]) == [Parts(line)]
  {
    assert [line][1..] == [];
  }

  lemma KeepAcceptedOne(ps: seq<string>)
    ensures KeepAccepted([ps]) == if Accepted(ps) then [ps] else []
  {
    assert KeepAccepted([ps]) == (if Accepted(ps) then [ps] else []) + KeepAccepted([]);
  }

  /** An accepted line anywhere makes the accepted list non-empty. */
  lemma AcceptedAt(lines: seq<string>, i: nat)
    requires i < |lines| && Accepted(Parts(lines[i]))
    ensures AcceptedParts(lines[..i + 1]) != [] && AcceptedParts(lines) != []
  {
    AcceptedPartsSnoc(lines, i);
    AcceptedPartsAppend(lines[..i + 1], lines[i + 1..]);
    assert lines[..i + 1] + lines[i + 1..] == lines;
  }

  lemma {:induction false} KeepAcceptedMembers(segs: seq<seq<string>>, ps: seq<string>)
    ensures ps in KeepAccepted(segs) <==> ps in segs && Accepted(ps)
  {
    if segs != [] {
      KeepAcceptedMembers(segs[1..], ps);
      assert segs == [segs[0]] + segs[1..];
    }
  }

  lemma {:induction false} LinePartsMembers(lines: seq<string>, ps: seq<string>)
    ensures ps in LineParts(lines) <==> exists l :: l in lines && Parts(l) == ps
  {
    if lines != [] {
      LinePartsMembers(lines[1..], ps);
      assert lines == [lines[0]] + lines[1..];
      assert LineParts(lines) == [Parts(lines[0])] + LineParts(lines[1..]);
      if ps in LineParts(lines) && ps !in LineParts(lines[1..]) {
        assert lines[0] in lines && Parts(lines[0]) == ps;
      }
    }
  }

  /** A line yields segments to build a record from exactly when its
      segments are accepted. */
  lemma AcceptedPartsMembers(lines: seq<string>, ps: seq<string>)
    ensures ps in AcceptedParts(lines) <==> exists l :: l in lines && Parts(l) == ps && Accepted(ps)
  {
    KeepAcceptedMembers(LineParts(lines), ps);
    LinePartsMembers(lines, ps);
  }

  lemma {:induction false} NonBlankFixed(segs: seq<string>)
    requires forall k :: 0 <= k < |segs| ==> segs[k] != "" && Strip(segs[k]) == segs[k]
    ensures NonBlank(segs) == segs
  {
    if segs != [] {
      assert forall k :: 0 <= k < |segs[1..]| ==> segs[1..][k] == segs[k + 1];
      NonBlankFixed(segs[1..]);
      NonBlankKeeps(segs);
      HeadTail(segs);
    }
  }

  lemma NonBlankKeeps(segs: seq<string>)
    requires segs != [] && segs[0] != "" && Strip(segs[0]) == segs[0]
    ensures NonBlank(segs) == [segs[0]] + NonBlank(segs[1..])
  {
  }

  /** Joining stripped, non-blank, comma-free fields with commas gives a
      line whose segments are those fields: the standings split inverts
      the comma join. */
  lemma PartsOfJoin(fields: seq<string>)
    requires |fields| >= 1
    requires forall k :: 0 <= k < |fields| ==> fields[k] != "" && Strip(fields[k]) == fields[k] && ',' !in fields[k]
    ensures Parts(Join(fields, ',')) == fields
  {
    SplitJoin(fields, ',');
    NonBlankFixed(fields);
  }

  /** Blank segments are discarded, so empty columns shift later fields
      left: "Giants,,95,59" has the segments Giants, 95, 59. */
  lemma {:induction false} NonBlankDropsBlank(a: seq<string>, b: seq<string>)
    ensures NonBlank(a + [""] + b) == NonBlank(a) + NonBlank(b)
  {
    NonBlankAppend(a, [""] + b);
    ConcatAssoc(a, [""], b);
    NonBlankAppend([""], b);
    NonBlankEmptySegment();
  }

  lemma NonBlankEmptySegment()
    ensures NonBlank([""]) == []
  {
    StripNothing();
    assert [""][1..] == [];
  }

  lemma {:induction false} NonBlankAppend(a: seq<string>, b: seq<string>)
    ensures NonBlank(a + b) == NonBlank(a) + NonBlank(b)
  {
    if a == [] {
      assert a + b == b;
    } else {
      var h := if Strip(a[0]) == "" then [] else [Strip(a[0])];
      assert (a + b)[0] == a[0] && (a + b)[1..] == a[1..] + b;
      assert NonBlank(a + b) == h + NonBlank(a[1..] + b);
      NonBlankAppend(a[1..], b);
      assert NonBlank(a) == h + NonBlank(a[1..]);
      ConcatAssoc(h, NonBlank(a[1..]), NonBlank(b));
    }
  }

  /** A quoted trailer line keeps its quote characters in every segment, so
      its first segment is not the bare label and the line is accepted. */
  lemma QuotedTrailerAccepted(line: string)
    requires line == "\"Payroll\"" + ",\"\"" + ",\"\"" + ",\"\""
    ensures Parts(line) == ["\"Payroll\"", "\"\"", "\"\"", "\"\""]
    ensures Accepted(Parts(line))
  {
    var q := "\"\"";
    var fields := ["\"Payroll\"", q, q, q];
    assert Join(fields[3..], ',') == q;
    assert fields[2..][1..] == fields[3..];
    assert Join(fields[2..], ',') == q + [','] + q;
    assert fields[1..][1..] == fields[2..];
    assert Join(fields[1..], ',') == q + [','] + (q + [','] + q);
    assert Join(fields, ',') == line;
    forall k | 0 <= k < |fields|
      ensures fields[k] != "" && Strip(fields[k]) == fields[k] && ',' !in fields[k]
    {
      StripNoSpace(fields[k]);
    }
    PartsOfJoin(fields);
  }

  // ------------------------------------------------------------------
  // Leader rows

  /** `r + [""] * 5`. */
  function Pad(r: seq<string>): (p: seq<string>)
    ensures |p| == |r| + 5
  {
    r + ["", "", "", "", ""]
  }

  /** `r[k]`, or "" where the row is too short. */
  function Field(r: seq<string>, k: nat): string
  {
    if k < |r| then r[k] else ""
  }

  /** After padding, the first five positions hold the row's fields where
      it has them and "" where it is short. */
  lemma PadAt(r: seq<string>, k: nat)
    requires k < 5
    ensures k < |Pad(r)| && Pad(r)[k] == Field(r, k)
  {
  }
}
