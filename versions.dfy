/** How the two parsers of the raw tables relate: on a standings file whose
    lines are already stripped and non-blank, the earlier parser yields
    exactly the v2 records with Ties and Payroll left out. */
module Versions {
  import opened Text
  import opened RawTable
  import V2 = CleanV2
  import P = ParseAll

  /** A v2 standings record without its Ties and Payroll columns. */
  function Project(r: V2.Record): P.Record
    requires r.Standing?
  {
    P.ShortStanding(r.year, r.team, r.wins, r.losses, r.wp, r.gb)
  }

  function ProjectAll(rs: seq<V2.Record>): (out: seq<P.Record>)
    requires forall k :: 0 <= k < |rs| ==> rs[k].Standing?
    ensures |out| == |rs|
  {
    if rs == [] then [] else [Project(rs[0])] + ProjectAll(rs[1..])
  }

  lemma {:induction false} ProjectStandings(year: int, accepted: seq<seq<string>>)
    requires forall k :: 0 <= k < |accepted| ==> Accepted(accepted[k])
    ensures forall k :: 0 <= k < |V2.Standings(year, accepted)| ==> V2.Standings(year, accepted)[k].Standing?
    ensures ProjectAll(V2.Standings(year, accepted)) == P.ShortStandings(year, accepted)
  {
    var v := V2.Standings(year, accepted);
    var p := P.ShortStandings(year, accepted);
    if accepted != [] {
      ProjectStandings(year, accepted[1..]);
      assert v[1..] == V2.Standings(year, accepted[1..]);
      assert p[1..] == P.ShortStandings(year, accepted[1..]);
      assert ProjectAll(v) == [Project(v[0])] + ProjectAll(v[1..]);
      assert p == [p[0]] + p[1..];
    }
  }

  lemma {:induction false} StrippedNonBlankFixed(lines: seq<string>)
    requires forall k :: 0 <= k < |lines| ==> lines[k] != "" && Strip(lines[k]) == lines[k]
    ensures V2.StrippedNonBlank(lines) == lines
  {
    if lines != [] {
      StrippedNonBlankFixed(lines[1..]);
      assert [lines[0]] + lines[1..] == lines;
    }
  }

  /** On the same body, the two standings parsers fail together, keep the
      same lines, and differ only in the columns they keep. */
  lemma StandingsBodiesAgree(yearText: string, body: seq<string>)
    ensures V2.StandingsFile(yearText, body).Ok? <==> P.StandingsFrame(yearText, body).Ok?
    ensures V2.StandingsFile(yearText, body).Ok? ==>
      forall k :: 0 <= k < |V2.StandingsFile(yearText, body).value| ==> V2.StandingsFile(yearText, body).value[k].Standing?
    ensures V2.StandingsFile(yearText, body).Ok? ==>
      P.StandingsFrame(yearText, body).value ==
        if V2.StandingsFile(yearText, body).value == [] then None
        else Some(ProjectAll(V2.StandingsFile(yearText, body).value))
  {
    var accepted := AcceptedParts(body);
    if accepted != [] && PyInt(yearText).Some? {
      ProjectStandings(PyInt(yearText).value, accepted);
    }
  }

  /** A standings file of stripped, non-blank lines: the earlier parser
      adds a frame exactly when v2 yields records, and that frame is the v2
      records without Ties and Payroll. */
  lemma StandingsAgree(f: RawFile)
    requires StemFields(f.stem).Some? && StemFields(f.stem).value.1 == "3"
    requires forall k :: 0 <= k < |f.lines| ==> f.lines[k] != "" && Strip(f.lines[k]) == f.lines[k]
    ensures V2.FileRecords(f).Ok? <==> P.FileFrame(f).Ok?
    ensures V2.FileRecords(f).Ok? ==>
      forall k :: 0 <= k < |V2.FileRecords(f).value.1| ==> V2.FileRecords(f).value.1[k].Standing?
    ensures V2.FileRecords(f).Ok? ==>
      P.FileFrame(f).value.1 ==
        if V2.FileRecords(f).value.1 == [] then None
        else Some(ProjectAll(V2.FileRecords(f).value.1))
  {
    var (yearText, tbl) := StemFields(f.stem).value;
    StrippedNonBlankFixed(f.lines);
    var body := Body(DropJunk(f.lines));
    assert V2.TableFile(yearText, tbl, f.lines) == V2.StandingsFile(yearText, body);
    assert P.TableFrame(yearText, tbl, f.lines) == P.StandingsFrame(yearText, body);
    StandingsBodiesAgree(yearText, body);
  }
}
