/** `generate_turtle.py`: one start-date and one end-date triple per
    project. The spreadsheet arrives as its set of column names and the
    rows of `groupby(Projectnummer).agg('first')` after `dropna`; the
    grouping is pandas' and is taken as given. `datetime.strptime` with a
    format followed by `strftime('%Y-%m-%d')` is the parameter `parse`,
    `None` where `strptime` raises. */
module DateTriples {
  import opened Wrappers
  import opened Text
  import opened Cells
  import ExcelToTurtle

  /** The four `strptime` formats: `%Y-%m-%d`, `%d-%m-%Y`, `%m/%d/%Y`,
      `%d/%m/%Y`. */
  datatype DateFormat = YearFirst | DayFirstDashed | MonthFirstSlashed | DayFirstSlashed

  /** The order in which `format_date_for_rdf` tries them. */
  const Formats: seq<DateFormat> := [YearFirst, DayFirstDashed, MonthFirstSlashed, DayFirstSlashed]

  /** Format `i` is the first of `fmts` that reads `t`. */
  predicate FirstReads(t: string, fmts: seq<DateFormat>, parse: (string, DateFormat) -> Option<string>, i: int) {
    0 <= i < |fmts| && parse(t, fmts[i]).Some? && forall j | 0 <= j < i :: parse(t, fmts[j]).None?
  }

  /** The loop over the formats: the first that parses wins. */
  function FirstParse(t: string, fmts: seq<DateFormat>, parse: (string, DateFormat) -> Option<string>): (r: Option<string>)
    ensures r.None? <==> forall i | 0 <= i < |fmts| :: parse(t, fmts[i]).None?
    ensures r.Some? ==> exists i :: FirstReads(t, fmts, parse, i) && r == parse(t, fmts[i])
  {
    if |fmts| == 0 then None
    else if parse(t, fmts[0]).Some? then
      assert FirstReads(t, fmts, parse, 0);
      parse(t, fmts[0])
    else
      var r := FirstParse(t, fmts[1..], parse);
      assert forall i | 1 <= i < |fmts| :: fmts[i] == fmts[1..][i - 1];
      if r.Some? then
        var i :| FirstReads(t, fmts[1..], parse, i) && r == parse(t, fmts[1..][i]);
        assert FirstReads(t, fmts, parse, i + 1);
        r
      else r
  }

  /** `format_date_for_rdf`: a missing cell and a value with no
      `strftime` give nothing, a timestamp gives its ISO date, and text
      gives what the first format that reads it produces, or nothing. */
  function FormatDateForRdf(cell: DateCell, parse: (string, DateFormat) -> Option<string>): (r: Option<string>)
    ensures (cell.Missing? || cell.OtherValue?) ==> r.None?
    ensures cell.Timestamp? ==> r == Some(cell.iso)
    ensures cell.DateText? ==>
      (r.None? <==> forall i | 0 <= i < |Formats| :: parse(cell.text, Formats[i]).None?)
    ensures cell.DateText? && r.Some? ==>
      exists i :: FirstReads(cell.text, Formats, parse, i) && r == parse(cell.text, Formats[i])
  {
    match cell
    case Missing => None
    case Timestamp(iso) => Some(iso)
    case DateText(t) => FirstParse(t, Formats, parse)
    case OtherValue => None
  }

  /** A slash date that reads both month-first and day-first is read
      month-first. */
  lemma SlashDateReadMonthFirst(t: string, parse: (string, DateFormat) -> Option<string>)
    requires parse(t, YearFirst).None? && parse(t, DayFirstDashed).None?
    requires parse(t, MonthFirstSlashed).Some?
    ensures FormatDateForRdf(DateText(t), parse) == parse(t, MonthFirstSlashed)
  {
    var r := FormatDateForRdf(DateText(t), parse);
    assert Formats[0] == YearFirst && Formats[1] == DayFirstDashed && Formats[2] == MonthFirstSlashed;
    assert parse(t, Formats[2]).Some?;
    assert r.Some?;
    var i :| FirstReads(t, Formats, parse, i) && r == parse(t, Formats[i]);
    assert i <= 2 by {
      assert forall j | 0 <= j < i :: parse(t, Formats[j]).None?;
    }
  }

  // Columns

  const ProjectColumn: string := "Projectnummer"
  const StartColumn: string := "Startdatum"
  const EndColumn: string := "Einddatum"

  /** The first of the three required columns the sheet lacks. */
  function MissingColumn(columns: set<string>): (r: Option<string>)
    ensures r.None? <==> ProjectColumn in columns && StartColumn in columns && EndColumn in columns
    ensures r.Some? ==> r.value !in columns
    ensures r.Some? && r.value != ProjectColumn ==> ProjectColumn in columns
    ensures r == Some(EndColumn) ==> StartColumn in columns
  {
    if ProjectColumn !in columns then Some(ProjectColumn)
    else if StartColumn !in columns then Some(StartColumn)
    else if EndColumn !in columns then Some(EndColumn)
    else None
  }

  function ColumnError(column: string): string {
    "Column '" + column + "' not found in Excel file"
  }

  // Triples

  /** One row of the grouped table: the project number as pandas renders
      it (`None` for NaN) and the first start and end cells. */
  datatype Project = Project(number: Option<string>, start: DateCell, end: DateCell)

  /** The spreadsheet as the script uses it. */
  datatype Sheet = Sheet(columns: set<string>, projects: seq<Project>)

  /** The two prefix lines and the blank line written first. */
  const Prefixes: seq<string> := [
    "@prefix schema: " + "<http://schema.org/> .",
    "@prefix xsd: " + "<http://www.w3.org/" + "2001/XMLSchema#> .",
    ""
  ]

  function ProjectIri(num: string): string {
    "<" + ExcelToTurtle.ProjectUri(num) + ">"
  }

  /** `{project_uri} schema:startDate "{d}"^^xsd:date .` and its end-date
      twin. */
  function DateTriple(num: string, property: string, d: string): string {
    ProjectIri(num) + " " + property + " \"" + d + "\"^^xsd:date ."
  }

  const StartProperty: string := "schema:startDate"
  const EndProperty: string := "schema:endDate"

  /** The number is usable: present and not the empty string. */
  predicate HasNumber(p: Project) {
    p.number.Some? && p.number.value != ""
  }

  /** The triples written for one project, start before end; a project
      without a number, or with neither date, writes nothing. */
  function ProjectTriples(p: Project, parse: (string, DateFormat) -> Option<string>): seq<string> {
    if !HasNumber(p) then []
    else
      var s := FormatDateForRdf(p.start, parse);
      var e := FormatDateForRdf(p.end, parse);
      if s.None? && e.None? then []
      else
        (if s.Some? then [DateTriple(p.number.value, StartProperty, s.value)] else [])
        + (if e.Some? then [DateTriple(p.number.value, EndProperty, e.value)] else [])
  }

  /** The triples of the first `|ps|` projects, in table order. */
  function AllTriples(ps: seq<Project>, parse: (string, DateFormat) -> Option<string>): seq<string> {
    if |ps| == 0 then []
    else AllTriples(ps[..|ps| - 1], parse) + ProjectTriples(ps[|ps| - 1], parse)
  }

  /** The number of dates a project contributes, counted independently of
      the lines: each formatted date of a numbered project is one triple. */
  function DateCount(p: Project, parse: (string, DateFormat) -> Option<string>): nat {
    if !HasNumber(p) then 0
    else
      (if FormatDateForRdf(p.start, parse).Some? then 1 else 0)
      + (if FormatDateForRdf(p.end, parse).Some? then 1 else 0)
  }

  function TotalDates(ps: seq<Project>, parse: (string, DateFormat) -> Option<string>): nat {
    if |ps| == 0 then 0 else TotalDates(ps[..|ps| - 1], parse) + DateCount(ps[|ps| - 1], parse)
  }

  /** A project writes nothing exactly when its number is missing or
      empty or neither date formats; otherwise it writes a start triple
      when it has a start date, then an end triple when it has an end
      date. */
  lemma ProjectTriplesShape(p: Project, parse: (string, DateFormat) -> Option<string>)
    ensures var s, e := FormatDateForRdf(p.start, parse), FormatDateForRdf(p.end, parse);
      && (ProjectTriples(p, parse) == [] <==> !HasNumber(p) || (s.None? && e.None?))
      && (HasNumber(p) && s.Some? && e.Some? ==>
            ProjectTriples(p, parse) == [DateTriple(p.number.value, StartProperty, s.value),
                                         DateTriple(p.number.value, EndProperty, e.value)])
      && (HasNumber(p) && s.Some? && e.None? ==>
            ProjectTriples(p, parse) == [DateTriple(p.number.value, StartProperty, s.value)])
      && (HasNumber(p) && s.None? && e.Some? ==>
            ProjectTriples(p, parse) == [DateTriple(p.number.value, EndProperty, e.value)])
      && |ProjectTriples(p, parse)| == DateCount(p, parse)
  {
  }

  /** Every line written counts as one triple: the line count equals the
      number of formatted dates of the numbered projects. */
  lemma {:induction false} TriplesMatchDates(ps: seq<Project>, parse: (string, DateFormat) -> Option<string>)
    ensures |AllTriples(ps, parse)| == TotalDates(ps, parse)
  {
    if |ps| > 0 {
      TriplesMatchDates(ps[..|ps| - 1], parse);
      ProjectTriplesShape(ps[|ps| - 1], parse);
    }
  }

  /** What the script writes and the `valid_triples` it reports. */
  datatype Generated = Generated(text: string, triples: nat)

  /** `generate_turtle_rdf`: a missing column raises before anything is
      written and the function returns `False` (here the error, naming
      the column); otherwise the text is the prefixes, a blank line and
      the triples, one per line, and the count is the number of triple
      lines. */
  method GenerateTurtleRdf(sheet: Sheet, parse: (string, DateFormat) -> Option<string>) returns (r: Result<Generated>)
    ensures r.Failure? <==> MissingColumn(sheet.columns).Some?
    ensures r.Failure? ==> r.error == ColumnError(MissingColumn(sheet.columns).value)
    ensures r.Success? ==> r.value.text == Join(Prefixes + AllTriples(sheet.projects, parse), '\n')
    ensures r.Success? ==> r.value.triples == |AllTriples(sheet.projects, parse)|
    ensures r.Success? ==> r.value.triples == TotalDates(sheet.projects, parse)
  {
    var missing := MissingColumn(sheet.columns);
    if missing.Some? {
      return Failure(ColumnError(missing.value));
    }
    var content := Prefixes;
    var valid := 0;
    var i := 0;
    while i < |sheet.projects|
      invariant 0 <= i <= |sheet.projects|
      invariant content == Prefixes + AllTriples(sheet.projects[..i], parse)
      invariant valid == |AllTriples(sheet.projects[..i], parse)|
    {
      var lines, count := WriteProject(sheet.projects[i], parse);
      assert sheet.projects[..i + 1][..i] == sheet.projects[..i];
      AppendAssoc(Prefixes, AllTriples(sheet.projects[..i], parse), lines);
      content := content + lines;
      valid := valid + count;
      i := i + 1;
    }
    assert sheet.projects[..i] == sheet.projects;
    TriplesMatchDates(sheet.projects, parse);
    return Success(Generated(Join(content, '\n'), valid));
  }

  /** The body of the loop for one project: the lines it appends and the
      triples it counts. */
  method WriteProject(p: Project, parse: (string, DateFormat) -> Option<string>) returns (lines: seq<string>, count: nat)
    ensures lines == ProjectTriples(p, parse)
    ensures count == |lines| == DateCount(p, parse)
    ensures var s, e := FormatDateForRdf(p.start, parse), FormatDateForRdf(p.end, parse);
      && (lines == [] <==> !HasNumber(p) || (s.None? && e.None?))
      && (HasNumber(p) && s.Some? ==> lines[0] == DateTriple(p.number.value, StartProperty, s.value))
      && (HasNumber(p) && e.Some? ==> lines[|lines| - 1] == DateTriple(p.number.value, EndProperty, e.value))
  {
    ProjectTriplesShape(p, parse);
    lines, count := [], 0;
    if p.number.None? || p.number.value == "" {
      return;
    }
    var s := FormatDateForRdf(p.start, parse);
    var e := FormatDateForRdf(p.end, parse);
    if s.None? && e.None? {
      return;
    }
    if s.Some? {
      lines := lines + [DateTriple(p.number.value, StartProperty, s.value)];
      count := count + 1;
    }
    if e.Some? {
      lines := lines + [DateTriple(p.number.value, EndProperty, e.value)];
      count := count + 1;
    }
  }

  // Reading the lines back

  predicate NoBreak(s: string) {
    '\n' !in s
  }

  /** The date strings and project numbers hold no line break. */
  predicate CleanProject(p: Project, parse: (string, DateFormat) -> Option<string>) {
    && (p.number.Some? ==> NoBreak(p.number.value))
    && (FormatDateForRdf(p.start, parse).Some? ==> NoBreak(FormatDateForRdf(p.start, parse).value))
    && (FormatDateForRdf(p.end, parse).Some? ==> NoBreak(FormatDateForRdf(p.end, parse).value))
  }

  lemma TripleNoBreak(num: string, property: string, d: string)
    requires NoBreak(num) && NoBreak(property) && NoBreak(d)
    ensures NoBreak(DateTriple(num, property, d))
  {
    assert NoBreak("https://w3id.org/") && NoBreak("odissei/ns/kg/cbs/") && NoBreak("project/");
    assert NoBreak(" \"") && NoBreak("\"^^xsd:date .");
  }

  lemma {:induction false} AllTriplesNoBreak(ps: seq<Project>, parse: (string, DateFormat) -> Option<string>)
    requires forall i | 0 <= i < |ps| :: CleanProject(ps[i], parse)
    ensures forall k | 0 <= k < |AllTriples(ps, parse)| :: NoBreak(AllTriples(ps, parse)[k])
  {
    if |ps| > 0 {
      var p := ps[|ps| - 1];
      AllTriplesNoBreak(ps[..|ps| - 1], parse);
      assert NoBreak(StartProperty) && NoBreak(EndProperty);
      if HasNumber(p) {
        var s := FormatDateForRdf(p.start, parse);
        var e := FormatDateForRdf(p.end, parse);
        if s.Some? {
          TripleNoBreak(p.number.value, StartProperty, s.value);
        }
        if e.Some? {
          TripleNoBreak(p.number.value, EndProperty, e.value);
        }
      }
      var front := AllTriples(ps[..|ps| - 1], parse);
      var last := ProjectTriples(p, parse);
      assert forall k | 0 <= k < |last| :: NoBreak(last[k]);
      assert forall k | |front| <= k < |front| + |last| :: (front + last)[k] == last[k - |front|];
    }
  }

  /** When no project number or date holds a line break, splitting the
      written text at line breaks gives back the prefix lines, the blank
      line and exactly the triples, one per line. */
  lemma GeneratedLines(sheet: Sheet, parse: (string, DateFormat) -> Option<string>)
    requires forall i | 0 <= i < |sheet.projects| :: CleanProject(sheet.projects[i], parse)
    ensures Split(Join(Prefixes + AllTriples(sheet.projects, parse), '\n'), '\n')
         == Prefixes + AllTriples(sheet.projects, parse)
  {
    var ts := AllTriples(sheet.projects, parse);
    AllTriplesNoBreak(sheet.projects, parse);
    PrefixesNoBreak();
    NoBreakAppend(Prefixes, ts);
    SplitJoin(Prefixes + ts, '\n');
  }

  lemma PrefixesNoBreak()
    ensures forall k | 0 <= k < |Prefixes| :: NoBreak(Prefixes[k])
  {
    assert NoBreak("@prefix schema: ") && NoBreak("<http://schema.org/> .");
    assert NoBreak("@prefix xsd: ") && NoBreak("<http://www.w3.org/") && NoBreak("2001/XMLSchema#> .");
  }

  lemma NoBreakAppend(a: seq<string>, b: seq<string>)
    requires forall k | 0 <= k < |a| :: NoBreak(a[k])
    requires forall k | 0 <= k < |b| :: NoBreak(b[k])
    ensures forall k | 0 <= k < |a + b| :: NoBreak((a + b)[k])
  {
    forall k | 0 <= k < |a + b| ensures NoBreak((a + b)[k]) {
      if k >= |a| {
        assert (a + b)[k] == b[k - |a|];
      }
    }
  }
}
