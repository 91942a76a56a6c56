/** The Turtle text `process_excel_to_turtle` writes from the collected
    tables: ten header lines, one block per project, a `# Datasets`
    section and a `# Organizations` section, joined by newlines. Blocks
    appear in the order their keys were first added. */
module TurtleOutput {
  import opened Wrappers
  import opened Text
  import opened TurtleLines
  import opened ExcelToTurtle

  /** The namespaces the output declares, in order. */
  const Prefixes: seq<(string, string)> := [
    ("schema", "http://schema.org/"),
    ("xsd", "http://www.w3.org/2001/XMLSchema#"),
    ("dc", "http://purl.org/dc/elements/1.1/"),
    ("foaf", "http://xmlns.com/foaf/0.1/"),
    ("rdf", "http://www.w3.org/1999/02/22-rdf-syntax-ns#"),
    ("rdfs", "http://www.w3.org/2000/01/rdf-schema#")
  ]

  function PrefixLine(name: string, iri: string): (line: string)
    ensures StartsWith(line, "@prefix ")
  {
    "@prefix " + name + ": <" + iri + "> ."
  }

  function Comment(text: string): (line: string)
    ensures StartsWith(line, "# ")
  {
    "# " + text
  }

  /** The prefix declarations and the two comment lines. */
  function Header(): (h: seq<string>)
    ensures |h| == 10
    ensures forall i | 0 <= i < 6 :: h[i] == PrefixLine(Prefixes[i].0, Prefixes[i].1)
  {
    seq(|Prefixes|, i requires 0 <= i < |Prefixes| => PrefixLine(Prefixes[i].0, Prefixes[i].1))
    + ["", Comment("CBS Projects with end dates before 2025"), Comment("Generated from Excel data"), ""]
  }

  /** Python truthiness of an optional date text. */
  predicate Present(d: Option<string>) {
    d.Some? && d.value != ""
  }

  /** Title, start date and end date, each only when it is non-empty. */
  function HeadStatements(p: ProjectInfo): seq<string> {
    (if p.title != "" then ["dc:title \"" + p.title + "\""] else [])
    + (if Present(p.startDate) then ["schema:startDate \"" + p.startDate.value + "\"^^xsd:date"] else [])
    + (if Present(p.endDate) then ["schema:endDate \"" + p.endDate.value + "\"^^xsd:date"] else [])
  }

  function RequiresStatement(d: string): string { "dc:requires <" + d + ">" }

  function MemberStatement(o: string): string { "schema:parentOrganization <" + o + ">" }

  /** One `dc:requires` per dataset URI, in sorted order. */
  function RequiresStatements(p: ProjectInfo): seq<string> {
    var ds := SortedElements(p.datasets);
    seq(|ds|, i requires 0 <= i < |ds| => RequiresStatement(ds[i]))
  }

  /** One `schema:parentOrganization` per organization URI, in sorted order. */
  function MemberStatements(p: ProjectInfo): seq<string> {
    var os := SortedElements(p.organizations);
    seq(|os|, i requires 0 <= i < |os| => MemberStatement(os[i]))
  }

  /** Every predicate-object pair of a project block, in output order. */
  function ProjectStatements(p: ProjectInfo): seq<string> {
    HeadStatements(p) + RequiresStatements(p) + MemberStatements(p)
  }

  /** The organization links as the script writes them: only the link
      with the last index ends ` .`. */
  function MemberLinesAsWritten(ms: seq<string>): seq<string> {
    seq(|ms|, i requires 0 <= i < |ms| =>
      if i == |ms| - 1 then CloseStatement(Statement(ms[i])) else Statement(ms[i]))
  }

  /** A project block as the script writes it: every statement ends ` ;`
      except the last organization link, which ends ` .`; a project without
      organizations is therefore never closed. */
  function ProjectBlockAsWritten(uri: string, p: ProjectInfo): seq<string> {
    [Subject(uri)] + OpenLines(HeadStatements(p) + RequiresStatements(p))
    + MemberLinesAsWritten(MemberStatements(p)) + [""]
  }

  /** A project block with its last statement closed, whichever it is. */
  function ProjectBlock(uri: string, p: ProjectInfo): (b: seq<string>)
    ensures |b| == |ProjectStatements(p)| + 2
    ensures b[0] == Subject(uri) && b[|b| - 1] == ""
  {
    [Subject(uri)] + StatementLines(ProjectStatements(p)) + [""]
  }

  /** The one statement of a dataset block, closed. */
  function AlternativeLine(name: string): string {
    "   dc:alternative \"" + name + "\" ."
  }

  /** The open type statement of an organization block. */
  function TypeLine(orgType: string): string {
    "   rdf:type " + orgType + " ;"
  }

  /** The closing name statement of an organization block. */
  function NameLine(name: string): string {
    "   foaf:name \"" + name + "\" ."
  }

  function DatasetBlock(d: DatasetInfo): seq<string> {
    [Subject(d.uri), AlternativeLine(d.name), ""]
  }

  function OrgBlock(uri: string, o: OrgInfo): seq<string> {
    [Subject(uri), TypeLine(o.orgType), NameLine(o.name), ""]
  }

  predicate Listed<V>(m: map<string, V>, order: seq<string>) {
    forall i | 0 <= i < |order| :: order[i] in m
  }

  /** Which project blocks a document is made of: the blocks as the script
      writes them, or the corrected blocks of `ProjectBlock`. */
  datatype Layout = AsWritten | Corrected

  function Block(layout: Layout, uri: string, p: ProjectInfo): seq<string> {
    match layout
    case AsWritten => ProjectBlockAsWritten(uri, p)
    case Corrected => ProjectBlock(uri, p)
  }

  /** One block per project key in `order`. */
  function ProjectSection(m: map<string, ProjectInfo>, order: seq<string>, layout: Layout): seq<string>
    requires Listed(m, order)
  {
    if |order| == 0 then [] else Block(layout, order[0], m[order[0]]) + ProjectSection(m, order[1..], layout)
  }

  function DatasetSection(m: map<string, DatasetInfo>, order: seq<string>): (ls: seq<string>)
    requires Listed(m, order)
    ensures |ls| == 3 * |order|
  {
    if |order| == 0 then [] else DatasetBlock(m[order[0]]) + DatasetSection(m, order[1..])
  }

  function OrgSection(m: map<string, OrgInfo>, order: seq<string>): (ls: seq<string>)
    requires Listed(m, order)
    ensures |ls| == 4 * |order|
  {
    if |order| == 0 then [] else OrgBlock(order[0], m[order[0]]) + OrgSection(m, order[1..])
  }

  /** The orders list only keys of their tables, as in every state the
      conversion reaches. */
  predicate Ordered(st: State) {
    Listed(st.projects, st.projectOrder) && Listed(st.datasets, st.datasetOrder)
    && Listed(st.organizations, st.orgOrder)
  }

  lemma ValidIsOrdered(st: State, ids: nat -> string)
    requires Valid(st, ids)
    ensures Ordered(st)
  {
  }

  /** The list of output lines, with the project blocks in the given layout;
      `DocumentLines(st, AsWritten)` is the list the script builds. */
  function DocumentLines(st: State, layout: Layout): (ls: seq<string>)
    requires Ordered(st)
    ensures |ls| >= |Header()| && ls[..|Header()|] == Header()
  {
    Header() + ProjectSection(st.projects, st.projectOrder, layout)
    + [Comment("Datasets")] + DatasetSection(st.datasets, st.datasetOrder)
    + [Comment("Organizations")] + OrgSection(st.organizations, st.orgOrder)
  }

  /** `'\n'.join(turtle_content)`: the text the script writes to the output
      file, project blocks as written. */
  function DocumentText(st: State): string
    requires Ordered(st)
  {
    Join(DocumentLines(st, AsWritten), '\n')
  }

  // Project blocks

  /** Every statement line of a corrected block ends ` ;` except the last,
      which ends ` .`; the block starts with the subject and ends with a
      blank line. */
  lemma ProjectBlockLayout(uri: string, p: ProjectInfo)
    ensures var ps := ProjectStatements(p); var b := ProjectBlock(uri, p);
      && (forall i | 0 <= i < |ps| - 1 :: b[i + 1] == "   " + ps[i] + " ;")
      && (|ps| > 0 ==> b[|ps|] == "   " + ps[|ps| - 1] + " .")
  {
    SubjectBlockLayout(uri, ProjectStatements(p));
  }

  /** The same for a subject block over any statements. */
  lemma SubjectBlockLayout(uri: string, ps: seq<string>)
    ensures var b := [Subject(uri)] + StatementLines(ps) + [""];
      && (forall i | 0 <= i < |ps| - 1 :: b[i + 1] == "   " + ps[i] + " ;")
      && (|ps| > 0 ==> b[|ps|] == "   " + ps[|ps| - 1] + " .")
  {
    var ls := StatementLines(ps);
    var b := [Subject(uri)] + ls + [""];
    forall i | 0 <= i < |ps| ensures b[i + 1] == ls[i] {
    }
  }

  /** When there are links they close the block as the corrected lines do. */
  lemma MemberLinesClose(ms: seq<string>)
    requires |ms| > 0
    ensures MemberLinesAsWritten(ms) == StatementLines(ms)
  {
    var a := MemberLinesAsWritten(ms);
    var b := StatementLines(ms);
    forall i | 0 <= i < |ms| ensures a[i] == b[i] {
      if i == |ms| - 1 {
        assert CloseStatement(Statement(ms[i])) == "   " + ms[i] + " .";
      }
    }
  }

  /** With at least one organization the script's block is the corrected
      one: its last organization link is the last statement. */
  lemma ProjectBlockAgrees(uri: string, p: ProjectInfo)
    requires p.organizations != {}
    ensures ProjectBlockAsWritten(uri, p) == ProjectBlock(uri, p)
  {
    var ms := MemberStatements(p);
    assert |ms| == |p.organizations| > 0;
    SubjectBlockAgrees(uri, HeadStatements(p) + RequiresStatements(p), ms);
  }

  lemma SubjectBlockAgrees(uri: string, open: seq<string>, ms: seq<string>)
    requires |ms| > 0
    ensures [Subject(uri)] + OpenLines(open) + MemberLinesAsWritten(ms) + [""]
         == [Subject(uri)] + StatementLines(open + ms) + [""]
  {
    MemberLinesClose(ms);
    StatementLinesAppend(open, ms);
    AppendAssoc([Subject(uri)], OpenLines(open), StatementLines(ms));
  }

  /** The block as the script writes it: the subject, one line per
      statement and a blank line; every statement line ends ` ;` except,
      for a project with organizations, the last one, which ends ` .`. */
  lemma ProjectBlockAsWrittenLayout(uri: string, p: ProjectInfo)
    ensures var ps := ProjectStatements(p); var b := ProjectBlockAsWritten(uri, p);
      && |b| == |ps| + 2 && b[0] == Subject(uri) && b[|b| - 1] == ""
      && (forall i | 0 <= i < |ps| - 1 :: b[i + 1] == "   " + ps[i] + " ;")
      && (|ps| > 0 ==> b[|ps|] == "   " + ps[|ps| - 1] + (if p.organizations == {} then " ;" else " ."))
  {
    if p.organizations == {} {
      AsWrittenOpenLayout(uri, p);
    } else {
      ProjectBlockAgrees(uri, p);
      ProjectBlockLayout(uri, p);
    }
  }

  lemma AsWrittenOpenLayout(uri: string, p: ProjectInfo)
    requires p.organizations == {}
    ensures var ps := ProjectStatements(p); var b := ProjectBlockAsWritten(uri, p);
      && |b| == |ps| + 2 && b[0] == Subject(uri) && b[|b| - 1] == ""
      && (forall i | 0 <= i < |ps| :: b[i + 1] == "   " + ps[i] + " ;")
  {
    var ps := ProjectStatements(p);
    AsWrittenWithoutMembers(uri, p);
    OpenLinesAre(ps);
    var ol := OpenLines(ps);
    var b := [Subject(uri)] + ol + [""];
    forall i | 0 <= i < |ps| ensures b[i + 1] == "   " + ps[i] + " ;" {
      assert b[i + 1] == ol[i];
    }
  }

  lemma OpenLinesAre(ps: seq<string>)
    ensures forall i | 0 <= i < |ps| :: OpenLines(ps)[i] == "   " + ps[i] + " ;"
  {
    forall i | 0 <= i < |ps| ensures OpenLines(ps)[i] == "   " + ps[i] + " ;" {
      assert OpenLines(ps)[i] == Statement(ps[i]);
    }
  }


  lemma AsWrittenWithoutMembers(uri: string, p: ProjectInfo)
    requires p.organizations == {}
    ensures ProjectBlockAsWritten(uri, p) == [Subject(uri)] + OpenLines(ProjectStatements(p)) + [""]
  {
    var open := HeadStatements(p) + RequiresStatements(p);
    var ms := MemberStatements(p);
    assert ms == [] by {
      assert |ms| == |SortedElements(p.organizations)| == 0;
    }
    assert MemberLinesAsWritten(ms) == [];
    assert ProjectStatements(p) == open + [];
    assert open + [] == open;
  }

  /** The script's block for a project without organizations has no line
      ending ` .`: its last statement still ends ` ;`, so the next subject
      line is read as part of the same statement list. */
  lemma ProjectBlockAsWrittenOpen(uri: string, p: ProjectInfo)
    requires p.organizations == {}
    ensures forall i | 0 <= i < |ProjectBlockAsWritten(uri, p)| :: !EndsWith(ProjectBlockAsWritten(uri, p)[i], " .")
  {
    var a := ProjectBlockAsWritten(uri, p);
    var ol := OpenLines(HeadStatements(p) + RequiresStatements(p));
    assert |MemberStatements(p)| == 0;
    assert a == [Subject(uri)] + ol + [""];
    forall i | 0 <= i < |a| ensures !EndsWith(a[i], " .") {
      if 1 <= i <= |ol| {
        assert a[i] == ol[i - 1];
        assert a[i][|a[i]| - 1] == ';';
      } else if i == 0 {
        assert a[i][|a[i]| - 1] == '>';
      }
    }
  }

  /** A concrete case: a project with a title and nothing else. */
  lemma ProjectBlockAsWrittenExample()
    ensures ProjectBlockAsWritten("p", ProjectInfo("T", None, None, {}, {}))
         == ["<p>", "   dc:title \"T\" ;", ""]
    ensures ProjectBlock("p", ProjectInfo("T", None, None, {}, {}))
         == ["<p>", "   dc:title \"T\" .", ""]
  {
    var t := "dc:title \"" + "T" + "\"";
    assert t == "dc:title \"T\"";
    assert Subject("p") == "<p>";
    assert "   " + t + " ;" == "   dc:title \"T\" ;";
    assert "   " + t + " ." == "   dc:title \"T\" .";
    TitleOnlyBlocks("p", "T");
  }

  /** The two blocks of a project with only a title. */
  lemma TitleOnlyBlocks(uri: string, title: string)
    requires title != ""
    ensures var t := "dc:title \"" + title + "\"";
      && ProjectBlockAsWritten(uri, ProjectInfo(title, None, None, {}, {})) == [Subject(uri), "   " + t + " ;", ""]
      && ProjectBlock(uri, ProjectInfo(title, None, None, {}, {})) == [Subject(uri), "   " + t + " .", ""]
  {
    var p := ProjectInfo(title, None, None, {}, {});
    var t := "dc:title \"" + title + "\"";
    assert HeadStatements(p) == [t];
    assert |RequiresStatements(p)| == 0;
    assert |MemberStatements(p)| == 0;
    assert ProjectStatements(p) == [t];
    assert HeadStatements(p) + RequiresStatements(p) == [t];
    assert OpenLines([t]) == [Statement(t)];
    assert MemberLinesAsWritten(MemberStatements(p)) == [];
    assert StatementLines([t]) == ["   " + t + " ."];
  }

  // Links

  lemma RequiresStatementInjective(a: string, b: string)
    ensures RequiresStatement(a) == RequiresStatement(b) ==> a == b
  {
    if RequiresStatement(a) == RequiresStatement(b) {
      var n := |"dc:requires <"|;
      assert a == RequiresStatement(a)[n..|RequiresStatement(a)| - 1];
      assert b == RequiresStatement(b)[n..|RequiresStatement(b)| - 1];
    }
  }

  lemma MemberStatementInjective(a: string, b: string)
    ensures MemberStatement(a) == MemberStatement(b) ==> a == b
  {
    if MemberStatement(a) == MemberStatement(b) {
      var n := |"schema:parentOrganization <"|;
      assert a == MemberStatement(a)[n..|MemberStatement(a)| - 1];
      assert b == MemberStatement(b)[n..|MemberStatement(b)| - 1];
    }
  }

  /** The title and date statements start `dc:t` or `schema:s`/`schema:e`. */
  lemma HeadShapes(p: ProjectInfo)
    ensures forall y | y in HeadStatements(p) ::
      |y| > 8 && ((y[0] == 'd' && y[3] == 't') || (y[0] == 's' && y[7] != 'p'))
  {
  }

  lemma RequiresShapes(p: ProjectInfo)
    ensures forall y | y in RequiresStatements(p) :: |y| > 8 && y[0] == 'd' && y[3] == 'r'
  {
    var ds := SortedElements(p.datasets);
    forall y | y in RequiresStatements(p) ensures |y| > 8 && y[0] == 'd' && y[3] == 'r' {
      var i :| 0 <= i < |ds| && y == RequiresStatement(ds[i]);
    }
  }

  lemma MemberShapes(p: ProjectInfo)
    ensures forall y | y in MemberStatements(p) :: |y| > 8 && y[0] == 's' && y[7] == 'p'
  {
    var os := SortedElements(p.organizations);
    forall y | y in MemberStatements(p) ensures |y| > 8 && y[0] == 's' && y[7] == 'p' {
      var i :| 0 <= i < |os| && y == MemberStatement(os[i]);
    }
  }

  lemma InMiddle(h: seq<string>, r: seq<string>, m: seq<string>, x: string)
    requires x in h + r + m && x !in h && x !in m
    ensures x in r
  {
  }

  lemma InLast(h: seq<string>, r: seq<string>, m: seq<string>, x: string)
    requires x in h + r + m && x !in h && x !in r
    ensures x in m
  {
  }

  lemma RequiresNotElsewhere(p: ProjectInfo, x: string)
    requires |x| > 3 && x[0] == 'd' && x[3] == 'r'
    ensures x !in HeadStatements(p) && x !in MemberStatements(p)
  {
    HeadShapes(p);
    MemberShapes(p);
  }

  lemma MemberNotElsewhere(p: ProjectInfo, x: string)
    requires |x| > 7 && x[0] == 's' && x[7] == 'p'
    ensures x !in HeadStatements(p) && x !in RequiresStatements(p)
  {
    HeadShapes(p);
    RequiresShapes(p);
  }

  /** A block states `dc:requires <d>` exactly for the datasets the project
      needs, whatever the titles and dates say. */
  lemma ProjectRequires(p: ProjectInfo, d: string)
    ensures RequiresStatement(d) in ProjectStatements(p) <==> d in p.datasets
  {
    if d in p.datasets {
      RequiresListed(p, d);
    }
    if RequiresStatement(d) in ProjectStatements(p) {
      RequiresFrom(p, d);
    }
  }

  lemma RequiresListed(p: ProjectInfo, d: string)
    requires d in p.datasets
    ensures RequiresStatement(d) in ProjectStatements(p)
  {
    var ds := SortedElements(p.datasets);
    var i :| 0 <= i < |ds| && ds[i] == d;
    assert RequiresStatements(p)[i] == RequiresStatement(d);
  }

  lemma RequiresShape(d: string)
    ensures var x := RequiresStatement(d); |x| > 3 && x[0] == 'd' && x[3] == 'r'
  {
  }

  lemma RequiresFrom(p: ProjectInfo, d: string)
    requires RequiresStatement(d) in ProjectStatements(p)
    ensures d in p.datasets
  {
    var r := RequiresStatements(p);
    var ds := SortedElements(p.datasets);
    var x := RequiresStatement(d);
    RequiresShape(d);
    RequiresNotElsewhere(p, x);
    InMiddle(HeadStatements(p), r, MemberStatements(p), x);
    var i :| 0 <= i < |r| && r[i] == x;
    RequiresStatementInjective(ds[i], d);
  }

  /** A block states `schema:parentOrganization <o>` exactly for the
      organizations linked to the project. */
  lemma ProjectMembers(p: ProjectInfo, o: string)
    ensures MemberStatement(o) in ProjectStatements(p) <==> o in p.organizations
  {
    if o in p.organizations {
      MembersListed(p, o);
    }
    if MemberStatement(o) in ProjectStatements(p) {
      MembersFrom(p, o);
    }
  }

  lemma MembersListed(p: ProjectInfo, o: string)
    requires o in p.organizations
    ensures MemberStatement(o) in ProjectStatements(p)
  {
    var os := SortedElements(p.organizations);
    var i :| 0 <= i < |os| && os[i] == o;
    assert MemberStatements(p)[i] == MemberStatement(o);
  }

  lemma MemberShape(o: string)
    ensures var x := MemberStatement(o); |x| > 7 && x[0] == 's' && x[7] == 'p'
  {
  }

  lemma MembersFrom(p: ProjectInfo, o: string)
    requires MemberStatement(o) in ProjectStatements(p)
    ensures o in p.organizations
  {
    var m := MemberStatements(p);
    var os := SortedElements(p.organizations);
    var x := MemberStatement(o);
    MemberShape(o);
    MemberNotElsewhere(p, x);
    InLast(HeadStatements(p), RequiresStatements(p), m, x);
    var i :| 0 <= i < |m| && m[i] == x;
    MemberStatementInjective(os[i], o);
  }

  /** The links of a block come in strictly increasing order of their
      objects, so the output does not depend on set iteration order. */
  lemma ProjectLinksSorted(p: ProjectInfo)
    ensures var ds := SortedElements(p.datasets); var r := RequiresStatements(p);
      |r| == |p.datasets| && forall i, j | 0 <= i < j < |r| :: r[i] == RequiresStatement(ds[i]) && Less(ds[i], ds[j])
    ensures var os := SortedElements(p.organizations); var m := MemberStatements(p);
      |m| == |p.organizations| && forall i, j | 0 <= i < j < |m| :: m[i] == MemberStatement(os[i]) && Less(os[i], os[j])
  {
  }

  // Sections

  /** Block `k` of the dataset section is the `k`-th dataset's subject, its
      `dc:alternative` line and a blank line. */
  lemma DatasetSectionLines(m: map<string, DatasetInfo>, order: seq<string>)
    requires Listed(m, order)
    ensures var ls := DatasetSection(m, order);
      forall k | 0 <= k < |order| ::
        && ls[3 * k] == Subject(m[order[k]].uri)
        && ls[3 * k + 1] == AlternativeLine(m[order[k]].name)
        && ls[3 * k + 2] == ""
  {
    var ls := DatasetSection(m, order);
    forall k | 0 <= k < |order|
      ensures && ls[3 * k] == Subject(m[order[k]].uri)
              && ls[3 * k + 1] == AlternativeLine(m[order[k]].name)
              && ls[3 * k + 2] == ""
    {
      DatasetBlockAt(m, order, k);
      var b := DatasetBlock(m[order[k]]);
      assert ls[3 * k] == b[0] && ls[3 * k + 1] == b[1] && ls[3 * k + 2] == b[2] by {
        assert ls[3 * k..3 * k + 3] == b;
      }
    }
  }

  lemma {:induction false} DatasetBlockAt(m: map<string, DatasetInfo>, order: seq<string>, k: nat)
    requires Listed(m, order) && k < |order|
    ensures DatasetSection(m, order)[3 * k..3 * k + 3] == DatasetBlock(m[order[k]])
    decreases k
  {
    var b := DatasetBlock(m[order[0]]);
    var rest := DatasetSection(m, order[1..]);
    assert DatasetSection(m, order) == b + rest;
    if k == 0 {
      assert (b + rest)[..3] == b;
    } else {
      DatasetBlockAt(m, order[1..], k - 1);
      assert order[1..][k - 1] == order[k];
      assert (b + rest)[3 * k..3 * k + 3] == rest[3 * (k - 1)..3 * (k - 1) + 3];
    }
  }

  /** Block `k` of the organization section is the `k`-th URI's subject,
      its `rdf:type` line ending ` ;`, its `foaf:name` line ending ` .` and
      a blank line. */
  lemma OrgSectionLines(m: map<string, OrgInfo>, order: seq<string>)
    requires Listed(m, order)
    ensures var ls := OrgSection(m, order);
      forall k | 0 <= k < |order| ::
        && ls[4 * k] == Subject(order[k])
        && ls[4 * k + 1] == TypeLine(m[order[k]].orgType)
        && ls[4 * k + 2] == NameLine(m[order[k]].name)
        && ls[4 * k + 3] == ""
  {
    var ls := OrgSection(m, order);
    forall k | 0 <= k < |order|
      ensures && ls[4 * k] == Subject(order[k])
              && ls[4 * k + 1] == TypeLine(m[order[k]].orgType)
              && ls[4 * k + 2] == NameLine(m[order[k]].name)
              && ls[4 * k + 3] == ""
    {
      OrgBlockAt(m, order, k);
      var b := OrgBlock(order[k], m[order[k]]);
      assert ls[4 * k] == b[0] && ls[4 * k + 1] == b[1] && ls[4 * k + 2] == b[2] && ls[4 * k + 3] == b[3] by {
        assert ls[4 * k..4 * k + 4] == b;
      }
    }
  }

  lemma {:induction false} OrgBlockAt(m: map<string, OrgInfo>, order: seq<string>, k: nat)
    requires Listed(m, order) && k < |order|
    ensures OrgSection(m, order)[4 * k..4 * k + 4] == OrgBlock(order[k], m[order[k]])
    decreases k
  {
    var b := OrgBlock(order[0], m[order[0]]);
    var rest := OrgSection(m, order[1..]);
    assert OrgSection(m, order) == b + rest;
    if k == 0 {
      assert (b + rest)[..4] == b;
    } else {
      OrgBlockAt(m, order[1..], k - 1);
      assert order[1..][k - 1] == order[k];
      assert (b + rest)[4 * k..4 * k + 4] == rest[4 * (k - 1)..4 * (k - 1) + 4];
    }
  }

  /** The project section is one block per key, in key order: the section
      of `a + b` is the section of `a` followed by that of `b`. */
  lemma {:induction false} ProjectSectionAppend(m: map<string, ProjectInfo>, a: seq<string>, b: seq<string>, layout: Layout)
    requires Listed(m, a) && Listed(m, b)
    ensures Listed(m, a + b)
    ensures ProjectSection(m, a + b, layout) == ProjectSection(m, a, layout) + ProjectSection(m, b, layout)
  {
    assert Listed(m, a + b) by {
      forall i | 0 <= i < |a + b| ensures (a + b)[i] in m {
        if i >= |a| {
          assert (a + b)[i] == b[i - |a|];
        }
      }
    }
    if |a| == 0 {
      assert a + b == b;
    } else {
      assert (a + b)[0] == a[0];
      assert (a + b)[1..] == a[1..] + b;
      ProjectSectionAppend(m, a[1..], b, layout);
      AppendAssoc(Block(layout, a[0], m[a[0]]), ProjectSection(m, a[1..], layout), ProjectSection(m, b, layout));
    }
  }

  /** A single key gives its one block. */
  lemma ProjectSectionOne(m: map<string, ProjectInfo>, u: string, layout: Layout)
    requires u in m
    ensures ProjectSection(m, [u], layout) == Block(layout, u, m[u])
  {
    assert [u][1..] == [];
  }

  /** When every project has an organization the script's document is the
      corrected one. */
  lemma {:induction false} ProjectSectionAgrees(m: map<string, ProjectInfo>, order: seq<string>)
    requires Listed(m, order)
    requires forall i | 0 <= i < |order| :: m[order[i]].organizations != {}
    ensures ProjectSection(m, order, AsWritten) == ProjectSection(m, order, Corrected)
  {
    if |order| > 0 {
      ProjectSectionAgrees(m, order[1..]);
      ProjectBlockAgrees(order[0], m[order[0]]);
    }
  }

  // The document

  /** Where each part of the document lies: the header, the project
      section, `# Datasets`, the dataset section, `# Organizations` and the
      organization section, and nothing else. `DatasetSectionLines` and
      `OrgSectionLines` give the lines of the last two sections. */
  lemma DocumentLayout(st: State, layout: Layout)
    requires Ordered(st)
    ensures var ls := DocumentLines(st, layout);
      var ps := ProjectSection(st.projects, st.projectOrder, layout);
      var n := |Header()| + |ps|;
      && |ls| > n
      && ls[|Header()|..n] == ps
      && ls[n] == Comment("Datasets")
      && ls[n + 1..] == DatasetSection(st.datasets, st.datasetOrder) + [Comment("Organizations")]
                        + OrgSection(st.organizations, st.orgOrder)
  {
    var ps := ProjectSection(st.projects, st.projectOrder, layout);
    var ds := DatasetSection(st.datasets, st.datasetOrder);
    var os := OrgSection(st.organizations, st.orgOrder);
    var front := Header() + ps + [Comment("Datasets")];
    var c := [Comment("Organizations")];
    AppendAssoc(front + ds, c, os);
    AppendAssoc(front, ds, c + os);
    AppendAssoc(ds, c, os);
    Assembled(DocumentLines(st, layout), Header(), ps, Comment("Datasets"), ds + c + os);
  }

  /** Where the parts of an assembled list of lines lie. */
  lemma Assembled(ls: seq<string>, h: seq<string>, ps: seq<string>, c: string, rest: seq<string>)
    requires ls == h + ps + [c] + rest
    ensures var n := |h| + |ps|;
      && |ls| > n && ls[|h|..n] == ps && ls[n] == c && ls[n + 1..] == rest
  {
    assert ls == h + ps + ([c] + rest);
  }

  /** Splitting the written text at newlines gives back the lines, when no
      cell text holds a newline. */
  lemma DocumentTextLines(st: State)
    requires Ordered(st)
    requires forall i | 0 <= i < |DocumentLines(st, AsWritten)| :: '\n' !in DocumentLines(st, AsWritten)[i]
    ensures Split(DocumentText(st), '\n') == DocumentLines(st, AsWritten)
  {
    SplitJoin(DocumentLines(st, AsWritten), '\n');
  }

  // Subjects of the document

  /** The lines that open a subject block. */
  function Subjects(ls: seq<string>): seq<string> {
    if |ls| == 0 then []
    else (if StartsWith(ls[0], "<") then [ls[0]] else []) + Subjects(ls[1..])
  }

  lemma {:induction false} SubjectsAppend(a: seq<string>, b: seq<string>)
    ensures Subjects(a + b) == Subjects(a) + Subjects(b)
  {
    if |a| == 0 {
      assert a + b == b;
    } else {
      assert (a + b)[0] == a[0];
      assert (a + b)[1..] == a[1..] + b;
      SubjectsAppend(a[1..], b);
    }
  }

  lemma {:induction false} NoSubjects(ls: seq<string>)
    requires forall i | 0 <= i < |ls| :: |ls[i]| == 0 || ls[i][0] != '<'
    ensures Subjects(ls) == []
  {
    if |ls| > 0 {
      NoSubjects(ls[1..]);
    }
  }

  /** A block opened by a subject line and followed only by indented or
      blank lines has that one subject. */
  lemma OneSubject(uri: string, rest: seq<string>)
    requires forall i | 0 <= i < |rest| :: |rest[i]| == 0 || rest[i][0] != '<'
    ensures Subjects([Subject(uri)] + rest) == [Subject(uri)]
  {
    NoSubjects(rest);
    assert ([Subject(uri)] + rest)[1..] == rest;
  }

  lemma ProjectBlockSubject(uri: string, p: ProjectInfo)
    ensures Subjects(ProjectBlock(uri, p)) == [Subject(uri)]
  {
    var ls := StatementLines(ProjectStatements(p)) + [""];
    forall i | 0 <= i < |ls| ensures |ls[i]| == 0 || ls[i][0] != '<' {
      if i < |ls| - 1 {
        assert ls[i][0] == ' ';
      }
    }
    assert ProjectBlock(uri, p) == [Subject(uri)] + ls;
    OneSubject(uri, ls);
  }

  lemma DatasetBlockSubject(d: DatasetInfo)
    ensures Subjects(DatasetBlock(d)) == [Subject(d.uri)]
  {
    var ls := [AlternativeLine(d.name), ""];
    assert ls[0][0] == ' ';
    assert DatasetBlock(d) == [Subject(d.uri)] + ls;
    OneSubject(d.uri, ls);
  }

  lemma OrgBlockSubject(uri: string, o: OrgInfo)
    ensures Subjects(OrgBlock(uri, o)) == [Subject(uri)]
  {
    var ls := [TypeLine(o.orgType), NameLine(o.name), ""];
    assert ls[0][0] == ' ' && ls[1][0] == ' ';
    assert OrgBlock(uri, o) == [Subject(uri)] + ls;
    OneSubject(uri, ls);
  }

  /** The subject lines for the keys in `order`. */
  function Subjected(order: seq<string>): (r: seq<string>)
    ensures |r| == |order|
  {
    seq(|order|, i requires 0 <= i < |order| => Subject(order[i]))
  }

  lemma SubjectedCons(order: seq<string>)
    requires |order| > 0
    ensures Subjected(order) == [Subject(order[0])] + Subjected(order[1..])
  {
    var l := Subjected(order);
    var r := [Subject(order[0])] + Subjected(order[1..]);
    forall i | 0 <= i < |l| ensures l[i] == r[i] {
      if i > 0 {
        assert r[i] == Subjected(order[1..])[i - 1];
      }
    }
  }

  /** The URIs of the datasets in `order`. */
  function DatasetUriList(m: map<string, DatasetInfo>, order: seq<string>): (r: seq<string>)
    requires Listed(m, order)
    ensures |r| == |order| && forall i | 0 <= i < |order| :: r[i] == m[order[i]].uri
  {
    seq(|order|, i requires 0 <= i < |order| => m[order[i]].uri)
  }

  /** The lines after the subject of a block as written are indented or
      blank. */
  lemma ProjectBlockAsWrittenSubject(uri: string, p: ProjectInfo)
    ensures Subjects(ProjectBlockAsWritten(uri, p)) == [Subject(uri)]
  {
    ProjectBlockAsWrittenLayout(uri, p);
    var b := ProjectBlockAsWritten(uri, p);
    var ps := ProjectStatements(p);
    var rest := b[1..];
    forall i | 0 <= i < |rest| ensures |rest[i]| == 0 || rest[i][0] != '<' {
      assert rest[i] == b[i + 1];
      if i < |ps| - 1 {
        assert b[i + 1] == "   " + ps[i] + " ;";
      } else if i == |ps| - 1 {
        assert b[|ps|][0] == ' ';
      }
    }
    assert b == [Subject(uri)] + rest;
    OneSubject(uri, rest);
  }

  lemma BlockSubject(layout: Layout, uri: string, p: ProjectInfo)
    ensures Subjects(Block(layout, uri, p)) == [Subject(uri)]
  {
    match layout
    case AsWritten => ProjectBlockAsWrittenSubject(uri, p);
    case Corrected => ProjectBlockSubject(uri, p);
  }

  lemma {:induction false} ProjectSectionSubjects(m: map<string, ProjectInfo>, order: seq<string>, layout: Layout)
    requires Listed(m, order)
    ensures Subjects(ProjectSection(m, order, layout)) == Subjected(order)
  {
    if |order| > 0 {
      ProjectSectionSubjects(m, order[1..], layout);
      SubjectsAppend(Block(layout, order[0], m[order[0]]), ProjectSection(m, order[1..], layout));
      BlockSubject(layout, order[0], m[order[0]]);
      SubjectedCons(order);
    }
  }

  lemma {:induction false} DatasetSectionSubjects(m: map<string, DatasetInfo>, order: seq<string>)
    requires Listed(m, order)
    ensures Subjects(DatasetSection(m, order)) == Subjected(DatasetUriList(m, order))
  {
    if |order| > 0 {
      DatasetSectionSubjects(m, order[1..]);
      SubjectsAppend(DatasetBlock(m[order[0]]), DatasetSection(m, order[1..]));
      DatasetBlockSubject(m[order[0]]);
      var us := DatasetUriList(m, order);
      assert us[1..] == DatasetUriList(m, order[1..]);
      SubjectedCons(us);
    }
  }

  lemma {:induction false} OrgSectionSubjects(m: map<string, OrgInfo>, order: seq<string>)
    requires Listed(m, order)
    ensures Subjects(OrgSection(m, order)) == Subjected(order)
  {
    if |order| > 0 {
      OrgSectionSubjects(m, order[1..]);
      SubjectsAppend(OrgBlock(order[0], m[order[0]]), OrgSection(m, order[1..]));
      OrgBlockSubject(order[0], m[order[0]]);
      SubjectedCons(order);
    }
  }

  lemma HeaderHasNoSubject()
    ensures Subjects(Header()) == []
  {
    var h := Header();
    forall i | 0 <= i < |h| ensures |h[i]| == 0 || h[i][0] != '<' {
      if i < 6 {
        assert h[i][0] == '@';
      } else if i == 7 || i == 8 {
        assert h[i][0] == '#';
      }
    }
    NoSubjects(h);
  }

  /** The document opens exactly one block per project, dataset and
      organization, in the order each was first met: projects first, then
      datasets, then organizations. This holds for the script's blocks and
      for the corrected ones alike. */
  lemma DocumentSubjects(st: State, layout: Layout)
    requires Ordered(st)
    ensures Subjects(DocumentLines(st, layout))
         == Subjected(st.projectOrder)
          + Subjected(DatasetUriList(st.datasets, st.datasetOrder))
          + Subjected(st.orgOrder)
  {
    HeaderHasNoSubject();
    NoSubjects([Comment("Datasets")]);
    NoSubjects([Comment("Organizations")]);
    ProjectSectionSubjects(st.projects, st.projectOrder, layout);
    DatasetSectionSubjects(st.datasets, st.datasetOrder);
    OrgSectionSubjects(st.organizations, st.orgOrder);
    SubjectsOfSections(Header(), ProjectSection(st.projects, st.projectOrder, layout), [Comment("Datasets")],
      DatasetSection(st.datasets, st.datasetOrder), [Comment("Organizations")],
      OrgSection(st.organizations, st.orgOrder));
  }

  /** Separators without subjects contribute nothing. */
  lemma SubjectsOfSections(h: seq<string>, a: seq<string>, c1: seq<string>, b: seq<string>,
                           c2: seq<string>, c: seq<string>)
    requires Subjects(h) == [] && Subjects(c1) == [] && Subjects(c2) == []
    ensures Subjects(h + a + c1 + b + c2 + c) == Subjects(a) + Subjects(b) + Subjects(c)
  {
    SubjectsAppend(h, a);
    SubjectsAppend(h + a, c1);
    SubjectsAppend(h + a + c1, b);
    SubjectsAppend(h + a + c1 + b, c2);
    SubjectsAppend(h + a + c1 + b + c2, c);
  }
}
