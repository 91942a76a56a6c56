/** `integrate_organizations.py`: the project-to-organization map built
    from the spreadsheet rows, the line-by-line pass that appends
    `foaf:member` statements to the project blocks of the generated Turtle,
    and the assembly of that text with the organization profiles. */
module Integration {
  import opened Wrappers
  import opened Text
  import opened OrgUri
  import opened TurtleLines
  import opened ExcelToTurtle
  import TurtleOutput

  // The project-to-organization map

  /** A row links project `u` when it has both a project number, whose URI
      is `u`, and an institution. Blank cells are not filtered out. */
  predicate Links(row: Row, u: string) {
    row.projectNumber.Some? && row.institution.Text? && ProjectUri(row.projectNumber.value) == u
  }

  /** A row with a project number and an institution that is neither
      missing nor text: `re.sub` raises on it. */
  predicate PairRaises(row: Row) {
    row.projectNumber.Some? && row.institution.NotText?
  }

  predicate SomeRowRaises(rows: seq<Row>) {
    exists i | 0 <= i < |rows| :: PairRaises(rows[i])
  }

  /** The slug URIs of the institutions of the rows that link `u`. */
  function LinkedInstitutions(rows: seq<Row>, u: string): set<string> {
    set i | 0 <= i < |rows| && Links(rows[i], u) :: OrganizationUri(rows[i].institution.text)
  }

  /** The project URI and organization URI a row contributes, if any. */
  function Pair(row: Row): (p: Option<(string, string)>)
    ensures p.Some? <==> row.projectNumber.Some? && row.institution.Text?
    ensures p.Some? ==> p.value == (ProjectUri(row.projectNumber.value), OrganizationUri(row.institution.text))
  {
    if row.projectNumber.Some? && row.institution.Text? then
      Some((ProjectUri(row.projectNumber.value), OrganizationUri(row.institution.text)))
    else None
  }

  function Pairs(rows: seq<Row>): (ps: seq<Option<(string, string)>>)
    ensures |ps| == |rows| && forall i | 0 <= i < |rows| :: ps[i] == Pair(rows[i])
  {
    seq(|rows|, i requires 0 <= i < |rows| => Pair(rows[i]))
  }

  /** The loop of `create_project_organization_mappings` over the pairs:
      the first pair of a project creates its set, every pair adds to it. */
  function Collect(ps: seq<Option<(string, string)>>): map<string, set<string>> {
    if |ps| == 0 then map[]
    else
      var m := Collect(ps[..|ps| - 1]);
      match ps[|ps| - 1]
      case None => m
      case Some((u, o)) => m[u := (if u in m then m[u] else {}) + {o}]
  }

  function OrgMap(rows: seq<Row>): map<string, set<string>> {
    Collect(Pairs(rows))
  }

  /** `create_project_organization_mappings` row by row: the map of the
      rows, unless a row raises on its institution first. */
  function Mappings(rows: seq<Row>): (r: Result<map<string, set<string>>>)
    ensures r.Failure? <==> SomeRowRaises(rows)
    ensures r.Success? ==> r.value == OrgMap(rows)
  {
    if |rows| == 0 then Success(map[])
    else
      var pre := rows[..|rows| - 1];
      var row := rows[|rows| - 1];
      MappingsLast(rows);
      match Mappings(pre)
      case Failure(e) => Failure(e)
      case Success(m) =>
        if PairRaises(row) then Failure("TypeError: expected string or bytes-like object")
        else
          match Pair(row)
          case None => Success(m)
          case Some((u, o)) => Success(m[u := (if u in m then m[u] else {}) + {o}])
  }

  /** The organizations the pairs give project `u`. */
  function PairedWith(ps: seq<Option<(string, string)>>, u: string): set<string> {
    set i | 0 <= i < |ps| && ps[i].Some? && ps[i].value.0 == u :: ps[i].value.1
  }

  lemma {:induction false} CollectContents(ps: seq<Option<(string, string)>>, u: string)
    ensures u in Collect(ps) <==> PairedWith(ps, u) != {}
    ensures u in Collect(ps) ==> Collect(ps)[u] == PairedWith(ps, u)
  {
    if |ps| > 0 {
      var pre := ps[..|ps| - 1];
      var last := ps[|ps| - 1];
      CollectContents(pre, u);
      var a := PairedWith(pre, u);
      var b := PairedWith(ps, u);
      forall x | x in a ensures x in b {
        var i :| 0 <= i < |pre| && pre[i].Some? && pre[i].value.0 == u && x == pre[i].value.1;
        assert ps[i] == pre[i];
      }
      forall x | x in b ensures x in a || (last.Some? && last.value == (u, x)) {
        var i :| 0 <= i < |ps| && ps[i].Some? && ps[i].value.0 == u && x == ps[i].value.1;
        if i < |pre| {
          assert ps[i] == pre[i];
        }
      }
      if last.Some? && last.value.0 == u {
        assert last.value.1 in b;
      }
    }
  }

  /** A project is mapped exactly when some row links it, and its set holds
      exactly the slug URIs of those rows' institutions. */
  lemma OrgMapContents(rows: seq<Row>, u: string)
    ensures u in OrgMap(rows) <==> LinkedInstitutions(rows, u) != {}
    ensures u in OrgMap(rows) ==> OrgMap(rows)[u] == LinkedInstitutions(rows, u)
  {
    var ps := Pairs(rows);
    CollectContents(ps, u);
    forall i | 0 <= i < |rows| ensures (ps[i].Some? && ps[i].value.0 == u) <==> Links(rows[i], u) {
    }
    assert PairedWith(ps, u) == LinkedInstitutions(rows, u);
  }

  // The rewriting pass

  /** The text every project subject line starts with. */
  const ProjectLinePrefix: string := "<" + ProjectNamespace

  /** A line opens a project block when, stripped, it starts with the
      project prefix; such a line is never a terminator. */
  predicate Opens(line: string) {
    StartsWith(Strip(line), ProjectLinePrefix)
  }

  /** A line ends a statement list when, stripped, it ends with ` .`. */
  predicate Closes(line: string) {
    EndsWith(Strip(line), " .")
  }

  /** The project URI an opening line names: the stripped line without
      its trailing `>` characters and without one leading `<`. */
  function BlockKey(line: string): string {
    var k := RStripChars(Strip(line), {'>'});
    if StartsWith(k, "<") then k[1..] else k
  }

  /** The key of an opening line is a project URI: the trailing `>`s
      stop at the `/` that ends the namespace. */
  lemma OpenKey(line: string)
    requires Opens(line)
    ensures StartsWith(BlockKey(line), ProjectNamespace)
  {
    NamespaceEndsWithSlash();
    KeyAfterBracket(Strip(line), ProjectNamespace);
  }

  lemma NamespaceEndsWithSlash()
    ensures |ProjectNamespace| > 0 && ProjectNamespace[|ProjectNamespace| - 1] == '/'
  {
    var tail := "project/";
    assert ProjectNamespace[|ProjectNamespace| - 1] == tail[|tail| - 1];
  }

  /** The key read from a stripped line that starts with `<` and `b`. */
  lemma KeyAfterBracket(s: string, b: string)
    requires StartsWith(s, "<" + b) && |b| > 0 && b[|b| - 1] != '>'
    ensures var k := RStripChars(s, {'>'});
      StartsWith(k, "<") && StartsWith(k[1..], b)
  {
    var k := RStripChars(s, {'>'});
    KeepsPrefix(s, "<", b);
    assert k[0] == ("<" + b)[0] == '<';
  }

  /** Removing trailing `>`s keeps a prefix `a + b` whose last character
      is not `>`, and dropping `a` from the result leaves `b` in front. */
  lemma KeepsPrefix(s: string, a: string, b: string)
    requires StartsWith(s, a + b) && |b| > 0 && b[|b| - 1] != '>'
    ensures var k := RStripChars(s, {'>'});
      StartsWith(k, a + b) && StartsWith(k[|a|..], b)
  {
    var k := RStripChars(s, {'>'});
    var n := |a + b|;
    assert s[n - 1] == (a + b)[n - 1] == b[|b| - 1];
    assert |k| >= n;
    assert k[..n] == s[..n];
    assert k[|a|..][..|b|] == k[|a|..n] == (a + b)[|a|..] == b;
  }

  /** Python truthiness of the current block key. */
  predicate Truthy(cur: Option<string>) {
    cur.Some? && cur.value != ""
  }

  /** Every character of `s` belongs to `cs`. */
  predicate AllIn(s: string, cs: set<char>) {
    forall i | 0 <= i < |s| :: s[i] in cs
  }

  /** `r` is `line[..j] + " ;"` where `rstrip(' .')` stops at `k` and
      `rstrip(' ;')` then stops at `j`: both runs removed are maximal. */
  predicate ReopenCut(line: string, r: string, k: int) {
    var j := |r| - 2;
    && 0 <= j <= k <= |line| && r == line[..j] + " ;"
    && AllIn(line[k..], {' ', '.'}) && (k > 0 ==> line[k - 1] !in {' ', '.'})
    && AllIn(line[j..k], {' ', ';'}) && (j > 0 ==> line[j - 1] !in {' ', ';'})
  }

  /** `line.rstrip(' .').rstrip(' ;') + ' ;'`: the terminator reopened. The
      line loses its maximal trailing run of spaces and periods, then the
      maximal run of spaces and semicolons before that, and nothing else. */
  function Reopen(line: string): (r: string)
    ensures EndsWith(r, " ;")
    ensures |r| - 2 <= |line| && r[..|r| - 2] == line[..|r| - 2]
    ensures exists k :: ReopenCut(line, r, k)
  {
    var front := RStripChars(line, {' ', '.'});
    var body := RStripChars(front, {' ', ';'});
    var r := body + " ;";
    assert r[|r| - 2..] == " ;";
    assert r[..|r| - 2] == body;
    assert ReopenCut(line, r, |front|) by {
      assert line[..|front|] == front;
      assert AllIn(line[|body|..|front|], {' ', ';'}) by {
        forall i | 0 <= i < |front| - |body| ensures line[|body|..|front|][i] in {' ', ';'} {
          assert line[|body|..|front|][i] == front[|body| + i];
        }
      }
      assert AllIn(line[|front|..], {' ', '.'}) by {
        forall i | 0 <= i < |line| - |front| ensures line[|front|..][i] in {' ', '.'} {
          assert line[|front|..][i] == line[|front| + i];
        }
      }
    }
    r
  }

  /** The statement naming one organization as a member. */
  function MemberStatement(o: string): string {
    "foaf:member <" + o + ">"
  }

  /** One `foaf:member` line per organization, in sorted order, the last
      one closing the block. */
  function MemberLines(orgs: set<string>): (ls: seq<string>)
    ensures |ls| == |orgs|
    ensures var os := SortedElements(orgs);
      && (forall i | 0 <= i < |os| - 1 :: ls[i] == "   " + MemberStatement(os[i]) + " ;")
      && (|os| > 0 ==> ls[|os| - 1] == "   " + MemberStatement(os[|os| - 1]) + " .")
  {
    var os := SortedElements(orgs);
    MemberLinesOf(os);
    StatementLines(MemberStatements(os))
  }

  function MemberStatements(os: seq<string>): (ps: seq<string>)
    ensures |ps| == |os| && forall i | 0 <= i < |os| :: ps[i] == MemberStatement(os[i])
  {
    seq(|os|, i requires 0 <= i < |os| => MemberStatement(os[i]))
  }

  lemma MemberLinesOf(os: seq<string>)
    ensures var ls := StatementLines(MemberStatements(os));
      && |ls| == |os|
      && (forall i | 0 <= i < |os| - 1 :: ls[i] == "   " + MemberStatement(os[i]) + " ;")
      && (|os| > 0 ==> ls[|os| - 1] == "   " + MemberStatement(os[|os| - 1]) + " .")
  {
  }

  /** How the pass reads a line: it opens the block of a project, it may
      terminate the open block, or it is plain text. */
  datatype Kind = Opening(key: string) | Terminator | Plain

  datatype Line = Line(text: string, kind: Kind)

  function KindOf(line: string): (k: Kind)
    ensures k.Opening? <==> Opens(line)
    ensures k.Opening? ==> k.key == BlockKey(line)
    ensures k.Terminator? <==> !Opens(line) && Closes(line)
  {
    if Opens(line) then Opening(BlockKey(line))
    else if Closes(line) then Terminator
    else Plain
  }

  function Classify(lines: seq<string>): (ls: seq<Line>)
    ensures |ls| == |lines|
    ensures forall i | 0 <= i < |lines| :: ls[i] == Line(lines[i], KindOf(lines[i]))
  {
    seq(|lines|, i requires 0 <= i < |lines| => Line(lines[i], KindOf(lines[i])))
  }

  /** What one line becomes given the key of the open block: only a
      terminator met while a mapped block is open changes. */
  function Out(l: Line, cur: Option<string>, m: map<string, set<string>>): seq<string> {
    match l.kind
    case Terminator =>
      if Truthy(cur) && cur.value in m then [Reopen(l.text)] + MemberLines(m[cur.value]) else [l.text]
    case _ => [l.text]
  }

  /** The key of the open block after reading one line: an opening line
      sets it, a terminator met while a block is open clears it. */
  function Next(cur: Option<string>, l: Line): Option<string> {
    match l.kind
    case Opening(k) => Some(k)
    case Terminator => if Truthy(cur) then None else cur
    case Plain => cur
  }

  /** The loop body over the classified lines. */
  function Pass(ls: seq<Line>, m: map<string, set<string>>, cur: Option<string>): seq<string>
    decreases |ls|
  {
    if |ls| == 0 then []
    else Out(ls[0], cur, m) + Pass(ls[1..], m, Next(cur, ls[0]))
  }

  /** Every line gives at least itself, and exactly one member line is
      added per organization of every mapped block whose terminator is met. */
  lemma {:induction false} PassLength(ls: seq<Line>, m: map<string, set<string>>, cur: Option<string>)
    ensures |Pass(ls, m, cur)| == |ls| + Added(ClosedKeys(ls, cur), m)
  {
    if |ls| > 0 {
      PassLength(ls[1..], m, Next(cur, ls[0]));
      ClosedKeysCons(ls, cur, m);
    }
  }

  /** The keys of the first line and of the rest, and what one line adds. */
  lemma ClosedKeysCons(ls: seq<Line>, cur: Option<string>, m: map<string, set<string>>)
    requires |ls| > 0
    ensures var closes := ls[0].kind.Terminator? && Truthy(cur);
      && Added(ClosedKeys(ls, cur), m)
         == (if closes && cur.value in m then |m[cur.value]| else 0) + Added(ClosedKeys(ls[1..], Next(cur, ls[0])), m)
      && |Out(ls[0], cur, m)| == 1 + (if closes && cur.value in m then |m[cur.value]| else 0)
  {
    var ks := ClosedKeys(ls, cur);
    var tail := ClosedKeys(ls[1..], Next(cur, ls[0]));
    if ls[0].kind.Terminator? && Truthy(cur) {
      assert ks == [cur.value] + tail;
      assert ks[1..] == tail;
    } else {
      assert ks == tail;
    }
  }

  /** The loop over the lines of the main file, with `cur` the key of the
      open project block, if any: no line is lost, and one member line is
      added per organization of every mapped block closed. */
  function Rewrite(lines: seq<string>, m: map<string, set<string>>, cur: Option<string>): (r: seq<string>)
    ensures |r| == |lines| + Added(ClosedKeys(Classify(lines), cur), m)
  {
    PassLength(Classify(lines), m, cur);
    Pass(Classify(lines), m, cur)
  }

  lemma PassCons(l: Line, rest: seq<Line>, m: map<string, set<string>>, cur: Option<string>)
    ensures Pass([l] + rest, m, cur) == Out(l, cur, m) + Pass(rest, m, Next(cur, l))
  {
    assert ([l] + rest)[1..] == rest;
  }

  function Texts(ls: seq<Line>): (ts: seq<string>)
    ensures |ts| == |ls| && forall i | 0 <= i < |ls| :: ts[i] == ls[i].text
  {
    seq(|ls|, i requires 0 <= i < |ls| => ls[i].text)
  }

  /** Plain lines pass through unchanged and leave the open block as it is. */
  lemma {:induction false} PassPlain(mid: seq<Line>, rest: seq<Line>, m: map<string, set<string>>, cur: Option<string>)
    requires forall i | 0 <= i < |mid| :: mid[i].kind.Plain?
    ensures Pass(mid + rest, m, cur) == Texts(mid) + Pass(rest, m, cur)
  {
    if |mid| > 0 {
      var h, t := mid[0], mid[1..];
      PassPlain(t, rest, m, cur);
      assert Pass(mid + rest, m, cur) == [h.text] + Pass(t + rest, m, cur) by {
        assert (mid + rest)[0] == h;
        assert (mid + rest)[1..] == t + rest;
        assert Out(h, cur, m) == [h.text] && Next(cur, h) == cur;
      }
      TextsCons(mid);
      AppendAssoc([h.text], Texts(t), Pass(rest, m, cur));
    } else {
      assert mid + rest == rest;
    }
  }

  lemma TextsCons(ls: seq<Line>)
    requires |ls| > 0
    ensures Texts(ls) == [ls[0].text] + Texts(ls[1..])
  {
  }

  /** Lines that neither open nor close a block. */
  predicate Quiet(line: string) {
    !Opens(line) && !Closes(line)
  }

  /** What a terminator of the block `key` becomes. */
  function TerminatorOut(term: string, key: string, m: map<string, set<string>>): (ls: seq<string>)
    ensures key !in m ==> ls == [term]
    ensures key in m ==> |ls| == 1 + |m[key]| && ls[0] == Reopen(term)
  {
    if key in m then [Reopen(term)] + MemberLines(m[key]) else [term]
  }

  /** One project block: its opening line, the statements up to the first
      line ending ` .`, and that terminator, which is reopened and followed
      by the member lines when the project is mapped and kept otherwise;
      the block is closed afterwards either way. */
  lemma RewriteBlock(open: string, mid: seq<string>, term: string, rest: seq<string>,
                     m: map<string, set<string>>, cur: Option<string>)
    requires Opens(open) && !Opens(term) && Closes(term)
    requires forall i | 0 <= i < |mid| :: Quiet(mid[i])
    ensures Rewrite([open] + mid + [term] + rest, m, cur)
         == [open] + mid + TerminatorOut(term, BlockKey(open), m) + Rewrite(rest, m, None)
  {
    var key := BlockKey(open);
    OpenKey(open);
    var o := Line(open, Opening(key));
    var t := Line(term, Terminator);
    ClassifyBlock(open, mid, term, rest);
    ClassifyQuiet(mid);
    PassBlock(o, Classify(mid), t, Classify(rest), m, cur);
  }

  lemma ClassifyBlock(open: string, mid: seq<string>, term: string, rest: seq<string>)
    requires Opens(open) && !Opens(term) && Closes(term)
    ensures Classify([open] + mid + [term] + rest)
         == [Line(open, Opening(BlockKey(open)))] + Classify(mid) + [Line(term, Terminator)] + Classify(rest)
  {
    ClassifyAppend([open] + mid + [term], rest);
    ClassifyAppend([open] + mid, [term]);
    ClassifyAppend([open], mid);
    assert Classify([open]) == [Line(open, Opening(BlockKey(open)))];
    assert Classify([term]) == [Line(term, Terminator)];
  }

  lemma ClassifyQuiet(mid: seq<string>)
    requires forall i | 0 <= i < |mid| :: Quiet(mid[i])
    ensures forall i | 0 <= i < |mid| :: Classify(mid)[i].kind.Plain?
    ensures Texts(Classify(mid)) == mid
  {
  }

  lemma ClassifyAppend(a: seq<string>, b: seq<string>)
    ensures Classify(a + b) == Classify(a) + Classify(b)
  {
    var l := Classify(a + b);
    var r := Classify(a) + Classify(b);
    forall i | 0 <= i < |l| ensures l[i] == r[i] {
      if i >= |a| {
        assert (a + b)[i] == b[i - |a|];
      }
    }
  }

  lemma PassBlock(o: Line, cm: seq<Line>, t: Line, cr: seq<Line>, m: map<string, set<string>>, cur: Option<string>)
    requires o.kind.Opening? && o.kind.key != "" && t.kind.Terminator?
    requires forall i | 0 <= i < |cm| :: cm[i].kind.Plain?
    ensures Pass([o] + cm + [t] + cr, m, cur)
         == [o.text] + Texts(cm) + TerminatorOut(t.text, o.kind.key, m) + Pass(cr, m, None)
  {
    var key := o.kind.key;
    var tail := [t] + cr;
    assert [o] + cm + [t] + cr == [o] + (cm + tail);
    PassCons(o, cm + tail, m, cur);
    assert Out(o, cur, m) == [o.text] && Next(cur, o) == Some(key);
    PassPlain(cm, tail, m, Some(key));
    PassCons(t, cr, m, Some(key));
    assert Out(t, Some(key), m) == TerminatorOut(t.text, key, m) && Next(Some(key), t) == None;
    var a, b, c, d := [o.text], Texts(cm), TerminatorOut(t.text, key, m), Pass(cr, m, None);
    AppendAssoc(a, b, c + d);
    AppendAssoc(a + b, c, d);
  }

  /** When no block that can close is mapped, the pass changes nothing;
      in particular an empty map leaves the file as it is. */
  lemma RewriteUnmapped(lines: seq<string>, m: map<string, set<string>>, cur: Option<string>)
    requires forall i | 0 <= i < |lines| :: Opens(lines[i]) ==> BlockKey(lines[i]) !in m
    requires cur.Some? ==> cur.value !in m
    ensures Rewrite(lines, m, cur) == lines
  {
    PassUnmapped(Classify(lines), m, cur);
  }

  lemma {:induction false} PassUnmapped(ls: seq<Line>, m: map<string, set<string>>, cur: Option<string>)
    requires forall i | 0 <= i < |ls| :: ls[i].kind.Opening? ==> ls[i].kind.key !in m
    requires cur.Some? ==> cur.value !in m
    ensures Pass(ls, m, cur) == Texts(ls)
  {
    if |ls| > 0 {
      var next := Next(cur, ls[0]);
      assert next.Some? ==> next.value !in m;
      PassUnmapped(ls[1..], m, next);
      assert Out(ls[0], cur, m) == [ls[0].text];
      assert Pass(ls, m, cur) == [ls[0].text] + Pass(ls[1..], m, next);
      TextsCons(ls);
    }
  }

  /** The keys of the blocks whose terminator the pass meets, in order;
      they depend on the lines alone, not on the map. */
  function ClosedKeys(ls: seq<Line>, cur: Option<string>): seq<string>
    decreases |ls|
  {
    if |ls| == 0 then []
    else
      (if ls[0].kind.Terminator? && Truthy(cur) then [cur.value] else [])
      + ClosedKeys(ls[1..], Next(cur, ls[0]))
  }

  /** The number of member lines added for the given block keys. */
  function Added(keys: seq<string>, m: map<string, set<string>>): nat {
    if |keys| == 0 then 0
    else (if keys[0] in m then |m[keys[0]]| else 0) + Added(keys[1..], m)
  }

  /** The subject line the conversion writes for a project is an opening
      line whose key is the project URI, as long as the project number
      does not end with `>`. */
  lemma SubjectKey(num: string)
    requires |num| == 0 || num[|num| - 1] != '>'
    ensures Opens(Subject(ProjectUri(num)))
    ensures BlockKey(Subject(ProjectUri(num))) == ProjectUri(num)
  {
    var u := ProjectUri(num);
    var line := Subject(u);
    assert line == "<" + u + ">";
    StripTrimmed(line);
    assert StartsWith(line, ProjectLinePrefix) by {
      assert line[..|ProjectLinePrefix|] == "<" + ProjectNamespace;
    }
    var k := RStripChars(line, {'>'});
    assert line[|line| - 2] == u[|u| - 1] != '>';
    assert k == "<" + u;
    assert k[1..] == u;
  }

  /** A string whose ends are not white space strips to itself. */
  lemma StripTrimmed(s: string)
    requires |s| > 0 && !IsSpace(s[0]) && !IsSpace(s[|s| - 1])
    ensures Strip(s) == s
  {
    assert LStrip(s) == s;
  }

  // Assembly

  predicate IsDecl(line: string) {
    StartsWith(line, "@prefix")
  }

  /** `line.strip() == ''`, see `BlankIsStripEmpty`. */
  predicate IsBlank(line: string) {
    forall i | 0 <= i < |line| :: IsSpace(line[i])
  }

  lemma BlankIsStripEmpty(line: string)
    ensures IsBlank(line) <==> Strip(line) == ""
  {
    StripEmptyIff(line);
  }

  datatype Parts = Parts(prefix: seq<string>, content: seq<string>)

  /** The loop that splits the rewritten lines: `@prefix` lines always go
      to the prefix part, blank lines too until the first content line,
      everything else to the content part. */
  function SplitPrefix(lines: seq<string>, inContent: bool): (r: Parts)
    ensures |r.prefix| + |r.content| == |lines|
    ensures forall i | 0 <= i < |r.prefix| :: IsDecl(r.prefix[i]) || (!inContent && IsBlank(r.prefix[i]))
    ensures forall i | 0 <= i < |r.content| :: !IsDecl(r.content[i])
    ensures !inContent && |r.content| > 0 ==> !IsBlank(r.content[0])
    decreases |lines|
  {
    if |lines| == 0 then Parts([], [])
    else
      var l := lines[0];
      if IsDecl(l) || (!inContent && IsBlank(l)) then
        var r := SplitPrefix(lines[1..], inContent);
        Parts([l] + r.prefix, r.content)
      else
        var r := SplitPrefix(lines[1..], true);
        Parts(r.prefix, [l] + r.content)
  }

  function Decls(lines: seq<string>): seq<string> {
    if |lines| == 0 then [] else (if IsDecl(lines[0]) then [lines[0]] else []) + Decls(lines[1..])
  }

  function NonDecls(lines: seq<string>): seq<string> {
    if |lines| == 0 then [] else (if IsDecl(lines[0]) then [] else [lines[0]]) + NonDecls(lines[1..])
  }

  /** The index of the first line that is neither a declaration nor blank. */
  function FirstContent(lines: seq<string>): (k: nat)
    ensures k <= |lines|
  {
    if |lines| == 0 then 0
    else if IsDecl(lines[0]) || IsBlank(lines[0]) then 1 + FirstContent(lines[1..])
    else 0
  }

  /** The lines before the first content line are declarations or blank. */
  lemma {:induction false} FirstContentSpec(lines: seq<string>)
    ensures var k := FirstContent(lines);
      && (forall i | 0 <= i < k :: IsDecl(lines[i]) || IsBlank(lines[i]))
      && (k < |lines| ==> !IsDecl(lines[k]) && !IsBlank(lines[k]))
  {
    if |lines| > 0 && (IsDecl(lines[0]) || IsBlank(lines[0])) {
      FirstContentSpec(lines[1..]);
      forall i | 1 <= i < FirstContent(lines) ensures IsDecl(lines[i]) || IsBlank(lines[i]) {
        assert lines[i] == lines[1..][i - 1];
      }
    }
  }

  /** Once a content line has been seen the split is a filter. */
  lemma {:induction false} SplitInContent(lines: seq<string>)
    ensures SplitPrefix(lines, true) == Parts(Decls(lines), NonDecls(lines))
  {
    if |lines| > 0 {
      SplitInContent(lines[1..]);
    }
  }

  /** The prefix part is the leading run of declarations and blank lines
      followed by every later declaration; the content part is every other
      line, in order. No line is lost, and none is duplicated. */
  lemma {:induction false} SplitPrefixSpec(lines: seq<string>)
    ensures var k := FirstContent(lines);
      SplitPrefix(lines, false) == Parts(lines[..k] + Decls(lines[k..]), NonDecls(lines[k..]))
  {
    if |lines| > 0 {
      if IsDecl(lines[0]) || IsBlank(lines[0]) {
        SplitPrefixSpec(lines[1..]);
        SplitPrefixSkip(lines);
      } else {
        SplitInContent(lines[1..]);
        SplitPrefixStop(lines);
      }
    }
  }

  lemma SplitPrefixSkip(lines: seq<string>)
    requires |lines| > 0 && (IsDecl(lines[0]) || IsBlank(lines[0]))
    requires var k := FirstContent(lines[1..]);
      SplitPrefix(lines[1..], false) == Parts(lines[1..][..k] + Decls(lines[1..][k..]), NonDecls(lines[1..][k..]))
    ensures var k := FirstContent(lines);
      SplitPrefix(lines, false) == Parts(lines[..k] + Decls(lines[k..]), NonDecls(lines[k..]))
  {
    var l := lines[0];
    var rest := lines[1..];
    var k1 := FirstContent(rest);
    assert FirstContent(lines) == 1 + k1;
    var r := SplitPrefix(rest, false);
    SplitPrefixHead(lines);
    SkipAlgebra(lines, k1, r, Decls(rest[k1..]), NonDecls(rest[k1..]));
  }

  /** A leading declaration or blank line goes to the prefix part. */
  lemma SplitPrefixHead(lines: seq<string>)
    requires |lines| > 0 && (IsDecl(lines[0]) || IsBlank(lines[0]))
    ensures SplitPrefix(lines, false)
         == Parts([lines[0]] + SplitPrefix(lines[1..], false).prefix, SplitPrefix(lines[1..], false).content)
  {
  }

  lemma SkipAlgebra(lines: seq<string>, k: nat, r: Parts, d: seq<string>, n: seq<string>)
    requires k < |lines| && r == Parts(lines[1..][..k] + d, n)
    ensures Parts([lines[0]] + r.prefix, r.content) == Parts(lines[..k + 1] + d, n)
    ensures lines[k + 1..] == lines[1..][k..]
  {
    assert lines[..k + 1] == [lines[0]] + lines[1..][..k];
    AppendAssoc([lines[0]], lines[1..][..k], d);
  }


  lemma SplitPrefixStop(lines: seq<string>)
    requires |lines| > 0 && !IsDecl(lines[0]) && !IsBlank(lines[0])
    requires SplitPrefix(lines[1..], true) == Parts(Decls(lines[1..]), NonDecls(lines[1..]))
    ensures var k := FirstContent(lines);
      SplitPrefix(lines, false) == Parts(lines[..k] + Decls(lines[k..]), NonDecls(lines[k..]))
  {
    var l := lines[0];
    assert FirstContent(lines) == 0;
    assert SplitPrefix(lines, false) == Parts(Decls(lines[1..]), [l] + NonDecls(lines[1..]));
    assert Decls(lines) == Decls(lines[1..]);
    assert NonDecls(lines) == [l] + NonDecls(lines[1..]);
    assert lines[0..] == lines;
    assert lines[..0] == [];
  }

  lemma {:induction false} DeclsCount(lines: seq<string>)
    ensures |Decls(lines)| + |NonDecls(lines)| == |lines|
    ensures forall i | 0 <= i < |Decls(lines)| :: IsDecl(Decls(lines)[i])
    ensures forall i | 0 <= i < |NonDecls(lines)| :: !IsDecl(NonDecls(lines)[i])
  {
    if |lines| > 0 {
      DeclsCount(lines[1..]);
    }
  }

  /** Every line lands in exactly one of the two parts. */
  lemma {:induction false} DeclsPartition(lines: seq<string>)
    ensures multiset(Decls(lines)) + multiset(NonDecls(lines)) == multiset(lines)
  {
    if |lines| > 0 {
      DeclsPartition(lines[1..]);
      assert lines == [lines[0]] + lines[1..];
    }
  }

  const FoafPrefixLine: string := TurtleOutput.PrefixLine("foaf", "http://xmlns.com/" + "foaf/0.1/")

  /** `any('foaf:' in line for line in prefix_section)`. */
  predicate HasFoaf(prefix: seq<string>) {
    exists i | 0 <= i < |prefix| :: Contains(prefix[i], "foaf:")
  }

  /** `prefix_section.insert(-1, line)`: before the last line, or as the
      only line of an empty list. */
  function InsertBeforeLast(xs: seq<string>, x: string): (r: seq<string>)
    ensures |r| == |xs| + 1
    ensures |xs| == 0 ==> r == [x]
    ensures |xs| > 0 ==> r[..|xs| - 1] == xs[..|xs| - 1] && r[|xs| - 1] == x && r[|xs|] == xs[|xs| - 1]
  {
    if |xs| == 0 then [x] else xs[..|xs| - 1] + [x] + [xs[|xs| - 1]]
  }

  /** Add the foaf declaration unless some prefix line mentions `foaf:`.
      Afterwards a prefix line mentions `foaf:`; a line is added exactly
      when none did, and every old line is kept. */
  function AddFoafPrefix(prefix: seq<string>): (r: seq<string>)
    ensures HasFoaf(r)
    ensures HasFoaf(prefix) ==> r == prefix
    ensures !HasFoaf(prefix) ==> |r| == |prefix| + 1
    ensures forall i | 0 <= i < |prefix| :: prefix[i] in r
  {
    if HasFoaf(prefix) then prefix
    else
      var r := InsertBeforeLast(prefix, FoafPrefixLine);
      assert OccursAt(FoafPrefixLine, "foaf:", 8);
      assert r[if |prefix| == 0 then 0 else |prefix| - 1] == FoafPrefixLine;
      assert forall i | 0 <= i < |prefix| - 1 :: r[i] == r[..|prefix| - 1][i];
      r
  }

  /** A line of the profile file's leading header. */
  predicate Skippable(line: string) {
    StartsWith(line, "@prefix") || IsBlank(line) || StartsWith(line, "#")
  }

  /** The profile lines without the leading run of declarations, blank
      lines and comments; everything from the first other line on is kept. */
  function DropHeader(lines: seq<string>): (r: seq<string>)
    ensures |r| <= |lines| && r == lines[|lines| - |r|..]
    ensures forall i | 0 <= i < |lines| - |r| :: Skippable(lines[i])
    ensures |r| > 0 ==> !Skippable(r[0])
  {
    if |lines| == 0 then []
    else if Skippable(lines[0]) then DropHeader(lines[1..])
    else lines
  }

  const ProjectsComment: string := "# Projects with " + "datasets and " + "organization relationships"
  const ProfilesComment: string := "# Organization FOAF Profiles"

  /** The lines of the integrated file: every line of the rewritten main
      file once, four separator lines, at most one added `foaf` prefix
      line, and the profiles without their header at the end, after the
      profiles comment. */
  function IntegratedLines(main: seq<string>, profiles: seq<string>, m: map<string, set<string>>): (ls: seq<string>)
    ensures var n := |main| + Added(ClosedKeys(Classify(main), None), m) + 4 + |DropHeader(profiles)|;
      n <= |ls| <= n + 1
    ensures var tail := DropHeader(profiles);
      |ls| > |tail| && ls[|ls| - |tail|..] == tail && ls[|ls| - |tail| - 1] == ProfilesComment
  {
    IntegratedCount(main, profiles, m);
    var parts := SplitPrefix(Rewrite(main, m, None), false);
    AddFoafPrefix(parts.prefix) + ["", ProjectsComment] + parts.content + ["", ProfilesComment]
    + DropHeader(profiles)
  }

  lemma IntegratedCount(main: seq<string>, profiles: seq<string>, m: map<string, set<string>>)
    ensures var parts := SplitPrefix(Rewrite(main, m, None), false);
      var ls := AddFoafPrefix(parts.prefix) + ["", ProjectsComment] + parts.content + ["", ProfilesComment]
        + DropHeader(profiles);
      var n := |main| + Added(ClosedKeys(Classify(main), None), m) + 4 + |DropHeader(profiles)|;
      var tail := DropHeader(profiles);
      && n <= |ls| <= n + 1
      && |ls| > |tail| && ls[|ls| - |tail|..] == tail && ls[|ls| - |tail| - 1] == ProfilesComment
  {
    var parts := SplitPrefix(Rewrite(main, m, None), false);
    IntegratedShape(AddFoafPrefix(parts.prefix), parts.content, DropHeader(profiles));
  }

  lemma IntegratedShape(prefix: seq<string>, content: seq<string>, tail: seq<string>)
    ensures var ls := prefix + ["", ProjectsComment] + content + ["", ProfilesComment] + tail;
      && |ls| == |prefix| + |content| + 4 + |tail|
      && ls[|ls| - |tail|..] == tail && ls[|ls| - |tail| - 1] == ProfilesComment
  {
    var front := prefix + ["", ProjectsComment] + content + [""];
    assert prefix + ["", ProjectsComment] + content + ["", ProfilesComment] == front + [ProfilesComment];
    TurtleOutput.Assembled(front + [ProfilesComment] + tail, front, [], ProfilesComment, tail);
  }

  /** The last row adds its pair to the map of the rows before it, and
      some row raises exactly when an earlier one or the last one does. */
  lemma MappingsLast(rows: seq<Row>)
    requires |rows| > 0
    ensures var m := OrgMap(rows[..|rows| - 1]); var p := Pair(rows[|rows| - 1]);
      OrgMap(rows) == if p.None? then m else m[p.value.0 := (if p.value.0 in m then m[p.value.0] else {}) + {p.value.1}]
    ensures SomeRowRaises(rows) <==> SomeRowRaises(rows[..|rows| - 1]) || PairRaises(rows[|rows| - 1])
  {
    var pre := rows[..|rows| - 1];
    assert Pairs(rows)[..|rows| - 1] == Pairs(pre);
    assert forall i | 0 <= i < |pre| :: pre[i] == rows[i];
  }

  /** `integrate_turtle_files` on the texts of the two files and the rows of
      the spreadsheet: the text written back to the projects file, or the
      error of the mapping. */
  function IntegrateTurtleFiles(mainText: string, orgText: string, rows: seq<Row>): (r: Result<string>)
    ensures r.Failure? <==> SomeRowRaises(rows)
    ensures r.Success? ==>
      Split(r.value, '\n') == IntegratedLines(Split(mainText, '\n'), Split(orgText, '\n'), OrgMap(rows))
  {
    match Mappings(rows)
    case Failure(e) => Failure(e)
    case Success(m) =>
      IntegratedSplits(Split(mainText, '\n'), Split(orgText, '\n'), rows);
      Success(Join(IntegratedLines(Split(mainText, '\n'), Split(orgText, '\n'), m), '\n'))
  }

  // Reading the result back

  predicate NoBreaks(ls: seq<string>) {
    forall i | 0 <= i < |ls| :: '\n' !in ls[i]
  }

  predicate MapNoBreaks(m: map<string, set<string>>) {
    forall k, o | k in m && o in m[k] :: '\n' !in o
  }

  lemma UriNoBreak(name: string)
    ensures '\n' !in OrganizationUri(name)
  {
    SlugShape(name);
    var g := Slug(name);
    assert '\n' !in g by {
      forall i | 0 <= i < |g| ensures g[i] != '\n' {
        assert SlugChar(g[i]);
      }
    }
    NamespaceNoBreak();
    assert OrganizationUri(name) == OrganizationNamespace + g;
  }

  lemma NamespaceNoBreak()
    ensures '\n' !in OrganizationNamespace
  {
    assert '\n' !in "https://w3id.org/" && '\n' !in "odissei/ns/kg/cbs/" && '\n' !in "organization/";
  }

  /** Every organization in the map of the rows is a slug URI. */
  lemma OrgMapNoBreaks(rows: seq<Row>)
    ensures MapNoBreaks(OrgMap(rows))
  {
    forall k, o | k in OrgMap(rows) && o in OrgMap(rows)[k] ensures '\n' !in o {
      OrgMapContents(rows, k);
      var i :| 0 <= i < |rows| && Links(rows[i], k) && o == OrganizationUri(rows[i].institution.text);
      UriNoBreak(rows[i].institution.text);
    }
  }

  lemma MemberLinesNoBreaks(orgs: set<string>)
    requires forall o | o in orgs :: '\n' !in o
    ensures NoBreaks(MemberLines(orgs))
  {
    var os := SortedElements(orgs);
    var ps := seq(|os|, i requires 0 <= i < |os| => MemberStatement(os[i]));
    forall i | 0 <= i < |ps| ensures '\n' !in ps[i] {
      assert os[i] in orgs;
      MemberStatementNoBreak(os[i]);
    }
    StatementLinesAvoid(ps, '\n');
  }

  lemma MemberStatementNoBreak(o: string)
    requires '\n' !in o
    ensures '\n' !in MemberStatement(o)
  {
    assert '\n' !in "foaf:member <" && '\n' !in ">";
  }

  lemma ReopenNoBreak(t: string)
    requires '\n' !in t
    ensures '\n' !in Reopen(t)
  {
    var r := Reopen(t);
    var j := |r| - 2;
    assert r == r[..j] + r[j..];
    assert r[j..] == " ;";
    assert r[..j] == t[..j];
    assert forall c | c in t[..j] :: c in t;
  }

  lemma OutNoBreaks(l: Line, cur: Option<string>, m: map<string, set<string>>)
    requires '\n' !in l.text && MapNoBreaks(m)
    ensures NoBreaks(Out(l, cur, m))
  {
    if l.kind.Terminator? && Truthy(cur) && cur.value in m {
      ReopenNoBreak(l.text);
      MemberLinesNoBreaks(m[cur.value]);
      NoBreaksAppend([Reopen(l.text)], MemberLines(m[cur.value]));
    }
  }

  lemma {:induction false} PassNoBreaks(ls: seq<Line>, m: map<string, set<string>>, cur: Option<string>)
    requires forall i | 0 <= i < |ls| :: '\n' !in ls[i].text
    requires MapNoBreaks(m)
    ensures NoBreaks(Pass(ls, m, cur))
  {
    if |ls| > 0 {
      OutNoBreaks(ls[0], cur, m);
      PassNoBreaks(ls[1..], m, Next(cur, ls[0]));
    }
  }

  lemma {:induction false} SplitNoBreaks(lines: seq<string>, inContent: bool)
    requires NoBreaks(lines)
    ensures NoBreaks(SplitPrefix(lines, inContent).prefix) && NoBreaks(SplitPrefix(lines, inContent).content)
  {
    if |lines| > 0 {
      SplitNoBreaks(lines[1..], inContent);
      SplitNoBreaks(lines[1..], true);
    }
  }

  lemma FoafNoBreaks(prefix: seq<string>)
    requires NoBreaks(prefix)
    ensures NoBreaks(AddFoafPrefix(prefix))
  {
    FoafLineNoBreak();
    var r := AddFoafPrefix(prefix);
    if !HasFoaf(prefix) && |prefix| > 0 {
      forall i | 0 <= i < |r| ensures '\n' !in r[i] {
        if i < |prefix| - 1 {
          assert r[i] == r[..|prefix| - 1][i] == prefix[i];
        } else if i == |prefix| {
          assert r[i] == prefix[|prefix| - 1];
        }
      }
    }
  }

  /** Splitting the written text at newlines gives back exactly the
      assembled lines: no line of the result spans two lines of the file. */
  lemma IntegratedSplits(main: seq<string>, profiles: seq<string>, rows: seq<Row>)
    requires NoBreaks(main) && NoBreaks(profiles)
    ensures Split(Join(IntegratedLines(main, profiles, OrgMap(rows)), '\n'), '\n') == IntegratedLines(main, profiles, OrgMap(rows))
  {
    OrgMapNoBreaks(rows);
    IntegratedNoBreaks(main, profiles, OrgMap(rows));
    SplitJoin(IntegratedLines(main, profiles, OrgMap(rows)), '\n');
  }

  /** Lines free of newlines, rewritten and assembled, stay free of them. */
  lemma IntegratedNoBreaks(main: seq<string>, profiles: seq<string>, m: map<string, set<string>>)
    requires NoBreaks(main) && NoBreaks(profiles) && MapNoBreaks(m)
    ensures NoBreaks(IntegratedLines(main, profiles, m))
  {
    PassNoBreaks(Classify(main), m, None);
    var rw := Rewrite(main, m, None);
    SplitNoBreaks(rw, false);
    var parts := SplitPrefix(rw, false);
    FoafNoBreaks(parts.prefix);
    var dropped := DropHeader(profiles);
    DropHeaderNoBreaks(profiles);
    AssembledNoBreaks(AddFoafPrefix(parts.prefix), parts.content, dropped);
  }

  lemma DropHeaderNoBreaks(profiles: seq<string>)
    requires NoBreaks(profiles)
    ensures NoBreaks(DropHeader(profiles))
  {
    var dropped := DropHeader(profiles);
    forall i | 0 <= i < |dropped| ensures '\n' !in dropped[i] {
      assert dropped[i] == profiles[|profiles| - |dropped| + i];
    }
  }

  lemma FoafLineNoBreak()
    ensures '\n' !in FoafPrefixLine
  {
    assert '\n' !in "@prefix " && '\n' !in "foaf" && '\n' !in ": <";
    assert '\n' !in "http://xmlns.com/" && '\n' !in "foaf/0.1/" && '\n' !in "> .";
  }

  lemma AssembledNoBreaks(prefix: seq<string>, content: seq<string>, profiles: seq<string>)
    requires NoBreaks(prefix) && NoBreaks(content) && NoBreaks(profiles)
    ensures NoBreaks(prefix + ["", ProjectsComment] + content + ["", ProfilesComment] + profiles)
  {
    CommentsNoBreak();
    var c1 := ["", ProjectsComment];
    var c2 := ["", ProfilesComment];
    assert NoBreaks(c1) && NoBreaks(c2);
    NoBreaksAppend(prefix, ["", ProjectsComment]);
    NoBreaksAppend(prefix + ["", ProjectsComment], content);
    NoBreaksAppend(prefix + ["", ProjectsComment] + content, ["", ProfilesComment]);
    NoBreaksAppend(prefix + ["", ProjectsComment] + content + ["", ProfilesComment], profiles);
  }

  lemma CommentsNoBreak()
    ensures '\n' !in ProjectsComment && '\n' !in ProfilesComment
  {
    ProjectsCommentNoBreak();
    ProfilesCommentNoBreak();
  }

  lemma ProjectsCommentNoBreak()
    ensures '\n' !in ProjectsComment
  {
    assert '\n' !in "# Projects with " && '\n' !in "datasets and ";
    assert '\n' !in "organization relationships";
  }

  lemma ProfilesCommentNoBreak()
    ensures '\n' !in ProfilesComment
  {
    assert ProfilesComment == "# Organization " + "FOAF Profiles";
  }

  lemma NoBreaksAppend(a: seq<string>, b: seq<string>)
    requires NoBreaks(a) && NoBreaks(b)
    ensures NoBreaks(a + b)
  {
    forall i | 0 <= i < |a + b| ensures '\n' !in (a + b)[i] {
      if i >= |a| {
        assert (a + b)[i] == b[i - |a|];
      }
    }
  }
}
