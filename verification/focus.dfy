/** `replace_foaf_focus_with_schema_types`: every `foaf:focus "v"` whose
    value `v` is one of five organization type names becomes
    `rdf:type` and the matching schema.org class; other matches and all
    other text are copied. The pass reports how many focus statements it
    found, how many `rdf:type schema:…` statements the result holds and how
    many focus statements are left. Reading and writing the file, the
    value histograms and the console messages are not modelled. */
module FocusTypes {
  import opened Wrappers
  import opened Text
  import opened Scanner
  import OrganizationLookup

  const Keyword: string := "foaf:focus"

  const SchemaPrefix: string := "schema:"

  /** `value_mapping`. */
  const ValueMapping: map<string, string> := map[
    "Educational Institution" := SchemaPrefix + "Educational" + "Organization",
    "Organization" := SchemaPrefix + "Organization",
    "Research Institute" := SchemaPrefix + "Research" + "Organization",
    "Private Company" := SchemaPrefix + "Corporation",
    "Government Agency" := SchemaPrefix + "Government" + "Organization"
  ]

  predicate Mapped(m: Match) {
    m.value in ValueMapping
  }

  /** What `replace_focus` returns for a match: the type statement, with
      the keyword's white space collapsed to one space, or the match
      itself when its value has no class. */
  function Replacement(m: Match): string {
    if Mapped(m) then "rdf:type " + ValueMapping[m.value] else HitText(Keyword, m)
  }

  function FocusRender(ps: seq<Piece>): string {
    if |ps| == 0 then ""
    else
      (match ps[0]
       case Plain(t) => t
       case Hit(m) => Replacement(m)) + FocusRender(ps[1..])
  }

  /** `re.sub(pattern, replace_focus, content)`. */
  function ReplaceFocus(content: string): string {
    FocusRender(Scan(content, Keyword))
  }

  /** The matches whose value has no class, in order. */
  function Unmapped(ms: seq<Match>): (r: seq<Match>)
    ensures |r| <= |ms|
    ensures forall i | 0 <= i < |r| :: !Mapped(r[i]) && r[i] in ms
    ensures forall m | m in ms && !Mapped(m) :: m in r
  {
    if |ms| == 0 then []
    else if Mapped(ms[0]) then Unmapped(ms[1..])
    else [ms[0]] + Unmapped(ms[1..])
  }

  /** The selection is a filter: each match is kept or dropped on its own,
      so the kept matches keep their order and their repetitions. */
  lemma {:induction false} UnmappedAppend(a: seq<Match>, b: seq<Match>)
    ensures Unmapped(a + b) == Unmapped(a) + Unmapped(b)
  {
    if |a| > 0 {
      assert (a + b)[0] == a[0];
      assert (a + b)[1..] == a[1..] + b;
      UnmappedAppend(a[1..], b);
      if !Mapped(a[0]) {
        AppendAssoc([a[0]], Unmapped(a[1..]), Unmapped(b));
      }
    } else {
      assert a + b == b;
    }
  }

  /** One match is kept exactly when its value has no class. */
  lemma UnmappedOne(m: Match)
    ensures Unmapped([m]) == if Mapped(m) then [] else [m]
  {
    assert [m][1..] == [];
  }

  // The mapping

  /** The keys are exactly the organization types the lookup assigns. */
  lemma MappingKeys(v: string)
    ensures v in ValueMapping <==> exists k :: OrganizationLookup.OrgTypeText(k) == v
  {
    if v in ValueMapping {
      if v == "Educational Institution" {
        assert OrganizationLookup.OrgTypeText(OrganizationLookup.EducationalInstitution) == v;
      } else if v == "Organization" {
        assert OrganizationLookup.OrgTypeText(OrganizationLookup.PlainOrganization) == v;
      } else if v == "Research Institute" {
        assert OrganizationLookup.OrgTypeText(OrganizationLookup.ResearchInstitute) == v;
      } else if v == "Private Company" {
        assert OrganizationLookup.OrgTypeText(OrganizationLookup.PrivateCompany) == v;
      } else {
        assert OrganizationLookup.OrgTypeText(OrganizationLookup.GovernmentAgency) == v;
      }
    }
    forall k | OrganizationLookup.OrgTypeText(k) == v ensures v in ValueMapping {
      match k
      case EducationalInstitution =>
      case GovernmentAgency =>
      case ResearchInstitute =>
      case PrivateCompany =>
      case PlainOrganization =>
    }
  }

  /** The mapping has five keys: the five texts differ in length. */
  lemma MappingSize()
    ensures |ValueMapping| == 5
  {
    assert |"Educational Institution"| == 23 && |"Organization"| == 12;
    assert |"Research Institute"| == 18 && |"Private Company"| == 15 && |"Government Agency"| == 17;
  }

  /** No class name holds the letter `f`: a written type statement cannot
      hold the keyword. */
  lemma ClassesWithoutF()
    ensures forall v | v in ValueMapping :: StartsWith(ValueMapping[v], SchemaPrefix) && 'f' !in ValueMapping[v]
  {
    assert 'f' !in SchemaPrefix && 'f' !in "Educational" && 'f' !in "Organization";
    assert 'f' !in "Research" && 'f' !in "Government" && 'f' !in "Corporation";
  }

  // Scanning the output

  lemma FocusRenderPlainHit(t: string, m: Match, ps: seq<Piece>)
    ensures FocusRender([Plain(t), Hit(m)] + ps) == t + Replacement(m) + FocusRender(ps)
  {
    var all := [Plain(t), Hit(m)] + ps;
    assert all[1..] == [Hit(m)] + ps;
    assert all[1..][1..] == ps;
  }

  lemma FocusAt(t: string, m: Match, rest: string)
    requires IsHit(m)
    requires MissesBefore(t + HitText(Keyword, m) + rest, Keyword, |t|)
    ensures ReplaceFocus(t + HitText(Keyword, m) + rest) == t + Replacement(m) + ReplaceFocus(rest)
  {
    ScanAt(t, Keyword, m, rest);
    FocusRenderPlainHit(t, m, Scan(rest, Keyword));
  }

  lemma FocusNone(s: string)
    requires MissesBefore(s, Keyword, |s|)
    ensures ReplaceFocus(s) == s
  {
    ScanNone(s, Keyword);
    assert FocusRender([Plain(s)]) == s + FocusRender([]);
  }

  /** The keyword starts at no position of a type statement, whatever
      follows it: its only `f` is followed by `:`. */
  lemma NoKeywordInType(cls: string, i: nat, z: string, w: string)
    requires 'f' !in cls
    requires i < 9 + |cls|
    requires w == ("rdf:type " + cls)[i..] + z
    ensures MatchAt(w, Keyword).None?
  {
    var r := "rdf:type " + cls;
    assert "rdf:type " == "rd" + "f" + ":type ";
    assert 'f' !in "rd" && 'f' !in ":type ";
    assert w[0] == r[i];
    if i == 2 {
      assert w[1] == r[3] == ':';
    }
    KeywordLetters();
  }

  /** No match starts before the end of a written type statement. */
  lemma MappedMisses(t: string, m: Match, rest: string)
    requires IsHit(m) && Mapped(m)
    requires MissesBefore(t + HitText(Keyword, m) + rest, Keyword, |t|)
    ensures MissesBefore(t + Replacement(m) + ReplaceFocus(rest), Keyword, |t + Replacement(m)|)
  {
    var r, f := Replacement(m), ReplaceFocus(rest);
    MappedMissesFront(t, m, rest);
    MappedMissesType(t, m, f);
    assert t + r + f == t + (r + f);
  }

  /** No match starts in `t` once the match after it is replaced: the
      type statement starts with `r`, which is not in the keyword. */
  lemma MappedMissesFront(t: string, m: Match, rest: string)
    requires IsHit(m) && Mapped(m)
    requires MissesBefore(t + HitText(Keyword, m) + rest, Keyword, |t|)
    ensures MissesBefore(t + (Replacement(m) + ReplaceFocus(rest)), Keyword, |t|)
  {
    var r := Replacement(m);
    var x := HitText(Keyword, m) + rest;
    assert t + x == t + HitText(Keyword, m) + rest;
    assert x[|Keyword| + |m.gap|] == '"';
    assert r[0] == 'r';
    KeywordLetters();
    MissesKeptForeign(t, x, r + ReplaceFocus(rest), Keyword);
  }

  lemma KeywordLetters()
    ensures 'r' !in Keyword && Keyword[0] == 'f' && Keyword[1] == 'o'
  {
    assert Keyword == "foaf:" + "focus";
  }

  /** No match starts inside a written type statement. */
  lemma MappedMissesType(t: string, m: Match, f: string)
    requires IsHit(m) && Mapped(m)
    ensures forall p | |t| <= p < |t| + |Replacement(m)| :: MatchAt((t + (Replacement(m) + f))[p..], Keyword).None?
  {
    forall p | |t| <= p < |t| + |Replacement(m)|
      ensures MatchAt((t + (Replacement(m) + f))[p..], Keyword).None?
    {
      MappedMissAt(t, m, f, p);
    }
  }

  lemma MappedMissAt(t: string, m: Match, f: string, p: int)
    requires Mapped(m) && |t| <= p < |t| + |Replacement(m)|
    ensures MatchAt((t + (Replacement(m) + f))[p..], Keyword).None?
  {
    ClassesWithoutF();
    var cls := ValueMapping[m.value];
    var r := Replacement(m);
    assert 'f' !in cls;
    assert r == "rdf:type " + cls;
    SuffixFromMiddle(t, r, f, p);
    NoKeywordInType(cls, p - |t|, f, (t + (r + f))[p..]);
  }

  lemma SuffixFromMiddle(t: string, r: string, f: string, p: int)
    requires |t| <= p < |t| + |r|
    ensures (t + (r + f))[p..] == r[p - |t|..] + f
  {
  }

  /** No match starts before an unmapped match that is copied. */
  lemma UnmappedMisses(t: string, m: Match, rest: string)
    requires MissesBefore(t + HitText(Keyword, m) + rest, Keyword, |t|)
    ensures MissesBefore(t + HitText(Keyword, m) + ReplaceFocus(rest), Keyword, |t|)
  {
    var pre := Keyword + m.gap + "\"";
    var f := ReplaceFocus(rest);
    var x, y := HitText(Keyword, m) + rest, HitText(Keyword, m) + f;
    HitTextOpens(Keyword, m, rest);
    HitTextOpens(Keyword, m, f);
    AppendAssoc(t, HitText(Keyword, m), rest);
    MissesKept(t, x, y, Keyword, pre);
    AppendAssoc(t, HitText(Keyword, m), f);
  }

  /** The focus statements left in the output are exactly the input's
      unmapped ones, in order: a written type statement never reads as a
      focus statement, and the copied ones are found again. */
  lemma {:induction false} FindallReplaceFocus(s: string)
    ensures Findall(ReplaceFocus(s), Keyword) == Unmapped(Findall(s, Keyword))
    decreases |s|
  {
    if NextHit(s, Keyword) == |s| {
      ScanNone(s, Keyword);
      FocusNone(s);
    } else {
      var t, m, rest := FirstHit(s, Keyword);
      FindallReplaceFocus(rest);
      FindallFocusStep(t, m, rest);
    }
  }

  lemma FindallFocusStep(t: string, m: Match, rest: string)
    requires IsHit(m)
    requires MissesBefore(t + HitText(Keyword, m) + rest, Keyword, |t|)
    requires Findall(ReplaceFocus(rest), Keyword) == Unmapped(Findall(rest, Keyword))
    ensures Findall(ReplaceFocus(t + HitText(Keyword, m) + rest), Keyword)
         == Unmapped(Findall(t + HitText(Keyword, m) + rest, Keyword))
  {
    FocusAt(t, m, rest);
    FindallAt(t, Keyword, m, rest);
    var f := ReplaceFocus(rest);
    assert Unmapped([m] + Findall(rest, Keyword)) == (if Mapped(m) then [] else [m]) + Unmapped(Findall(rest, Keyword)) by {
      assert ([m] + Findall(rest, Keyword))[1..] == Findall(rest, Keyword);
    }
    if Mapped(m) {
      MappedMisses(t, m, rest);
      FindallSkip(t + Replacement(m), f, Keyword);
    } else {
      UnmappedMisses(t, m, rest);
      FindallAt(t, Keyword, m, f);
    }
  }

  /** Rendering pieces none of whose matches has a class copies them. */
  lemma {:induction false} FocusRenderUnmapped(ps: seq<Piece>)
    requires forall i | 0 <= i < |Matches(ps)| :: !Mapped(Matches(ps)[i])
    ensures FocusRender(ps) == Render(Keyword, ps)
  {
    if |ps| > 0 {
      if ps[0].Hit? {
        assert Matches(ps) == [ps[0].m] + Matches(ps[1..]);
        assert Matches(ps)[0] == ps[0].m;
        assert forall i | 0 <= i < |Matches(ps[1..])| :: Matches(ps[1..])[i] == Matches(ps)[i + 1];
      } else {
        assert Matches(ps) == Matches(ps[1..]);
      }
      FocusRenderUnmapped(ps[1..]);
    }
  }

  /** A text whose focus statements all lack a class is left as it is. */
  lemma ReplaceFocusUnmapped(s: string)
    requires forall i | 0 <= i < |Findall(s, Keyword)| :: !Mapped(Findall(s, Keyword)[i])
    ensures ReplaceFocus(s) == s
  {
    assert Findall(s, Keyword) == Matches(Scan(s, Keyword));
    FocusRenderUnmapped(Scan(s, Keyword));
    RenderScan(s, Keyword);
  }

  /** Running the pass on its own output changes nothing. */
  lemma ReplaceFocusIdempotent(s: string)
    ensures ReplaceFocus(ReplaceFocus(s)) == ReplaceFocus(s)
  {
    FindallReplaceFocus(s);
    ReplaceFocusUnmapped(ReplaceFocus(s));
  }

  // The returned counts

  const TypeKeyword: string := "rdf:type"

  /** `\w` on ASCII text: letters, digits and the underscore. */
  predicate IsWordChar(c: char) {
    IsAsciiAlnum(c) || c == '_'
  }

  /** The length of the white space run `s` starts with. */
  function SpaceRun(s: string): (n: nat)
    ensures n <= |s| && forall i | 0 <= i < n :: IsSpace(s[i])
    ensures n == |s| || !IsSpace(s[n])
  {
    if |s| > 0 && IsSpace(s[0]) then 1 + SpaceRun(s[1..]) else 0
  }

  /** The length of the `\w` run `s` starts with. */
  function WordRun(s: string): (n: nat)
    ensures n <= |s| && forall i | 0 <= i < n :: IsWordChar(s[i])
    ensures n == |s| || !IsWordChar(s[n])
  {
    if |s| > 0 && IsWordChar(s[0]) then 1 + WordRun(s[1..]) else 0
  }

  /** `s` starts with `rdf:type`, `n > 0` white space characters,
      `schema:` and a run of `w > 0` word characters that `s` does not
      continue: the greedy match of `rdf:type\s+(schema:\w+)` at the start
      of `s`, `15 + n + w` characters long. */
  predicate TypeMatch(s: string, n: int, w: int) {
    && 0 < n && 0 < w && 15 + n + w <= |s|
    && s[..8] == TypeKeyword
    && (forall i | 8 <= i < 8 + n :: IsSpace(s[i]))
    && s[8 + n..15 + n] == SchemaPrefix
    && (forall i | 15 + n <= i < 15 + n + w :: IsWordChar(s[i]))
    && (15 + n + w == |s| || !IsWordChar(s[15 + n + w]))
  }

  /** The length of a match of `rdf:type\s+(schema:\w+)` at the start of
      `s`: the pattern matches exactly when `TypeMatch` holds for some
      `n` and `w`, and then its length is `15 + n + w`. */
  function TypeAt(s: string): (r: Option<nat>)
    ensures r.Some? ==> 17 <= r.value <= |s|
    ensures r.Some? ==> exists n, w :: TypeMatch(s, n, w) && r.value == 15 + n + w
    ensures forall n, w | TypeMatch(s, n, w) :: r == Some(15 + n + w)
  {
    if !StartsWith(s, TypeKeyword) then
      NoTypeMatch(s);
      None
    else
      var rest := s[8..];
      var n := SpaceRun(rest);
      if n == 0 || !StartsWith(rest[n..], SchemaPrefix) then
        NoTypeMatch(s);
        None
      else
        var w := WordRun(rest[n + 7..]);
        TypeAtMatch(s, n, w);
        if w == 0 then None else Some(8 + n + 7 + w)
  }

  /** Without the keyword, a space run and `schema:` there is no match. */
  lemma NoTypeMatch(s: string)
    requires !StartsWith(s, TypeKeyword)
          || SpaceRun(s[8..]) == 0
          || !StartsWith(s[8..][SpaceRun(s[8..])..], SchemaPrefix)
    ensures forall n, w :: !TypeMatch(s, n, w)
  {
    forall n, w | TypeMatch(s, n, w) ensures false {
      MatchRuns(s, n, w);
    }
  }

  /** The runs of a match are the greedy runs. */
  lemma MatchRuns(s: string, n: int, w: int)
    requires TypeMatch(s, n, w)
    ensures StartsWith(s, TypeKeyword)
    ensures SpaceRun(s[8..]) == n
    ensures StartsWith(s[8..][n..], SchemaPrefix)
    ensures WordRun(s[8..][n + 7..]) == w
  {
    var rest := s[8..];
    assert forall i | 0 <= i < n :: rest[i] == s[8 + i];
    assert rest[n] == s[8 + n] == SchemaPrefix[0];
    SpaceRunExact(rest, n);
    assert rest[n..][..7] == s[8 + n..15 + n];
    var t := rest[n + 7..];
    assert forall i | 0 <= i < w :: t[i] == s[15 + n + i];
    assert 15 + n + w < |s| ==> t[w] == s[15 + n + w];
    WordRunExact(t, w);
  }

  /** With the greedy runs in place, the match is the one `TypeAt` gives. */
  lemma TypeAtMatch(s: string, n: nat, w: nat)
    requires StartsWith(s, TypeKeyword) && n == SpaceRun(s[8..]) && n > 0
    requires StartsWith(s[8..][n..], SchemaPrefix) && w == WordRun(s[8..][n + 7..])
    ensures w > 0 <==> TypeMatch(s, n, w)
    ensures forall n', w' | TypeMatch(s, n', w') :: n' == n && w' == w
  {
    if w > 0 {
      GreedyIsMatch(s, n, w);
    }
    forall n', w' | TypeMatch(s, n', w') ensures n' == n && w' == w {
      MatchRuns(s, n', w');
    }
  }

  /** Non-empty greedy runs after the keyword and `schema:` form a match. */
  lemma GreedyIsMatch(s: string, n: nat, w: nat)
    requires StartsWith(s, TypeKeyword) && n == SpaceRun(s[8..]) && n > 0
    requires StartsWith(s[8..][n..], SchemaPrefix) && w == WordRun(s[8..][n + 7..]) && w > 0
    ensures TypeMatch(s, n, w)
  {
    var rest := s[8..];
    var t := rest[n + 7..];
    assert forall i | 0 <= i < n :: s[8 + i] == rest[i];
    assert s[8 + n..15 + n] == rest[n..][..7];
    assert forall i | 0 <= i < w :: s[15 + n + i] == t[i];
    assert 15 + n + w < |s| ==> s[15 + n + w] == t[w];
  }

  lemma {:induction false} SpaceRunExact(t: string, n: nat)
    requires n < |t| && (forall i | 0 <= i < n :: IsSpace(t[i])) && !IsSpace(t[n])
    ensures SpaceRun(t) == n
  {
    if n > 0 {
      assert forall i | 0 <= i < n - 1 :: t[1..][i] == t[i + 1];
      SpaceRunExact(t[1..], n - 1);
    }
  }

  lemma {:induction false} WordRunExact(t: string, w: nat)
    requires w <= |t| && (forall i | 0 <= i < w :: IsWordChar(t[i])) && (w == |t| || !IsWordChar(t[w]))
    ensures WordRun(t) == w
  {
    if w > 0 {
      assert forall i | 0 <= i < w - 1 :: t[1..][i] == t[i + 1];
      WordRunExact(t[1..], w - 1);
    }
  }

  /** `len(re.findall(rdf_type_pattern, text))`: see `TypeCountNone` and
      `TypeCountFirst` for the leftmost, non-overlapping count. */
  function TypeCount(s: string): (c: nat)
    ensures 17 * c <= |s|
    decreases |s|
  {
    if |s| == 0 then 0
    else
      match TypeAt(s)
      case Some(k) => 1 + TypeCount(s[k..])
      case None => TypeCount(s[1..])
  }

  predicate WordChars(s: string) {
    forall i | 0 <= i < |s| :: IsWordChar(s[i])
  }

  /** Every class is `schema:` followed by a run of word characters. */
  lemma ClassNames()
    ensures forall v | v in ValueMapping ::
      |ValueMapping[v]| > 7 && ValueMapping[v][..7] == SchemaPrefix && WordChars(ValueMapping[v][7..])
  {
    assert WordChars("Organization") by {}
    assert WordChars("Corporation") by {}
    assert WordChars("Educational") by {}
    assert WordChars("Research") by {}
    assert WordChars("Government") by {}
    WordCharsAppend("Educational", "Organization");
    WordCharsAppend("Research", "Organization");
    WordCharsAppend("Government", "Organization");
    forall v | v in ValueMapping
      ensures |ValueMapping[v]| > 7 && ValueMapping[v][..7] == SchemaPrefix && WordChars(ValueMapping[v][7..])
    {
      assert ValueMapping[v][7..] == ValueMapping[v][|SchemaPrefix|..];
    }
  }

  lemma WordCharsAppend(a: string, b: string)
    requires WordChars(a) && WordChars(b)
    ensures WordChars(a + b)
  {
    forall i | 0 <= i < |a + b| ensures IsWordChar((a + b)[i]) {
      if i >= |a| {
        assert (a + b)[i] == b[i - |a|];
      }
    }
  }

  /** The statement written for a mapped value is exactly one match of
      `rdf:type\s+(schema:\w+)`, so the type count sees it. */
  lemma ReplacementIsType(m: Match)
    requires Mapped(m)
    ensures TypeAt(Replacement(m)) == Some(|Replacement(m)|)
  {
    var c := ValueMapping[m.value];
    assert |c| > 7 && c[..7] == SchemaPrefix && WordChars(c[7..]) by {
      ClassNames();
    }
    ClassStatementIsType(c);
  }

  /** A type statement naming a `schema:` class is one whole match. */
  lemma ClassStatementIsType(c: string)
    requires |c| > 7 && c[..7] == SchemaPrefix && WordChars(c[7..])
    ensures TypeAt("rdf:type " + c) == Some(9 + |c|)
  {
    var r := "rdf:type " + c;
    assert r[..8] == TypeKeyword;
    assert r[9..16] == c[..7];
    forall i | 16 <= i < |r| ensures IsWordChar(r[i]) {
      assert r[i] == c[7..][i - 16];
    }
    assert TypeMatch(r, 1, |r| - 16);
  }

  /** No match starts in `s` before `p`. */
  predicate NoTypeBefore(s: string, p: int) {
    forall q | 0 <= q < p && q <= |s| :: TypeAt(s[q..]).None?
  }

  /** Positions where no match starts are skipped without counting. */
  lemma {:induction false} TypeCountSkip(s: string, p: nat)
    requires p <= |s| && NoTypeBefore(s, p)
    ensures TypeCount(s) == TypeCount(s[p..])
  {
    if p > 0 {
      assert s[0..] == s;
      assert TypeAt(s).None?;
      assert NoTypeBefore(s[1..], p - 1) by {
        forall q | 0 <= q < p - 1 && q <= |s[1..]| ensures TypeAt(s[1..][q..]).None? {
          assert s[1..][q..] == s[q + 1..];
        }
      }
      TypeCountSkip(s[1..], p - 1);
      assert s[1..][p - 1..] == s[p..];
    }
  }

  /** The count is zero exactly when no match starts anywhere in `s`. */
  lemma TypeCountNone(s: string)
    ensures TypeCount(s) == 0 <==> NoTypeBefore(s, |s| + 1)
  {
    if NoTypeBefore(s, |s| + 1) {
      TypeCountSkip(s, |s|);
      assert s[|s|..] == "";
    } else {
      var q :| 0 <= q <= |s| && TypeAt(s[q..]).Some?;
      TypeCountReaches(s, q);
    }
  }

  /** A match starting at `q` is counted: the scan meets it or an earlier one. */
  lemma {:induction false} TypeCountReaches(s: string, q: nat)
    requires q <= |s| && TypeAt(s[q..]).Some?
    ensures TypeCount(s) > 0
  {
    assert s[0..] == s;
    if TypeAt(s).None? {
      assert s[1..][q - 1..] == s[q..];
      TypeCountReaches(s[1..], q - 1);
    }
  }

  /** When the leftmost match starts at `p` and is `k` long, it is counted
      and the count goes on after it: matches do not overlap. */
  lemma TypeCountFirst(s: string, p: nat, k: nat)
    requires p <= |s| && NoTypeBefore(s, p) && TypeAt(s[p..]) == Some(k)
    ensures p + k <= |s| && TypeCount(s) == 1 + TypeCount(s[p + k..])
  {
    TypeCountSkip(s, p);
    assert s[p..][k..] == s[p + k..];
  }

  /** The rewritten text and the returned triple. */
  datatype FocusReport = FocusReport(text: string, found: nat, types: nat, remaining: nat)

  /** `replace_foaf_focus_with_schema_types` on the file content. */
  function ReplaceFoafFocus(content: string): (r: FocusReport)
    ensures r.text == ReplaceFocus(content)
    ensures r.found == |Findall(content, Keyword)|
    ensures r.remaining == |Unmapped(Findall(content, Keyword))|
    ensures r.remaining <= r.found
    ensures r.types == TypeCount(r.text)
    ensures 17 * r.types <= |r.text|
  {
    var text := ReplaceFocus(content);
    FindallReplaceFocus(content);
    FocusReport(text, |Findall(content, Keyword)|, TypeCount(text), |Findall(text, Keyword)|)
  }

  /** A type statement that is in the text before the pass runs. */
  const ExistingType: string := "rdf:type " + SchemaPrefix + "Person"

  /** The second count is of every type statement in the result, not only
      the written ones: a text holding a type statement and no focus
      statement reports no focus and one type. */
  lemma TypeCountIncludesExisting()
    ensures var r := ReplaceFoafFocus(ExistingType);
      r.found == 0 && r.types == 1 && r.remaining == 0
  {
    ExistingTypeHasNoFocus();
    ScanNone(ExistingType, Keyword);
    FocusNone(ExistingType);
    TypeOfExisting();
  }

  lemma ExistingTypeHasNoFocus()
    ensures MissesBefore(ExistingType, Keyword, |ExistingType|)
  {
    var cls := SchemaPrefix + "Person";
    assert 'f' !in SchemaPrefix && 'f' !in "Person";
    forall p | 0 <= p < |ExistingType| ensures MatchAt(ExistingType[p..], Keyword).None? {
      assert ExistingType[p..] == ("rdf:type " + cls)[p..] + "";
      NoKeywordInType(cls, p, "", ExistingType[p..]);
    }
  }

  lemma TypeOfExisting()
    ensures TypeCount(ExistingType) == 1
  {
    var s := ExistingType;
    assert s[..8] == TypeKeyword;
    assert s[9..16] == SchemaPrefix;
    assert TypeMatch(s, 1, 6);
    assert s[|s|..] == "";
  }
}
