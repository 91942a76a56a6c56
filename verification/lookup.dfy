/** The organization lookup class: name analysis (a second keyword
    classifier with its own lists, a city hint and a parent/department
    split on `_`), the lookup-or-insert cache and the FOAF profile text.
    The cache file, its JSON encoding, the one-tenth-second pause after a
    fresh lookup and the console messages are not part of this model. */
module OrganizationLookup {
  import opened Wrappers
  import opened Text
  import opened OrgUri
  import opened TurtleLines

  /** The five `org_type`/`sector` pairs the analysis can assign. */
  datatype OrgKind =
    | EducationalInstitution
    | GovernmentAgency
    | ResearchInstitute
    | PrivateCompany
    | PlainOrganization

  function OrgTypeText(k: OrgKind): string {
    match k
    case EducationalInstitution => "Educational Institution"
    case GovernmentAgency => "Government Agency"
    case ResearchInstitute => "Research Institute"
    case PrivateCompany => "Private Company"
    case PlainOrganization => "Organization"
  }

  function SectorText(k: OrgKind): string {
    match k
    case EducationalInstitution => "Education"
    case GovernmentAgency => "Government"
    case ResearchInstitute => "Research"
    case PrivateCompany => "Private"
    case PlainOrganization => "Unknown"
  }

  function KindRank(k: OrgKind): nat {
    match k
    case EducationalInstitution => 0
    case GovernmentAgency => 1
    case ResearchInstitute => 2
    case PrivateCompany => 3
    case PlainOrganization => 4
  }

  function KindKeywords(k: OrgKind): seq<string> {
    match k
    case EducationalInstitution => ["universiteit", "university", "hogeschool", "college"]
    case GovernmentAgency => ["ministerie", "ministry", "rijks", "government"]
    case ResearchInstitute => ["planbureau", "bureau", "instituut", "institute"]
    case PrivateCompany => ["bv", "b.v.", "ltd", "inc", "corp"]
    case PlainOrganization => []
  }

  predicate KindHits(name: string, k: OrgKind) {
    ContainsAny(Lower(name), KindKeywords(k))
  }

  /** The type part of `analyze_organization_name`: the first kind in
      priority order whose keyword list hits the lower-cased name. */
  function AnalyzeKind(name: string): (k: OrgKind)
    ensures k != PlainOrganization ==> KindHits(name, k)
    ensures forall j: OrgKind | KindRank(j) < KindRank(k) :: !KindHits(name, j)
  {
    if KindHits(name, EducationalInstitution) then EducationalInstitution
    else if KindHits(name, GovernmentAgency) then GovernmentAgency
    else if KindHits(name, ResearchInstitute) then ResearchInstitute
    else if KindHits(name, PrivateCompany) then PrivateCompany
    else PlainOrganization
  }

  const Cities: seq<string> := [
    "amsterdam", "rotterdam", "utrecht", "eindhoven", "tilburg", "groningen",
    "leiden", "delft", "maastricht", "nijmegen", "twente", "wageningen"
  ]

  /** `str.title()` on a single lower-case word: its first letter in upper case. */
  function Capitalize(w: string): (r: string)
    ensures |r| == |w|
    ensures |w| > 0 ==> r[0] == UpperChar(w[0]) && r[1..] == w[1..]
  {
    if |w| == 0 then w else [UpperChar(w[0])] + w[1..]
  }

  /** The first city of `Cities[from..]` that occurs in the lower-cased name. */
  function FirstCityFrom(name: string, from: nat): (r: Option<nat>)
    requires from <= |Cities|
    ensures r.Some? ==> from <= r.value < |Cities| && Contains(Lower(name), Cities[r.value])
    ensures forall k | from <= k < (if r.Some? then r.value else |Cities|) :: !Contains(Lower(name), Cities[k])
    decreases |Cities| - from
  {
    if from == |Cities| then None
    else if Contains(Lower(name), Cities[from]) then Some(from)
    else FirstCityFrom(name, from + 1)
  }

  /** `location_hint`: the title-cased first city, in list order, that
      occurs in the lower-cased name; absent when none does. */
  function LocationHint(name: string): (r: Option<string>)
    ensures r.None? <==> forall k | 0 <= k < |Cities| :: !Contains(Lower(name), Cities[k])
    ensures r.Some? ==> exists k | 0 <= k < |Cities| ::
      && Contains(Lower(name), Cities[k])
      && (forall j | 0 <= j < k :: !Contains(Lower(name), Cities[j]))
      && r.value == Capitalize(Cities[k])
  {
    match FirstCityFrom(name, 0)
    case None => None
    case Some(k) => Some(Capitalize(Cities[k]))
  }

  /** `parent_organization` and `department`. */
  datatype Department = Department(parent: string, department: string)

  /** The split on `_`: `parts[0]` and `'_'.join(parts[1:])` when the name
      contains an underscore, nothing otherwise. */
  function DepartmentSplit(name: string): (r: Option<Department>)
    ensures r.None? <==> '_' !in name
    ensures r.Some? ==> '_' !in r.value.parent
  {
    if '_' in name then
      var parts := Split(name, '_');
      Some(Department(parts[0], Join(parts[1..], '_')))
    else None
  }

  /** Putting the parent and department back together with `_` restores
      the name. */
  lemma DepartmentRoundTrip(name: string)
    requires '_' in name
    ensures DepartmentSplit(name).Some?
    ensures DepartmentSplit(name).value.parent + "_" + DepartmentSplit(name).value.department == name
  {
    var parts := Split(name, '_');
    JoinSplit(name, '_');
    assert Join(parts, '_') == parts[0] + ['_'] + Join(parts[1..], '_');
  }

  /** What `analyze_organization_name` returns, one field per dictionary key. */
  datatype Analysis = Analysis(kind: OrgKind, location: Option<string>, split: Option<Department>)

  function AnalyzeOrganizationName(name: string): (a: Analysis)
    ensures a.location == LocationHint(name)
    ensures a.split == DepartmentSplit(name)
  {
    Analysis(AnalyzeKind(name), LocationHint(name), DepartmentSplit(name))
  }

  /** A cache entry: the fixed keys of a fresh lookup and the optional keys
      the analysis adds. Entries read back from the cache file may lack
      the optional keys, so they are optional here too. */
  datatype Entry = Entry(
    name: string,
    uri: string,
    typeName: string,
    lookupAttempted: bool,
    foundDetails: bool,
    orgType: Option<string>,
    sector: Option<string>,
    locationHint: Option<string>,
    parentOrganization: Option<string>,
    department: Option<string>)

  type Cache = map<string, Entry>

  /** The entry a lookup of an uncached name creates. */
  function FreshEntry(name: string): (e: Entry)
    ensures e.name == name && e.uri == OrganizationUri(name)
    ensures e.typeName == "Organization" && e.lookupAttempted && !e.foundDetails
    ensures e.orgType.Some? && e.sector.Some?
    ensures e.locationHint == LocationHint(name)
    ensures e.parentOrganization.Some? <==> '_' in name
    ensures e.department.Some? <==> '_' in name
    ensures '_' in name ==> e.parentOrganization.value + "_" + e.department.value == name
  {
    var a := AnalyzeOrganizationName(name);
    assert '_' in name ==> a.split.value.parent + "_" + a.split.value.department == name by {
      if '_' in name { DepartmentRoundTrip(name); }
    }
    Entry(
      name, OrganizationUri(name), "Organization", true, false,
      Some(OrgTypeText(a.kind)), Some(SectorText(a.kind)), a.location,
      if a.split.Some? then Some(a.split.value.parent) else None,
      if a.split.Some? then Some(a.split.value.department) else None)
  }

  datatype Lookup = Lookup(entry: Entry, cache: Cache)

  /** `lookup_organization`: a cached name returns its stored entry and
      leaves the cache as it is; an uncached name stores a fresh entry
      under that name and returns it, and no other key changes. */
  function LookupOrganization(cache: Cache, name: string): (r: Lookup)
    ensures name in r.cache && r.cache[name] == r.entry
    ensures name in cache ==> r.entry == cache[name] && r.cache == cache
    ensures name !in cache ==> r.entry == FreshEntry(name)
    ensures r.cache.Keys == cache.Keys + {name}
    ensures forall k | k in cache && k != name :: r.cache[k] == cache[k]
  {
    if name in cache then Lookup(cache[name], cache)
    else
      var e := FreshEntry(name);
      Lookup(e, cache[name := e])
  }

  /** Looking the same name up again returns the same entry and changes
      nothing further. */
  lemma LookupIsStable(cache: Cache, name: string)
    ensures LookupOrganization(LookupOrganization(cache, name).cache, name) == LookupOrganization(cache, name)
  {
  }

  /** The analysis kind of a fresh entry is written as one of the five
      `org_type` texts. */
  lemma FreshOrgType(name: string)
    ensures FreshEntry(name).orgType.value == OrgTypeText(AnalyzeKind(name))
    ensures FreshEntry(name).sector.value == SectorText(AnalyzeKind(name))
  {
  }

  /** `name.replace('"', '\\"')`: only double quotes are escaped. */
  function EscapeQuotes(s: string): (r: string)
    ensures |r| == |s| + Count(s, '"')
  {
    if |s| == 0 then []
    else (if s[0] == '"' then "\\\"" else [s[0]]) + EscapeQuotes(s[1..])
  }

  /** `s.replace('\\"', '"')`, left to right. */
  function UnescapeQuotes(s: string): string {
    if |s| >= 2 && s[0] == '\\' && s[1] == '"' then "\"" + UnescapeQuotes(s[2..])
    else if |s| == 0 then []
    else [s[0]] + UnescapeQuotes(s[1..])
  }

  /** Replacing each `\"` by `"` undoes the name escaping. */
  lemma {:induction false} EscapeQuotesRoundTrip(s: string)
    ensures UnescapeQuotes(EscapeQuotes(s)) == s
  {
    if |s| > 0 {
      EscapeQuotesRoundTrip(s[1..]);
      var e := EscapeQuotes(s);
      if s[0] == '"' {
        assert e == "\\\"" + EscapeQuotes(s[1..]);
        assert e[2..] == EscapeQuotes(s[1..]);
      } else {
        assert e == [s[0]] + EscapeQuotes(s[1..]);
        assert e[1..] == EscapeQuotes(s[1..]);
        if s[0] == '\\' && |e| >= 2 {
          QuoteNeverFirst(s[1..]);
        }
      }
    }
  }

  /** The escaped text never starts with a bare quote; a quote always
      comes after the backslash that escapes it. */
  lemma QuoteNeverFirst(s: string)
    ensures |EscapeQuotes(s)| > 0 ==> EscapeQuotes(s)[0] != '"'
  {
  }

  /** The predicate-object pairs of a profile, in the order they are written. */
  function ProfileStatements(e: Entry): seq<string> {
    ["rdf:type foaf:Organization", "foaf:name \"" + EscapeQuotes(e.name) + "\""]
    + (if e.orgType.Some? then ["foaf:focus \"" + e.orgType.value + "\""] else [])
    + (if e.locationHint.Some? then ["rdfs:comment \"Located in " + e.locationHint.value + "\""] else [])
    + (if e.parentOrganization.Some? then [MemberOf(e.parentOrganization.value)] else [])
  }

  /** The lines of a FOAF profile before they are joined: the subject,
      one statement per pair, and the last statement closed. */
  function ProfileLines(e: Entry): seq<string> {
    [Subject(e.uri)] + StatementLines(ProfileStatements(e))
  }

  /** `create_foaf_profile`: the profile lines joined by newlines, with a
      final newline. */
  function CreateFoafProfile(e: Entry): (text: string)
    ensures |text| > 0 && text[|text| - 1] == '\n'
  {
    var lines := ProfileLines(e);
    JoinEndsWithEmpty(lines);
    Join(lines + [""], '\n')
  }

  lemma {:induction false} JoinEndsWithEmpty(lines: seq<string>)
    requires |lines| > 0
    ensures var t := Join(lines + [""], '\n'); |t| > 0 && t[|t| - 1] == '\n'
  {
    if |lines| == 1 {
      assert Join(lines + [""], '\n') == lines[0] + ['\n'] + Join([""], '\n');
    } else {
      assert (lines + [""])[1..] == lines[1..] + [""];
      JoinEndsWithEmpty(lines[1..]);
    }
  }

  /** The layout of a profile: the subject line, `rdf:type`, `foaf:name`,
      then focus, comment and member when present, in that order; every
      statement but the last ends ` ;` and the last ends ` .`. */
  lemma ProfileLayout(e: Entry)
    ensures var ps := ProfileStatements(e); var ls := ProfileLines(e);
      && |ps| == 2 + (if e.orgType.Some? then 1 else 0) + (if e.locationHint.Some? then 1 else 0)
                   + (if e.parentOrganization.Some? then 1 else 0)
      && ps[0] == "rdf:type foaf:Organization"
      && ps[1] == "foaf:name \"" + EscapeQuotes(e.name) + "\""
      && (e.orgType.Some? ==> ps[2] == "foaf:focus \"" + e.orgType.value + "\"")
      && (e.locationHint.Some? ==>
            ps[2 + (if e.orgType.Some? then 1 else 0)] == "rdfs:comment \"Located in " + e.locationHint.value + "\"")
      && (e.parentOrganization.Some? ==> ps[|ps| - 1] == MemberOf(e.parentOrganization.value))
      && |ls| == |ps| + 1
      && ls[0] == "<" + e.uri + ">"
      && (forall i | 1 <= i < |ls| - 1 :: ls[i] == "   " + ps[i - 1] + " ;")
      && ls[|ls| - 1] == "   " + ps[|ps| - 1] + " ."
  {
    ProfileStatementsShape(e);
  }

  lemma ProfileStatementsShape(e: Entry)
    ensures var ps := ProfileStatements(e);
      && |ps| == 2 + (if e.orgType.Some? then 1 else 0) + (if e.locationHint.Some? then 1 else 0)
                   + (if e.parentOrganization.Some? then 1 else 0)
      && ps[0] == "rdf:type foaf:Organization"
      && ps[1] == "foaf:name \"" + EscapeQuotes(e.name) + "\""
      && (e.orgType.Some? ==> ps[2] == "foaf:focus \"" + e.orgType.value + "\"")
      && (e.locationHint.Some? ==>
            ps[2 + (if e.orgType.Some? then 1 else 0)] == "rdfs:comment \"Located in " + e.locationHint.value + "\"")
      && (e.parentOrganization.Some? ==> ps[|ps| - 1] == MemberOf(e.parentOrganization.value))
  {
  }

  /** The statement naming the parent organization, by its slug URI. */
  function MemberOf(parent: string): string {
    "foaf:member <" + OrganizationUri(parent) + ">"
  }

  /** With a parent organization the profile ends with the `foaf:member`
      statement, whose object is the parent's slug URI. */
  lemma ProfileMember(e: Entry)
    requires e.parentOrganization.Some?
    ensures var ls := ProfileLines(e);
      ls[|ls| - 1] == "   " + MemberOf(e.parentOrganization.value) + " ."
  {
    ProfileLayout(e);
    LastStatementIsMember(e);
  }

  lemma LastStatementIsMember(e: Entry)
    requires e.parentOrganization.Some?
    ensures var ps := ProfileStatements(e); |ps| > 0 && ps[|ps| - 1] == MemberOf(e.parentOrganization.value)
  {
  }
}
