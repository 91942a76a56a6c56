/** `classify_organization` of the conversion script: a keyword classifier
    that maps a free-text institution name to one of five schema.org
    classes. Each class has a keyword list; the lists are tried in a fixed
    priority order against the lower-cased name and the first list with a
    keyword occurring as a substring wins. */
module Classifier {
  import opened Text

  datatype OrgClass =
    | EducationalOrganization
    | GovernmentOrganization
    | ResearchOrganization
    | Corporation
    | GenericOrganization

  const EducationKeywords: seq<string> := ["universiteit", "university", "hogeschool", "college"]
  const GovernmentKeywords: seq<string> := ["ministerie", "ministry", "gemeente", "provincie", "government"]
  const ResearchKeywords: seq<string> := ["onderzoek", "research", "instituut", "institute", "planbureau"]
  const CorporationKeywords: seq<string> := ["bv", "nv", "ltd", "inc", "corp", "company"]

  /** The class name written into the Turtle output. */
  function Curie(c: OrgClass): string {
    match c
    case EducationalOrganization => "schema:EducationalOrganization"
    case GovernmentOrganization => "schema:GovernmentOrganization"
    case ResearchOrganization => "schema:ResearchOrganization"
    case Corporation => "schema:Corporation"
    case GenericOrganization => "schema:Organization"
  }

  /** The five class names the conversion script can write. */
  const ClassCuries: set<string> := {
    "schema:EducationalOrganization", "schema:GovernmentOrganization",
    "schema:ResearchOrganization", "schema:Corporation", "schema:Organization"
  }

  /** Position in the priority order; the generic class comes last. */
  function Rank(c: OrgClass): nat {
    match c
    case EducationalOrganization => 0
    case GovernmentOrganization => 1
    case ResearchOrganization => 2
    case Corporation => 3
    case GenericOrganization => 4
  }

  /** The keyword list that selects a class (the generic class has none). */
  function Keywords(c: OrgClass): seq<string> {
    match c
    case EducationalOrganization => EducationKeywords
    case GovernmentOrganization => GovernmentKeywords
    case ResearchOrganization => ResearchKeywords
    case Corporation => CorporationKeywords
    case GenericOrganization => []
  }

  /** Some keyword of class `c` occurs in the lower-cased name. */
  predicate Hits(name: string, c: OrgClass) {
    ContainsAny(Lower(name), Keywords(c))
  }

  /** `classify_organization(name)`: the class of highest priority whose
      keyword list hits, the generic class when none does. */
  function ClassifyOrganization(name: string): (c: OrgClass)
    ensures c != GenericOrganization ==> Hits(name, c)
    ensures forall d: OrgClass | Rank(d) < Rank(c) :: !Hits(name, d)
  {
    var lower := Lower(name);
    if ContainsAny(lower, EducationKeywords) then EducationalOrganization
    else if ContainsAny(lower, GovernmentKeywords) then GovernmentOrganization
    else if ContainsAny(lower, ResearchKeywords) then ResearchOrganization
    else if ContainsAny(lower, CorporationKeywords) then Corporation
    else GenericOrganization
  }

  /** The classifier is total onto the five class names, and distinct
      classes are written differently. */
  lemma CurieIsSchemaClass(name: string)
    ensures Curie(ClassifyOrganization(name)) in ClassCuries
    ensures forall c: OrgClass, d: OrgClass | Curie(c) == Curie(d) :: c == d
  {
  }

  /** A hit is never lost by adding text around the name, so joining two
      names can only raise the priority: the class of `a + b` ranks no lower
      than the class of either part. */
  lemma {:induction false} ClassifyConcat(a: string, b: string)
    ensures Rank(ClassifyOrganization(a + b)) <= Rank(ClassifyOrganization(a))
    ensures Rank(ClassifyOrganization(a + b)) <= Rank(ClassifyOrganization(b))
  {
    LowerAppend(a, b);
    var ca := ClassifyOrganization(a);
    var cb := ClassifyOrganization(b);
    if ca != GenericOrganization {
      ContainsAnyAppend(Lower(a), Lower(b), Keywords(ca));
      assert Hits(a + b, ca);
    }
    if cb != GenericOrganization {
      ContainsAnyAppend(Lower(a), Lower(b), Keywords(cb));
      assert Hits(a + b, cb);
    }
  }

  /** The example institution of the end-to-end scenario is educational. */
  lemma UniversityIsEducational()
    ensures ClassifyOrganization("Universiteit X") == EducationalOrganization
  {
    var lower := Lower("Universiteit X");
    assert lower[..12] == "universiteit";
    assert OccursAt(lower, EducationKeywords[0], 0);
  }

  /** A name with no keyword at all falls through to the generic class. */
  lemma NoKeywordIsGeneric(name: string)
    requires forall c: OrgClass | c != GenericOrganization :: !Hits(name, c)
    ensures ClassifyOrganization(name) == GenericOrganization
  {
    assert !Hits(name, EducationalOrganization);
    assert !Hits(name, GovernmentOrganization);
    assert !Hits(name, ResearchOrganization);
    assert !Hits(name, Corporation);
  }
}
