/** The row loop of `process_excel_to_turtle`: spreadsheet rows are folded
    into three insertion-ordered dictionaries (projects, datasets keyed by
    their raw name, organizations keyed by their slug URI) and the
    organization cache. Python dictionaries keep insertion order, so each
    dictionary is a map together with the sequence of its keys in the order
    they were added. The random generator is the parameter `ids`: `ids(k)`
    is what the `k`-th call of `generate_random_id` returns. */
module ExcelToTurtle {
  import opened Wrappers
  import opened Text
  import opened Cells
  import opened OrgUri
  import opened Classifier
  import opened TurtleEscape
  import opened RandomId

  const ProjectNamespace: string := GraphBase + "project/"
  const DatasetNamespace: string := GraphBase + "dataset/"

  function ProjectUri(num: string): string { ProjectNamespace + num }
  function DatasetUri(id: string): string { DatasetNamespace + id }

  /** One spreadsheet row, by column (`row.get` of a missing column is a
      missing cell). */
  datatype Row = Row(
    projectNumber: Option<string>,   // Projectnummer
    title: Option<string>,           // Onderzoek
    startDate: DateCell,             // Startdatum
    endDate: DateCell,               // Einddatum
    datasetName: TextCell,           // Bestandsnaam
    institution: TextCell)           // Instelling

  datatype ProjectInfo = ProjectInfo(
    title: string,
    startDate: Option<string>,
    endDate: Option<string>,
    datasets: set<string>,
    organizations: set<string>)

  datatype DatasetInfo = DatasetInfo(uri: string, name: string)

  datatype OrgInfo = OrgInfo(name: string, orgType: string)

  /** A cache record as this script reads and writes it: `name` and `type`. */
  datatype CacheRecord = CacheRecord(name: string, orgType: string)

  datatype State = State(
    projects: map<string, ProjectInfo>, projectOrder: seq<string>,
    datasets: map<string, DatasetInfo>, datasetOrder: seq<string>,
    organizations: map<string, OrgInfo>, orgOrder: seq<string>,
    cache: map<string, CacheRecord>)

  function Init(cache: map<string, CacheRecord>): State {
    State(map[], [], map[], [], map[], [], cache)
  }

  /** `order` lists the keys of `m` once each. */
  predicate KeyOrder<V>(m: map<string, V>, order: seq<string>) {
    && (forall i, j | 0 <= i < j < |order| :: order[i] != order[j])
    && (forall k | k in m :: k in order)
    && (forall i | 0 <= i < |order| :: order[i] in m)
  }

  function DatasetUris(ds: map<string, DatasetInfo>): set<string> {
    set n | n in ds :: ds[n].uri
  }

  /** What every reachable state satisfies: the orders match the maps; the
      `k`-th dataset added got the `k`-th random identifier and its escaped
      name; every organization key is a slug URI; and projects only point
      at datasets and organizations that exist. */
  predicate Valid(st: State, ids: nat -> string) {
    && KeyOrder(st.projects, st.projectOrder)
    && KeyOrder(st.datasets, st.datasetOrder)
    && KeyOrder(st.organizations, st.orgOrder)
    && (forall k | 0 <= k < |st.datasetOrder| ::
          st.datasets[st.datasetOrder[k]] == DatasetInfo(DatasetUri(ids(k)), Escape(st.datasetOrder[k])))
    && (forall u | u in st.organizations :: StartsWith(u, OrganizationNamespace))
    && (forall p | p in st.projects ::
          && st.projects[p].datasets <= DatasetUris(st.datasets)
          && st.projects[p].organizations <= st.organizations.Keys)
  }

  /** `pd.to_datetime` on text cells. */
  type DateParser = string -> Parsed

  /** A date cell whose `strftime` call raises: a value that has none, or
      a text that `pd.to_datetime` turns into `NaT`. */
  predicate Unformattable(cell: DateCell, parse: DateParser) {
    cell.OtherValue? || (cell.DateText? && parse(cell.text).NotATime?)
  }

  /** `format_date`: a missing cell has no date, a timestamp is written as
      its ISO date, and text goes through `pd.to_datetime`, giving no date
      when that raises. `strftime` is called outside the `try`, so `NaT`
      and a value that is neither text nor timestamp abort the whole
      conversion. */
  function FormatDate(cell: DateCell, parse: DateParser): (r: Result<Option<string>>)
    ensures r.Failure? <==> Unformattable(cell, parse)
    ensures cell.Missing? ==> r == Success(None)
    ensures cell.Timestamp? ==> r == Success(Some(cell.iso))
    ensures cell.DateText? && parse(cell.text).Unparsable? ==> r == Success(None)
    ensures cell.DateText? && parse(cell.text).ParsedAs? ==> r == Success(Some(parse(cell.text).iso))
  {
    match cell
    case Missing => Success(None)
    case Timestamp(iso) => Success(Some(iso))
    case DateText(t) =>
      (match parse(t)
       case Unparsable => Success(None)
       case NotATime => Failure("ValueError: NaTType does not support strftime")
       case ParsedAs(iso) => Success(Some(iso)))
    case OtherValue => Failure("AttributeError: object has no attribute 'strftime'")
  }

  /** What the loop body reads off a row with a project number: the
      project URI, the escaped title, the two date cells, the dataset name
      and the institution when their cells have text, the institution's
      slug URI, and whether one of the two name cells holds a value that is
      neither missing nor text, whose `.strip()` raises. */
  datatype Cleaned = Cleaned(
    project: string,
    title: string,
    startDate: DateCell,
    endDate: DateCell,
    dataset: Option<string>,
    institution: Option<string>,
    org: string,
    nonText: bool)

  function Clean(row: Row): (c: Option<Cleaned>)
    ensures c.None? <==> row.projectNumber.None?
    ensures c.Some? ==>
      && c.value.project == ProjectUri(row.projectNumber.value)
      && c.value.title == EscapeTurtleString(row.title)
      && c.value.startDate == row.startDate && c.value.endDate == row.endDate
      && (c.value.dataset.Some? <==> HasText(row.datasetName))
      && (c.value.dataset.Some? ==> c.value.dataset.value == row.datasetName.text)
      && (c.value.institution.Some? <==> HasText(row.institution))
      && (c.value.institution.Some? ==> c.value.institution.value == row.institution.text
                                          && c.value.org == OrganizationUri(row.institution.text))
      && (c.value.nonText <==> row.datasetName.NotText? || row.institution.NotText?)
  {
    match row.projectNumber
    case None => None
    case Some(num) =>
      Some(Cleaned(
        ProjectUri(num), EscapeTurtleString(row.title), row.startDate, row.endDate,
        if HasText(row.datasetName) then Some(row.datasetName.text) else None,
        if HasText(row.institution) then Some(row.institution.text) else None,
        OrganizationUri(if row.institution.Text? then row.institution.text else ""),
        row.datasetName.NotText? || row.institution.NotText?))
  }

  /** The first row of a project creates its record, with the escaped
      title, the formatted dates and no links yet; later rows of the same
      project leave everything as it is. */
  function AddProject(st: State, c: Cleaned, parse: DateParser): (r: Result<State>)
    ensures c.project in st.projects ==> r == Success(st)
    ensures r.Failure? <==> c.project !in st.projects && (Unformattable(c.startDate, parse) || Unformattable(c.endDate, parse))
    ensures r.Success? && c.project !in st.projects ==>
      && r.value.projects == st.projects[c.project := ProjectInfo(
           c.title, FormatDate(c.startDate, parse).value, FormatDate(c.endDate, parse).value, {}, {})]
      && r.value.projectOrder == st.projectOrder + [c.project]
      && r.value.(projects := st.projects, projectOrder := st.projectOrder) == st
  {
    if c.project in st.projects then Success(st)
    else
      match FormatDate(c.startDate, parse)
      case Failure(e) => Failure(e)
      case Success(s) =>
        match FormatDate(c.endDate, parse)
        case Failure(e) => Failure(e)
        case Success(e) =>
          var info := ProjectInfo(c.title, s, e, {}, {});
          Success(st.(projects := st.projects[c.project := info], projectOrder := st.projectOrder + [c.project]))
  }

  /** The dataset part of a row, for a name with text: the name gets a
      URI the first time it is seen, drawing the next random identifier,
      and the project points at that URI. Nothing but the dataset table and
      this project's dataset links changes. */
  function AddDataset(st: State, uri: string, name: string, ids: nat -> string): (r: State)
    requires uri in st.projects
    ensures r.datasets.Keys == st.datasets.Keys + {name}
    ensures forall n | n in st.datasets :: r.datasets[n] == st.datasets[n]
    ensures name !in st.datasets ==>
      && r.datasets[name] == DatasetInfo(DatasetUri(ids(|st.datasetOrder|)), Escape(name))
      && r.datasetOrder == st.datasetOrder + [name]
    ensures name in st.datasets ==> r.datasetOrder == st.datasetOrder
    ensures r.projects.Keys == st.projects.Keys
    ensures forall p | p in st.projects && p != uri :: r.projects[p] == st.projects[p]
    ensures r.projects[uri] == st.projects[uri].(datasets := st.projects[uri].datasets + {r.datasets[name].uri})
    ensures r.(projects := st.projects, datasets := st.datasets, datasetOrder := st.datasetOrder) == st
  {
    var st1 :=
      if name in st.datasets then st
      else st.(datasets := st.datasets[name := DatasetInfo(DatasetUri(ids(|st.datasetOrder|)), Escape(name))],
               datasetOrder := st.datasetOrder + [name]);
    var p := st1.projects[uri];
    st1.(projects := st1.projects[uri := p.(datasets := p.datasets + {st1.datasets[name].uri})])
  }

  /** The record an institution is registered from: its cache record if it
      has one, otherwise its own name and a fresh classification. */
  function RecordFor(cache: map<string, CacheRecord>, inst: string): (rec: CacheRecord)
    ensures inst in cache ==> rec == cache[inst]
    ensures inst !in cache ==> rec.name == inst && rec.orgType in ClassCuries
  {
    if inst in cache then cache[inst]
    else
      CurieIsSchemaClass(inst);
      CacheRecord(inst, Curie(ClassifyOrganization(inst)))
  }

  /** The organization part of a row, for an institution with text: its
      slug URI `org` is registered the first time it is seen, from
      `RecordFor`, and a record made afresh is cached; the project points
      at the URI. Nothing but the organization table, the cache and this
      project's organization links changes, and a cache record is never
      replaced. */
  function AddOrganization(st: State, uri: string, inst: string, org: string): (r: State)
    requires uri in st.projects
    ensures r.organizations.Keys == st.organizations.Keys + {org}
    ensures forall o | o in st.organizations :: r.organizations[o] == st.organizations[o]
    ensures org !in st.organizations ==>
      && r.organizations[org] == OrgInfo(Escape(RecordFor(st.cache, inst).name), RecordFor(st.cache, inst).orgType)
      && r.orgOrder == st.orgOrder + [org]
      && r.cache == st.cache[inst := RecordFor(st.cache, inst)]
    ensures org in st.organizations ==> r.orgOrder == st.orgOrder && r.cache == st.cache
    ensures r.projects.Keys == st.projects.Keys
    ensures forall p | p in st.projects && p != uri :: r.projects[p] == st.projects[p]
    ensures r.projects[uri] == st.projects[uri].(organizations := st.projects[uri].organizations + {org})
    ensures r.(projects := st.projects, organizations := st.organizations, orgOrder := st.orgOrder, cache := st.cache) == st
  {
    var st1 :=
      if org in st.organizations then st
      else
        var rec := RecordFor(st.cache, inst);
        st.(organizations := st.organizations[org := OrgInfo(Escape(rec.name), rec.orgType)],
            orgOrder := st.orgOrder + [org],
            cache := st.cache[inst := rec]);
    var p := st1.projects[uri];
    st1.(projects := st1.projects[uri := p.(organizations := p.organizations + {org})])
  }

  /** The dataset and organization parts of a row of a known project. */
  function AddLinks(st: State, c: Cleaned, ids: nat -> string): (r: State)
    requires c.project in st.projects
    ensures c.project in r.projects
  {
    var st1 := if c.dataset.Some? then AddDataset(st, c.project, c.dataset.value, ids) else st;
    if c.institution.Some? then AddOrganization(st1, c.project, c.institution.value, c.org) else st1
  }

  /** The loop body for a row with a project number: the project first,
      then the dataset and organization parts. A name cell that is not
      text makes its `.strip()` raise; the project is then recorded
      already, but the run is over. */
  function Step(st: State, c: Cleaned, parse: DateParser, ids: nat -> string): (r: Result<State>)
    ensures r.Failure? <==>
      (c.project !in st.projects && (Unformattable(c.startDate, parse) || Unformattable(c.endDate, parse)))
      || c.nonText
    ensures r.Success? ==> c.project in r.value.projects
  {
    match AddProject(st, c, parse)
    case Failure(e) => Failure(e)
    case Success(st1) =>
      if c.nonText then Failure("AttributeError: object has no attribute 'strip'")
      else Success(AddLinks(st1, c, ids))
  }

  /** One iteration of the row loop. A row without a project number is
      skipped; the conversion aborts on the first row of a project whose
      date cell cannot be formatted, and on any numbered row whose dataset
      name or institution is neither missing nor text. */
  function ProcessRow(st: State, row: Row, parse: DateParser, ids: nat -> string): (r: Result<State>)
    ensures row.projectNumber.None? ==> r == Success(st)
    ensures r.Failure? <==>
      && row.projectNumber.Some?
      && (|| (ProjectUri(row.projectNumber.value) !in st.projects
              && (Unformattable(row.startDate, parse) || Unformattable(row.endDate, parse)))
          || row.datasetName.NotText? || row.institution.NotText?)
    ensures r.Success? && row.projectNumber.Some? ==> ProjectUri(row.projectNumber.value) in r.value.projects
  {
    match Clean(row)
    case None => Success(st)
    case Some(c) => Step(st, c, parse, ids)
  }

  /** The loop over already cleaned rows. */
  function Fold(cs: seq<Option<Cleaned>>, cache: map<string, CacheRecord>, parse: DateParser, ids: nat -> string): Result<State> {
    if |cs| == 0 then Success(Init(cache))
    else
      match Fold(cs[..|cs| - 1], cache, parse, ids)
      case Failure(e) => Failure(e)
      case Success(st) =>
        match cs[|cs| - 1]
        case None => Success(st)
        case Some(c) => Step(st, c, parse, ids)
  }

  function CleanAll(rows: seq<Row>): (cs: seq<Option<Cleaned>>)
    ensures |cs| == |rows| && forall i | 0 <= i < |rows| :: cs[i] == Clean(rows[i])
  {
    seq(|rows|, i requires 0 <= i < |rows| => Clean(rows[i]))
  }

  /** The whole loop over the rows, starting from the loaded cache. */
  function Run(rows: seq<Row>, cache: map<string, CacheRecord>, parse: DateParser, ids: nat -> string): Result<State> {
    Fold(CleanAll(rows), cache, parse, ids)
  }

  /** Continue a run with one more row, unless it has already failed. */
  function Then(prev: Result<State>, row: Row, parse: DateParser, ids: nat -> string): Result<State> {
    match prev
    case Failure(e) => Failure(e)
    case Success(st) => ProcessRow(st, row, parse, ids)
  }

  /** `Run` is the row loop: each row in turn goes through `ProcessRow`,
      and the first failure ends the run. */
  lemma RunIsRowLoop(rows: seq<Row>, cache: map<string, CacheRecord>, parse: DateParser, ids: nat -> string)
    ensures |rows| == 0 ==> Run(rows, cache, parse, ids) == Success(Init(cache))
    ensures |rows| > 0 ==>
      Run(rows, cache, parse, ids) == Then(Run(rows[..|rows| - 1], cache, parse, ids), rows[|rows| - 1], parse, ids)
  {
    if |rows| > 0 {
      assert CleanAll(rows)[..|rows| - 1] == CleanAll(rows[..|rows| - 1]);
    }
  }

  lemma KeyOrderAdd<V>(m: map<string, V>, order: seq<string>, k: string, v: V)
    requires KeyOrder(m, order) && k !in m
    ensures KeyOrder(m[k := v], order + [k])
  {
  }

  lemma DatasetUrisGrow(a: map<string, DatasetInfo>, b: map<string, DatasetInfo>)
    requires forall n | n in a :: n in b && b[n] == a[n]
    ensures DatasetUris(a) <= DatasetUris(b)
  {
    forall u | u in DatasetUris(a) ensures u in DatasetUris(b) {
      var n :| n in a && a[n].uri == u;
      assert b[n].uri == u;
    }
  }

  lemma AddProjectValid(st: State, c: Cleaned, parse: DateParser, ids: nat -> string)
    requires Valid(st, ids) && AddProject(st, c, parse).Success?
    ensures Valid(AddProject(st, c, parse).value, ids)
  {
    if c.project !in st.projects {
      var info := AddProject(st, c, parse).value.projects[c.project];
      KeyOrderAdd(st.projects, st.projectOrder, c.project, info);
    }
  }

  lemma AddDatasetValid(st: State, uri: string, name: string, ids: nat -> string)
    requires Valid(st, ids) && uri in st.projects
    ensures Valid(AddDataset(st, uri, name, ids), ids)
  {
    var r := AddDataset(st, uri, name, ids);
    AddDatasetTable(st, uri, name, ids);
    AddDatasetLinks(st, uri, name, ids);
    assert KeyOrder(r.projects, r.projectOrder);
    assert KeyOrder(r.organizations, r.orgOrder);
  }

  lemma AddDatasetTable(st: State, uri: string, name: string, ids: nat -> string)
    requires Valid(st, ids) && uri in st.projects
    ensures var r := AddDataset(st, uri, name, ids);
      && KeyOrder(r.datasets, r.datasetOrder)
      && (forall k | 0 <= k < |r.datasetOrder| ::
            r.datasets[r.datasetOrder[k]] == DatasetInfo(DatasetUri(ids(k)), Escape(r.datasetOrder[k])))
  {
    var r := AddDataset(st, uri, name, ids);
    if name !in st.datasets {
      assert r.datasets == st.datasets[name := DatasetInfo(DatasetUri(ids(|st.datasetOrder|)), Escape(name))];
      DatasetTableAdd(st.datasets, st.datasetOrder, name, ids);
    } else {
      assert r.datasets == st.datasets;
    }
  }

  /** Adding a new name at the end of the dataset order, with the next
      identifier, keeps the table numbered by first appearance. */
  lemma DatasetTableAdd(ds: map<string, DatasetInfo>, order: seq<string>, name: string, ids: nat -> string)
    requires KeyOrder(ds, order) && name !in ds
    requires forall k | 0 <= k < |order| :: ds[order[k]] == DatasetInfo(DatasetUri(ids(k)), Escape(order[k]))
    ensures var ds', order' := ds[name := DatasetInfo(DatasetUri(ids(|order|)), Escape(name))], order + [name];
      && KeyOrder(ds', order')
      && forall k | 0 <= k < |order'| :: ds'[order'[k]] == DatasetInfo(DatasetUri(ids(k)), Escape(order'[k]))
  {
    var info := DatasetInfo(DatasetUri(ids(|order|)), Escape(name));
    KeyOrderAdd(ds, order, name, info);
    var ds', order' := ds[name := info], order + [name];
    forall k | 0 <= k < |order'| ensures ds'[order'[k]] == DatasetInfo(DatasetUri(ids(k)), Escape(order'[k])) {
      if k < |order| {
        assert order'[k] == order[k] != name;
      }
    }
  }

  lemma AddDatasetLinks(st: State, uri: string, name: string, ids: nat -> string)
    requires Valid(st, ids) && uri in st.projects
    ensures var r := AddDataset(st, uri, name, ids);
      forall p | p in r.projects ::
        && r.projects[p].datasets <= DatasetUris(r.datasets)
        && r.projects[p].organizations <= r.organizations.Keys
  {
    var r := AddDataset(st, uri, name, ids);
    DatasetUrisGrow(st.datasets, r.datasets);
    assert r.datasets[name].uri in DatasetUris(r.datasets);
  }

  lemma AddOrganizationValid(st: State, uri: string, inst: string, org: string, ids: nat -> string)
    requires Valid(st, ids) && uri in st.projects && StartsWith(org, OrganizationNamespace)
    ensures Valid(AddOrganization(st, uri, inst, org), ids)
  {
    var r := AddOrganization(st, uri, inst, org);
    if org !in st.organizations {
      KeyOrderAdd(st.organizations, st.orgOrder, org, r.organizations[org]);
      assert r.organizations == st.organizations[org := r.organizations[org]];
    }
  }

  /** Every step keeps the state well formed. */
  lemma StepValid(st: State, c: Cleaned, parse: DateParser, ids: nat -> string)
    requires Valid(st, ids) && Step(st, c, parse, ids).Success?
    requires c.institution.Some? ==> StartsWith(c.org, OrganizationNamespace)
    ensures Valid(Step(st, c, parse, ids).value, ids)
  {
    AddProjectValid(st, c, parse, ids);
    var st1 := AddProject(st, c, parse).value;
    var st2 := if c.dataset.Some? then AddDataset(st1, c.project, c.dataset.value, ids) else st1;
    if c.dataset.Some? {
      AddDatasetValid(st1, c.project, c.dataset.value, ids);
    }
    if c.institution.Some? {
      AddOrganizationValid(st2, c.project, c.institution.value, c.org, ids);
    }
  }

  /** The rows the loop sees carry slug URIs for their institutions. */
  predicate CleanedSlugs(cs: seq<Option<Cleaned>>) {
    forall i | 0 <= i < |cs| :: cs[i].Some? && cs[i].value.institution.Some? ==>
      StartsWith(cs[i].value.org, OrganizationNamespace)
  }

  lemma CleanAllSlugs(rows: seq<Row>)
    ensures CleanedSlugs(CleanAll(rows))
  {
  }

  lemma {:induction false} FoldValid(cs: seq<Option<Cleaned>>, cache: map<string, CacheRecord>, parse: DateParser, ids: nat -> string)
    requires CleanedSlugs(cs) && Fold(cs, cache, parse, ids).Success?
    ensures Valid(Fold(cs, cache, parse, ids).value, ids)
  {
    if |cs| > 0 {
      FoldValid(cs[..|cs| - 1], cache, parse, ids);
      if cs[|cs| - 1].Some? {
        StepValid(Fold(cs[..|cs| - 1], cache, parse, ids).value, cs[|cs| - 1].value, parse, ids);
      }
    }
  }

  /** The loop only ever builds well-formed states: every dataset of the
      table got the random identifier of its turn and its escaped name,
      every organization key is a slug URI, and every link points into the
      tables. */
  lemma RunValid(rows: seq<Row>, cache: map<string, CacheRecord>, parse: DateParser, ids: nat -> string)
    requires Run(rows, cache, parse, ids).Success?
    ensures Valid(Run(rows, cache, parse, ids).value, ids)
  {
    CleanAllSlugs(rows);
    FoldValid(CleanAll(rows), cache, parse, ids);
  }

  /** With identifiers drawn as `generate_random_id()` draws them, every
      dataset URI is the dataset namespace followed by 32 letters and
      digits. */
  lemma DatasetUriShape(rows: seq<Row>, cache: map<string, CacheRecord>, parse: DateParser, ids: nat -> string)
    requires Run(rows, cache, parse, ids).Success?
    requires forall k: nat :: IsRandomId(ids(k))
    ensures var st := Run(rows, cache, parse, ids).value;
      forall n | n in st.datasets :: exists id :: IsRandomId(id) && st.datasets[n].uri == DatasetUri(id)
  {
    RunValid(rows, cache, parse, ids);
    var st := Run(rows, cache, parse, ids).value;
    forall n | n in st.datasets ensures exists id :: IsRandomId(id) && st.datasets[n].uri == DatasetUri(id) {
      var k :| 0 <= k < |st.datasetOrder| && st.datasetOrder[k] == n;
      assert st.datasets[n].uri == DatasetUri(ids(k));
    }
  }

  /** The header fields a project takes from its first row. */
  predicate SameHeader(a: ProjectInfo, b: ProjectInfo) {
    a.title == b.title && a.startDate == b.startDate && a.endDate == b.endDate
  }

  /** `b` was reached from `a`: nothing recorded in `a` is changed or
      removed, link sets only grow and the orders only get longer. */
  predicate Extends(a: State, b: State) {
    && (forall p | p in a.projects ::
          && p in b.projects && SameHeader(a.projects[p], b.projects[p])
          && a.projects[p].datasets <= b.projects[p].datasets
          && a.projects[p].organizations <= b.projects[p].organizations)
    && (forall n | n in a.datasets :: n in b.datasets && b.datasets[n] == a.datasets[n])
    && (forall o | o in a.organizations :: o in b.organizations && b.organizations[o] == a.organizations[o])
    && (forall k | k in a.cache :: k in b.cache && b.cache[k] == a.cache[k])
    && a.projectOrder <= b.projectOrder && a.datasetOrder <= b.datasetOrder && a.orgOrder <= b.orgOrder
  }

  lemma ExtendsTransitive(a: State, b: State, c: State)
    requires Extends(a, b) && Extends(b, c)
    ensures Extends(a, c)
  {
  }

  lemma AddDatasetExtends(st: State, uri: string, name: string, ids: nat -> string)
    requires uri in st.projects
    ensures Extends(st, AddDataset(st, uri, name, ids))
  {
  }

  lemma AddOrganizationExtends(st: State, uri: string, inst: string, org: string)
    requires uri in st.projects
    ensures Extends(st, AddOrganization(st, uri, inst, org))
  {
  }

  /** The links a row adds to a known project. */
  lemma AddLinksEffect(st: State, c: Cleaned, ids: nat -> string)
    requires c.project in st.projects
    ensures var r := AddLinks(st, c, ids); var u := c.project;
      && r.projects.Keys == st.projects.Keys
      && (forall p | p in st.projects && p != u :: r.projects[p] == st.projects[p])
      && SameHeader(r.projects[u], st.projects[u])
      && r.datasets.Keys == st.datasets.Keys + (if c.dataset.Some? then {c.dataset.value} else {})
      && r.organizations.Keys == st.organizations.Keys + (if c.institution.Some? then {c.org} else {})
      && r.projects[u].datasets == st.projects[u].datasets
           + (if c.dataset.Some? then {r.datasets[c.dataset.value].uri} else {})
      && r.projects[u].organizations == st.projects[u].organizations + (if c.institution.Some? then {c.org} else {})
      && r.cache.Keys <= st.cache.Keys + (if c.institution.Some? then {c.institution.value} else {})
  {
    var u := c.project;
    var st1 := if c.dataset.Some? then AddDataset(st, u, c.dataset.value, ids) else st;
    var r := if c.institution.Some? then AddOrganization(st1, u, c.institution.value, c.org) else st1;
    DatasetPartEffect(st, u, c.dataset, ids, st1);
    OrganizationPartEffect(st1, u, c.institution, c.org, r);
    assert AddLinks(st, c, ids) == r;
  }

  /** The dataset half of `AddLinks`. */
  lemma DatasetPartEffect(st: State, u: string, name: Option<string>, ids: nat -> string, r: State)
    requires u in st.projects
    requires r == if name.Some? then AddDataset(st, u, name.value, ids) else st
    ensures && r.projects.Keys == st.projects.Keys
      && (forall p | p in st.projects && p != u :: r.projects[p] == st.projects[p])
      && r.projects[u] == st.projects[u].(datasets := r.projects[u].datasets)
      && r.datasets.Keys == st.datasets.Keys + (if name.Some? then {name.value} else {})
      && r.projects[u].datasets == st.projects[u].datasets + (if name.Some? then {r.datasets[name.value].uri} else {})
      && r.organizations == st.organizations && r.cache == st.cache
  {
  }

  /** The organization half of `AddLinks`. */
  lemma OrganizationPartEffect(st: State, u: string, inst: Option<string>, org: string, r: State)
    requires u in st.projects
    requires r == if inst.Some? then AddOrganization(st, u, inst.value, org) else st
    ensures && r.projects.Keys == st.projects.Keys
      && (forall p | p in st.projects && p != u :: r.projects[p] == st.projects[p])
      && r.projects[u] == st.projects[u].(organizations := r.projects[u].organizations)
      && r.organizations.Keys == st.organizations.Keys + (if inst.Some? then {org} else {})
      && r.projects[u].organizations == st.projects[u].organizations + (if inst.Some? then {org} else {})
      && r.datasets == st.datasets
      && r.cache.Keys <= st.cache.Keys + (if inst.Some? then {inst.value} else {})
  {
  }

  lemma AddLinksExtends(st: State, c: Cleaned, ids: nat -> string)
    requires c.project in st.projects
    ensures Extends(st, AddLinks(st, c, ids))
  {
    var st2 := if c.dataset.Some? then AddDataset(st, c.project, c.dataset.value, ids) else st;
    if c.dataset.Some? {
      AddDatasetExtends(st, c.project, c.dataset.value, ids);
    }
    if c.institution.Some? {
      AddOrganizationExtends(st2, c.project, c.institution.value, c.org);
      ExtendsTransitive(st, st2, AddOrganization(st2, c.project, c.institution.value, c.org));
    }
  }

  /** The first row of a project creates it with no links. */
  lemma AddProjectFresh(st: State, c: Cleaned, parse: DateParser)
    requires AddProject(st, c, parse).Success?
    ensures var st1 := AddProject(st, c, parse).value;
      && st1.projects.Keys == st.projects.Keys + {c.project}
      && (forall p | p in st.projects :: st1.projects[p] == st.projects[p])
      && st1.projects[c.project].datasets == (if c.project in st.projects then st.projects[c.project].datasets else {})
      && st1.projects[c.project].organizations == (if c.project in st.projects then st.projects[c.project].organizations else {})
      && st1.datasets == st.datasets && st1.organizations == st.organizations && st1.cache == st.cache
      && Extends(st, st1)
  {
  }

  /** A step never changes or removes what earlier rows recorded. */
  lemma StepExtends(st: State, c: Cleaned, parse: DateParser, ids: nat -> string)
    requires Step(st, c, parse, ids).Success?
    ensures Extends(st, Step(st, c, parse, ids).value)
  {
    var st1 := AddProject(st, c, parse).value;
    AddProjectFresh(st, c, parse);
    AddLinksExtends(st1, c, ids);
    ExtendsTransitive(st, st1, AddLinks(st1, c, ids));
  }

  /** A row's project record: the first row of a project sets its header
      from that row, and a later row leaves the header as it is. */
  lemma StepHeader(st: State, c: Cleaned, parse: DateParser, ids: nat -> string)
    requires Step(st, c, parse, ids).Success?
    ensures var r := Step(st, c, parse, ids).value;
      && (c.project in st.projects ==> SameHeader(r.projects[c.project], st.projects[c.project]))
      && (c.project !in st.projects ==>
            && r.projects[c.project].title == c.title
            && r.projects[c.project].startDate == FormatDate(c.startDate, parse).value
            && r.projects[c.project].endDate == FormatDate(c.endDate, parse).value)
  {
    AddLinksEffect(AddProject(st, c, parse).value, c, ids);
  }

  /** What one row with a project number adds to the tables: its project,
      its dataset name and its organization URI; every other project is
      left as it was. */
  lemma StepKeys(st: State, c: Cleaned, parse: DateParser, ids: nat -> string)
    requires Step(st, c, parse, ids).Success?
    ensures var r := Step(st, c, parse, ids).value;
      && r.projects.Keys == st.projects.Keys + {c.project}
      && (forall p | p in st.projects && p != c.project :: r.projects[p] == st.projects[p])
      && r.datasets.Keys == st.datasets.Keys + (if c.dataset.Some? then {c.dataset.value} else {})
      && r.organizations.Keys == st.organizations.Keys + (if c.institution.Some? then {c.org} else {})
      && r.cache.Keys <= st.cache.Keys + (if c.institution.Some? then {c.institution.value} else {})
  {
    AddProjectFresh(st, c, parse);
    AddLinksEffect(AddProject(st, c, parse).value, c, ids);
  }

  /** The links one row adds to its project: the URI of its dataset and
      the URI of its organization, when the cells have text. */
  lemma StepLinks(st: State, c: Cleaned, parse: DateParser, ids: nat -> string)
    requires Step(st, c, parse, ids).Success?
    ensures var r := Step(st, c, parse, ids).value;
      && (c.dataset.Some? ==> c.dataset.value in r.datasets)
      && r.projects[c.project].datasets == (if c.project in st.projects then st.projects[c.project].datasets else {})
           + (if c.dataset.Some? then {r.datasets[c.dataset.value].uri} else {})
      && r.projects[c.project].organizations == (if c.project in st.projects then st.projects[c.project].organizations else {})
           + (if c.institution.Some? then {c.org} else {})
  {
    AddProjectFresh(st, c, parse);
    AddLinksEffect(AddProject(st, c, parse).value, c, ids);
  }

  // What the whole loop builds, stated over the cleaned rows.

  function ProjectsOf(cs: seq<Option<Cleaned>>): set<string> {
    set i | 0 <= i < |cs| && cs[i].Some? :: cs[i].value.project
  }

  function DatasetNamesOf(cs: seq<Option<Cleaned>>): set<string> {
    set i | 0 <= i < |cs| && cs[i].Some? && cs[i].value.dataset.Some? :: cs[i].value.dataset.value
  }

  function OrgUrisOf(cs: seq<Option<Cleaned>>): set<string> {
    set i | 0 <= i < |cs| && cs[i].Some? && cs[i].value.institution.Some? :: cs[i].value.org
  }

  function InstitutionsOf(cs: seq<Option<Cleaned>>): set<string> {
    set i | 0 <= i < |cs| && cs[i].Some? && cs[i].value.institution.Some? :: cs[i].value.institution.value
  }

  /** The dataset names on the rows of project `u`. */
  function LinkedNames(cs: seq<Option<Cleaned>>, u: string): set<string> {
    set i | 0 <= i < |cs| && cs[i].Some? && cs[i].value.project == u && cs[i].value.dataset.Some? :: cs[i].value.dataset.value
  }

  /** The organization URIs on the rows of project `u`. */
  function LinkedOrgs(cs: seq<Option<Cleaned>>, u: string): set<string> {
    set i | 0 <= i < |cs| && cs[i].Some? && cs[i].value.project == u && cs[i].value.institution.Some? :: cs[i].value.org
  }

  /** The URIs the dataset table gives to `names`. */
  function UrisOf(names: set<string>, ds: map<string, DatasetInfo>): set<string> {
    set n | n in names && n in ds :: ds[n].uri
  }

  lemma RowSetsSnoc(cs: seq<Option<Cleaned>>)
    requires |cs| > 0
    ensures var pre := cs[..|cs| - 1]; var last := cs[|cs| - 1];
      && ProjectsOf(cs) == ProjectsOf(pre) + (if last.Some? then {last.value.project} else {})
      && DatasetNamesOf(cs) == DatasetNamesOf(pre)
           + (if last.Some? && last.value.dataset.Some? then {last.value.dataset.value} else {})
      && OrgUrisOf(cs) == OrgUrisOf(pre) + (if last.Some? && last.value.institution.Some? then {last.value.org} else {})
      && InstitutionsOf(cs) == InstitutionsOf(pre)
           + (if last.Some? && last.value.institution.Some? then {last.value.institution.value} else {})
  {
    var pre := cs[..|cs| - 1];
    assert forall i | 0 <= i < |pre| :: cs[i] == pre[i];
  }

  lemma LinkedSnoc(cs: seq<Option<Cleaned>>, u: string)
    requires |cs| > 0
    ensures var pre := cs[..|cs| - 1]; var last := cs[|cs| - 1];
      && LinkedNames(cs, u) == LinkedNames(pre, u)
           + (if last.Some? && last.value.project == u && last.value.dataset.Some? then {last.value.dataset.value} else {})
      && LinkedOrgs(cs, u) == LinkedOrgs(pre, u)
           + (if last.Some? && last.value.project == u && last.value.institution.Some? then {last.value.org} else {})
  {
    var pre := cs[..|cs| - 1];
    assert forall i | 0 <= i < |pre| :: cs[i] == pre[i];
  }

  lemma LinkedWithin(cs: seq<Option<Cleaned>>, u: string)
    ensures LinkedNames(cs, u) <= DatasetNamesOf(cs)
    ensures u !in ProjectsOf(cs) ==> LinkedNames(cs, u) == {} && LinkedOrgs(cs, u) == {}
  {
    if u !in ProjectsOf(cs) {
      forall i | 0 <= i < |cs| && cs[i].Some? ensures cs[i].value.project != u {
        assert cs[i].value.project in ProjectsOf(cs);
      }
    }
  }

  lemma UrisOfStable(names: set<string>, a: map<string, DatasetInfo>, b: map<string, DatasetInfo>)
    requires names <= a.Keys
    requires forall n | n in a :: n in b && b[n] == a[n]
    ensures UrisOf(names, a) == UrisOf(names, b)
  {
  }

  lemma UrisOfAdd(names: set<string>, n: string, ds: map<string, DatasetInfo>)
    requires n in ds
    ensures UrisOf(names + {n}, ds) == UrisOf(names, ds) + {ds[n].uri}
  {
  }

  /** The tables hold exactly what the rows name: a project for every row
      with a project number, a dataset for every dataset name with text on
      such a row, an organization for the slug URI of every institution
      with text on such a row; the cache gains only such institutions. */
  lemma {:induction false} FoldKeys(cs: seq<Option<Cleaned>>, cache: map<string, CacheRecord>, parse: DateParser, ids: nat -> string)
    requires Fold(cs, cache, parse, ids).Success?
    ensures var st := Fold(cs, cache, parse, ids).value;
      && st.projects.Keys == ProjectsOf(cs)
      && st.datasets.Keys == DatasetNamesOf(cs)
      && st.organizations.Keys == OrgUrisOf(cs)
      && st.cache.Keys <= cache.Keys + InstitutionsOf(cs)
  {
    if |cs| > 0 {
      var pre := cs[..|cs| - 1];
      FoldKeys(pre, cache, parse, ids);
      RowSetsSnoc(cs);
      if cs[|cs| - 1].Some? {
        StepKeys(Fold(pre, cache, parse, ids).value, cs[|cs| - 1].value, parse, ids);
      }
    }
  }

  /** Each project links to exactly the datasets and organizations named
      on its rows, whatever their order and however often they repeat. */
  lemma {:induction false} FoldLinks(cs: seq<Option<Cleaned>>, cache: map<string, CacheRecord>, parse: DateParser, ids: nat -> string, u: string)
    requires Fold(cs, cache, parse, ids).Success?
    requires u in Fold(cs, cache, parse, ids).value.projects
    ensures var st := Fold(cs, cache, parse, ids).value;
      && st.projects[u].datasets == UrisOf(LinkedNames(cs, u), st.datasets)
      && st.projects[u].organizations == LinkedOrgs(cs, u)
  {
    var pre := cs[..|cs| - 1];
    var last := cs[|cs| - 1];
    var st0 := Fold(pre, cache, parse, ids).value;
    var r := Fold(cs, cache, parse, ids).value;
    FoldKeys(pre, cache, parse, ids);
    LinkedSnoc(cs, u);
    LinkedWithin(pre, u);
    if u in st0.projects {
      FoldLinks(pre, cache, parse, ids, u);
    }
    if last.Some? {
      FoldLinksStep(st0, last.value, parse, ids, u, LinkedNames(pre, u), LinkedOrgs(pre, u));
    }
  }

  lemma FoldLinksStep(st0: State, c: Cleaned, parse: DateParser, ids: nat -> string,
                      u: string, names: set<string>, orgs: set<string>)
    requires Step(st0, c, parse, ids).Success?
    requires names <= st0.datasets.Keys
    requires u in st0.projects ==> st0.projects[u].datasets == UrisOf(names, st0.datasets) && st0.projects[u].organizations == orgs
    requires u !in st0.projects ==> names == {} && orgs == {}
    requires u in Step(st0, c, parse, ids).value.projects
    ensures var r := Step(st0, c, parse, ids).value;
      && r.projects[u].datasets == UrisOf(names + (if c.project == u && c.dataset.Some? then {c.dataset.value} else {}), r.datasets)
      && r.projects[u].organizations == orgs + (if c.project == u && c.institution.Some? then {c.org} else {})
  {
    var r := Step(st0, c, parse, ids).value;
    StepExtends(st0, c, parse, ids);
    UrisOfStable(names, st0.datasets, r.datasets);
    if c.project == u {
      FoldLinksOwn(st0, c, parse, ids, names, orgs, r);
    } else {
      FoldLinksOther(st0, c, parse, ids, u, r);
    }
  }

  lemma FoldLinksOther(st0: State, c: Cleaned, parse: DateParser, ids: nat -> string,
                       u: string, r: State)
    requires Step(st0, c, parse, ids).Success? && r == Step(st0, c, parse, ids).value
    requires c.project != u && u in r.projects
    ensures u in st0.projects && r.projects[u] == st0.projects[u]
  {
    StepKeys(st0, c, parse, ids);
  }

  lemma FoldLinksOwn(st0: State, c: Cleaned, parse: DateParser, ids: nat -> string,
                     names: set<string>, orgs: set<string>, r: State)
    requires Step(st0, c, parse, ids).Success? && r == Step(st0, c, parse, ids).value
    requires c.project in st0.projects ==>
      st0.projects[c.project].datasets == UrisOf(names, r.datasets) && st0.projects[c.project].organizations == orgs
    requires c.project !in st0.projects ==> names == {} && orgs == {}
    ensures r.projects[c.project].datasets == UrisOf(names + (if c.dataset.Some? then {c.dataset.value} else {}), r.datasets)
    ensures r.projects[c.project].organizations == orgs + (if c.institution.Some? then {c.org} else {})
  {
    StepLinks(st0, c, parse, ids);
    if c.dataset.Some? {
      UrisOfAdd(names, c.dataset.value, r.datasets);
    }
  }

  /** Row `i` is the first row of its project. */
  predicate FirstOf(cs: seq<Option<Cleaned>>, i: int) {
    && 0 <= i < |cs| && cs[i].Some?
    && forall j | 0 <= j < i :: !(cs[j].Some? && cs[j].value.project == cs[i].value.project)
  }

  /** Row `i` raises: it opens its project with a date cell that cannot
      be formatted, or one of its name cells is not text. */
  predicate AbortsAt(cs: seq<Option<Cleaned>>, parse: DateParser, i: int) {
    || (FirstOf(cs, i) && (Unformattable(cs[i].value.startDate, parse) || Unformattable(cs[i].value.endDate, parse)))
    || (0 <= i < |cs| && cs[i].Some? && cs[i].value.nonText)
  }

  /** A project's title and dates are those of its first row; later rows
      of the same project never change them. */
  lemma {:induction false} FoldHeader(cs: seq<Option<Cleaned>>, cache: map<string, CacheRecord>, parse: DateParser, ids: nat -> string, i: int)
    requires Fold(cs, cache, parse, ids).Success? && FirstOf(cs, i)
    ensures var st := Fold(cs, cache, parse, ids).value; var c := cs[i].value;
      && c.project in st.projects
      && st.projects[c.project].title == c.title
      && FormatDate(c.startDate, parse) == Success(st.projects[c.project].startDate)
      && FormatDate(c.endDate, parse) == Success(st.projects[c.project].endDate)
  {
    var pre := cs[..|cs| - 1];
    var c := cs[i].value;
    var st0 := Fold(pre, cache, parse, ids).value;
    if i == |cs| - 1 {
      FoldKeys(pre, cache, parse, ids);
      FirstOfLast(cs);
      StepHeader(st0, c, parse, ids);
    } else {
      FirstOfPrefix(cs, i);
      FoldHeader(pre, cache, parse, ids, i);
      if cs[|cs| - 1].Some? {
        StepExtends(st0, cs[|cs| - 1].value, parse, ids);
      }
    }
  }

  /** The loop fails exactly when some row raises: the first row of a
      project with a date cell that cannot be formatted, or a row with a
      name cell that is not text. */
  lemma {:induction false} FoldFails(cs: seq<Option<Cleaned>>, cache: map<string, CacheRecord>, parse: DateParser, ids: nat -> string)
    ensures Fold(cs, cache, parse, ids).Failure? <==> exists i :: AbortsAt(cs, parse, i)
  {
    if |cs| > 0 {
      var pre := cs[..|cs| - 1];
      var n := |cs| - 1;
      FoldFails(pre, cache, parse, ids);
      AbortsInPrefix(cs, parse);
      if Fold(pre, cache, parse, ids).Success? {
        var st := Fold(pre, cache, parse, ids).value;
        FoldKeys(pre, cache, parse, ids);
        if cs[n].Some? {
          LastRowFails(cs, st, parse, ids);
          assert Fold(cs, cache, parse, ids) == Step(st, cs[n].value, parse, ids);
        } else {
          assert !AbortsAt(cs, parse, n);
        }
      } else {
        var i :| AbortsAt(pre, parse, i);
        assert AbortsAt(cs, parse, i);
      }
    }
  }

  /** Row `i` is the first numbered row of its project. */
  predicate FirstRowOf(rows: seq<Row>, i: int) {
    && 0 <= i < |rows| && rows[i].projectNumber.Some?
    && forall j | 0 <= j < i ::
         !(rows[j].projectNumber.Some? && ProjectUri(rows[j].projectNumber.value) == ProjectUri(rows[i].projectNumber.value))
  }

  /** Spreadsheet row `i` raises: it is the first row of its project and a
      date cell cannot be formatted, or it has a project number and a
      dataset name or institution that is neither missing nor text. */
  predicate RowRaises(rows: seq<Row>, parse: DateParser, i: int) {
    || (FirstRowOf(rows, i) && (Unformattable(rows[i].startDate, parse) || Unformattable(rows[i].endDate, parse)))
    || (0 <= i < |rows| && rows[i].projectNumber.Some? && (rows[i].datasetName.NotText? || rows[i].institution.NotText?))
  }

  /** The conversion fails exactly when some row raises. */
  lemma RunFails(rows: seq<Row>, cache: map<string, CacheRecord>, parse: DateParser, ids: nat -> string)
    ensures Run(rows, cache, parse, ids).Failure? <==> exists i :: RowRaises(rows, parse, i)
  {
    var cs := CleanAll(rows);
    FoldFails(cs, cache, parse, ids);
    forall i ensures AbortsAt(cs, parse, i) <==> RowRaises(rows, parse, i) {
      if 0 <= i < |rows| {
        FirstOfRows(rows, i);
      }
    }
  }

  lemma FirstOfRows(rows: seq<Row>, i: int)
    requires 0 <= i < |rows|
    ensures FirstOf(CleanAll(rows), i) <==> FirstRowOf(rows, i)
  {
    var cs := CleanAll(rows);
    assert forall j | 0 <= j < |rows| :: cs[j] == Clean(rows[j]);
  }

  lemma AbortsInPrefix(cs: seq<Option<Cleaned>>, parse: DateParser)
    requires |cs| > 0
    ensures forall i | 0 <= i < |cs| - 1 :: AbortsAt(cs[..|cs| - 1], parse, i) <==> AbortsAt(cs, parse, i)
    ensures forall i | AbortsAt(cs[..|cs| - 1], parse, i) :: AbortsAt(cs, parse, i)
  {
    var pre := cs[..|cs| - 1];
    assert forall j | 0 <= j < |pre| :: pre[j] == cs[j];
  }

  /** The row after a prefix opens its project exactly when no earlier
      row named that project. */
  lemma FirstOfLast(cs: seq<Option<Cleaned>>)
    requires |cs| > 0 && cs[|cs| - 1].Some?
    ensures FirstOf(cs, |cs| - 1) <==> cs[|cs| - 1].value.project !in ProjectsOf(cs[..|cs| - 1])
  {
    var pre := cs[..|cs| - 1];
    var n := |cs| - 1;
    var u := cs[n].value.project;
    assert forall j | 0 <= j < n :: pre[j] == cs[j];
    if u in ProjectsOf(pre) {
      var j :| 0 <= j < |pre| && pre[j].Some? && pre[j].value.project == u;
      assert cs[j].Some? && cs[j].value.project == u;
    } else {
      forall j | 0 <= j < n ensures !(cs[j].Some? && cs[j].value.project == u) {
        if cs[j].Some? {
          assert pre[j].value.project in ProjectsOf(pre);
        }
      }
    }
  }

  lemma FirstOfPrefix(cs: seq<Option<Cleaned>>, i: int)
    requires FirstOf(cs, i) && i < |cs| - 1
    ensures FirstOf(cs[..|cs| - 1], i) && cs[..|cs| - 1][i] == cs[i]
  {
    assert forall j | 0 <= j <= i :: cs[..|cs| - 1][j] == cs[j];
  }

  /** The step for the last row fails exactly when that row aborts. */
  lemma LastRowFails(cs: seq<Option<Cleaned>>, st: State, parse: DateParser, ids: nat -> string)
    requires |cs| > 0 && cs[|cs| - 1].Some?
    requires st.projects.Keys == ProjectsOf(cs[..|cs| - 1])
    ensures Step(st, cs[|cs| - 1].value, parse, ids).Failure? <==> AbortsAt(cs, parse, |cs| - 1)
  {
    FirstOfLast(cs);
  }

  /** Entries of the loaded cache are never replaced. */
  lemma {:induction false} FoldKeepsCache(cs: seq<Option<Cleaned>>, cache: map<string, CacheRecord>, parse: DateParser, ids: nat -> string)
    requires Fold(cs, cache, parse, ids).Success?
    ensures Extends(Init(cache), Fold(cs, cache, parse, ids).value)
    ensures forall k | k in cache ::
      k in Fold(cs, cache, parse, ids).value.cache && Fold(cs, cache, parse, ids).value.cache[k] == cache[k]
  {
    if |cs| > 0 {
      var pre := cs[..|cs| - 1];
      FoldKeepsCache(pre, cache, parse, ids);
      if cs[|cs| - 1].Some? {
        var st0 := Fold(pre, cache, parse, ids).value;
        StepExtends(st0, cs[|cs| - 1].value, parse, ids);
        ExtendsTransitive(Init(cache), st0, Fold(cs, cache, parse, ids).value);
      }
    }
  }

  /** A run over a longer table extends the run over any prefix of it:
      what the first rows recorded stays as it was. */
  lemma {:induction false} FoldPrefix(cs: seq<Option<Cleaned>>, cache: map<string, CacheRecord>, parse: DateParser, ids: nat -> string, k: nat)
    requires k <= |cs| && Fold(cs, cache, parse, ids).Success?
    ensures Fold(cs[..k], cache, parse, ids).Success?
    ensures Extends(Fold(cs[..k], cache, parse, ids).value, Fold(cs, cache, parse, ids).value)
    decreases |cs|
  {
    if k == |cs| {
      assert cs[..k] == cs;
    } else {
      var pre := cs[..|cs| - 1];
      assert pre[..k] == cs[..k];
      FoldPrefix(pre, cache, parse, ids, k);
      if cs[|cs| - 1].Some? {
        var st0 := Fold(pre, cache, parse, ids).value;
        StepExtends(st0, cs[|cs| - 1].value, parse, ids);
        ExtendsTransitive(Fold(cs[..k], cache, parse, ids).value, st0, Fold(cs, cache, parse, ids).value);
      }
    }
  }

  lemma DatasetUriInjective(a: string, b: string)
    ensures DatasetUri(a) == DatasetUri(b) ==> a == b
  {
    assert a == DatasetUri(a)[|DatasetNamespace|..];
    assert b == DatasetUri(b)[|DatasetNamespace|..];
  }

  /** When the random identifiers drawn are pairwise different, different
      dataset names get different URIs. */
  lemma DistinctDatasetUris(st: State, ids: nat -> string, a: string, b: string)
    requires Valid(st, ids)
    requires forall i, j | 0 <= i < j < |st.datasetOrder| :: ids(i) != ids(j)
    requires a in st.datasets && b in st.datasets && a != b
    ensures st.datasets[a].uri != st.datasets[b].uri
  {
    var i :| 0 <= i < |st.datasetOrder| && st.datasetOrder[i] == a;
    var j :| 0 <= j < |st.datasetOrder| && st.datasetOrder[j] == b;
    assert ids(i) != ids(j) by {
      if i < j {
        assert ids(i) != ids(j);
      } else {
        assert ids(j) != ids(i);
      }
    }
    DatasetUriInjective(ids(i), ids(j));
  }
}
