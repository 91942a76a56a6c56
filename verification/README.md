# CBS projects to Turtle: a Dafny model

This project models the string pipeline of a set of Python scripts. The scripts turn a spreadsheet of CBS research projects into Turtle (RDF) text and then rewrite that text:

- `excel_to_turtle.py` folds spreadsheet rows into projects, datasets and organizations. It then writes one Turtle block per project, dataset and organization.
- `organization_lookup.py` analyses organization names. It keeps a cache of lookups and writes one FOAF profile per organization.
- `integrate_organizations.py` maps projects to organizations. It appends `foaf:member` statements to the project blocks of an existing file and merges in the profile file.
- `generate_turtle.py` writes one-line start and end date triples per project.
- `fix_backslashes.py` doubles the backslashes inside `dc:alternative "…"` values.
- `replace_foaf_focus.py` turns `foaf:focus "…"` statements into `rdf:type schema:…` statements.

All of this is modelled as pure functions on `seq<char>` strings, maps and datatypes. The modules follow the scripts:

- `Wrappers` and `Text`: `Option`/`Result` and the Python string methods the scripts use.
- `OrgUri`: `generate_organization_uri`. The three textually identical copies are one function.
- `Classifier`: `classify_organization`.
- `TurtleEscape`: `escape_turtle_string` and its inverse.
- `RandomId`: `generate_random_id`, with the random draws given.
- `Cells`: spreadsheet cells as pandas hands them over.
- `ExcelToTurtle`: the row loop of `process_excel_to_turtle`.
- `TurtleLines` and `TurtleOutput`: block emission and the document.
- `OrganizationLookup`: name analysis, the cache and FOAF profiles.
- `Integration`: project/organization mapping, the line rewriting, the prefix split and assembly.
- `DateTriples`: `generate_turtle.py`.
- `Scanner`: a scanner for the pattern `kw\s+"([^"]*)"`, with `re.findall`/`re.sub` semantics (leftmost, non-overlapping matches).
- `Backslashes`: `fix_backslashes.py`.
- `FocusTypes`: `replace_foaf_focus.py`.

## Model

| member | source | states |
|---|---|---|
| OrgUri.OrganizationUri | excel_to_turtle.py:34-40 | The URI is the fixed organization namespace followed by the slug of the name. |
| OrgUri.RemoveSymbolsChar | excel_to_turtle.py:36 | The symbol filter keeps one character exactly when it is an ASCII letter, digit or white space. |
| OrgUri.RemoveSymbolsAppend | excel_to_turtle.py:36 | The filter works character by character: the filtered `a + b` is the filtered `a` followed by the filtered `b`. Together with the previous row, it keeps the kept characters in order and with their multiplicity. |
| OrgUri.SlugShape | excel_to_turtle.py:36-39 | Every slug has at most 50 characters, uses only `a-z`, `0-9` and `_`, never contains `__` and never starts with `_`. |
| OrgUri.SlugIsJoinedWords | organization_lookup.py:46-50 | Reference definition: the slug is the lower-cased whitespace-separated words of the symbol-free name, joined by `_` and cut to 50 characters. |
| OrgUri.UnderscoreIsJoinOfWords | organization_lookup.py:47 | For a string that starts with a non-space character, right-stripping and then replacing each whitespace run by `_` gives `'_'.join(s.split())`. |
| OrgUri.Truncate | integrate_organizations.py:26-27 | The cut keeps a prefix of the name. A name of at most 50 characters is kept whole, and a longer one is cut to exactly 50. |
| OrgUri.UriDependsOnCleanedName | excel_to_turtle.py:34-40 | Corollary of the slug definition, not a separate promise of the source: two names whose symbol-free forms agree get the same URI. |
| Classifier.ClassifyOrganization | excel_to_turtle.py:42-55 | The class returned is hit by a keyword of its list in the lower-cased name (unless it is the generic class). No class of higher priority is hit. |
| Classifier.CurieIsSchemaClass | excel_to_turtle.py:46-55 | The classifier always returns one of the five `schema:` class names, and distinct classes are written differently. |
| Classifier.ClassifyConcat | excel_to_turtle.py:44-53 | Putting text around a name never loses a keyword hit: the class of `a + b` ranks no lower than the class of `a` or of `b`. |
| Classifier.UniversityIsEducational | excel_to_turtle.py:44-47 | `Universiteit X` is classified as educational: keywords are matched against the lower-cased name. |
| Classifier.NoKeywordIsGeneric | excel_to_turtle.py:54-55 | A name that hits no keyword list is classified as `schema:Organization`. |
| TurtleEscape.EscapeTurtleString | excel_to_turtle.py:72-80 | A missing cell gives `""`. Otherwise the result is the one-pass escape, one character longer per backslash and per quote. |
| TurtleEscape.TwoPassesAreOne | excel_to_turtle.py:77-79 | Doubling backslashes first and then escaping quotes equals escaping both in one left-to-right pass. |
| TurtleEscape.EscapeRoundTrip | excel_to_turtle.py:77-79 | The escaped text is well escaped, so every quote in it follows a backslash. Reading the escape pairs back restores the input. |
| TurtleEscape.UnescapeRoundTrip | excel_to_turtle.py:78-79 | Every well-escaped text is the escape of the string it reads back to. |
| TurtleEscape.EscapeInjective | excel_to_turtle.py:72-80 | Distinct texts have distinct escapes. |
| TurtleEscape.EscapeNotIdempotent | excel_to_turtle.py:78 | Escaping an escaped text changes it again. |
| TurtleEscape.ReplaceChar | fix_backslashes.py:34 | `s.replace(c, w)` grows by `|w| - 1` per occurrence of `c` and is the identity when `c` does not occur. |
| RandomId.AlphabetShape | excel_to_turtle.py:32 | The alphabet is `a-z`, `A-Z`, `0-9`: 62 distinct ASCII letters and digits. |
| RandomId.GenerateRandomId | excel_to_turtle.py:30-32 | An identifier has one letter or digit per draw. |
| RandomId.RandomIdInjective | excel_to_turtle.py:30-32 | Different draws give different identifiers. |
| RandomId.RandomIdSurjective | excel_to_turtle.py:30-32 | Every string of ASCII letters and digits is the identifier of some draws. |
| RandomId.DefaultRandomId | excel_to_turtle.py:30-32 | Thirty-two valid draws, the default length, give a 32-character alphanumeric identifier. |
| Cells.BlankIsNotText | excel_to_turtle.py:148 | A cell holding only white space fails the `pd.notna(x) and x.strip()` test. |
| ExcelToTurtle.FormatDate | excel_to_turtle.py:82-95 | A missing cell has no date and a timestamp gives its ISO date. Text that `pd.to_datetime` rejects gives no date, and text it reads gives that ISO date. It fails exactly on a value without `strftime` (neither text nor timestamp) or on text read as `NaT`. |
| ExcelToTurtle.Clean | excel_to_turtle.py:127-160 | A row counts exactly when it has a project number. Its dataset (or institution) is kept exactly when that cell has non-blank text, and it is kept as that text. The institution's key is its slug URI. The row is flagged exactly when its dataset name or institution is present but not text. |
| ExcelToTurtle.AddProject | excel_to_turtle.py:138-145 | The first row of a project creates its record with the escaped title, the formatted dates and no links. It fails exactly when a date cannot be formatted. A later row changes nothing. |
| ExcelToTurtle.AddDataset | excel_to_turtle.py:148-156 | A new dataset name draws the next identifier and stores its escaped name. A known name keeps its URI. The project gains the name's URI and nothing else changes. |
| ExcelToTurtle.RecordFor | excel_to_turtle.py:164-171 | A cached institution uses its cache record. Otherwise the record is its own name and a classification. |
| ExcelToTurtle.AddOrganization | excel_to_turtle.py:159-178 | A new slug URI is registered from the record, and a fresh record is cached. A known URI keeps the first name's entry and leaves the cache alone. The project gains the URI. |
| ExcelToTurtle.Step | excel_to_turtle.py:138-178 | A numbered row fails exactly when it is the first of its project with a date that cannot be formatted, or when its dataset name or institution is present but not text (`.strip()` raises). After a successful row, its project exists. |
| ExcelToTurtle.ProcessRow | excel_to_turtle.py:126-178 | A row without a project number is skipped. A numbered row aborts the loop exactly when it is the first of its project with a date that cannot be formatted, or when its dataset name or institution is neither missing nor text. After a row, its project exists. |
| ExcelToTurtle.RunIsRowLoop | excel_to_turtle.py:126 | The run over the rows is the row loop: each row in turn, stopping at the first failure. |
| ExcelToTurtle.RunValid | excel_to_turtle.py:147-178 | The tables stay well formed:<br>- the `k`-th dataset has the `k`-th identifier and its escaped name;<br>- organization keys are slug URIs;<br>- every link points into the tables. |
| ExcelToTurtle.StepExtends | excel_to_turtle.py:134-178 | A row never changes or removes a project, dataset, organization or cache entry recorded earlier. It never drops a link. |
| ExcelToTurtle.StepKeys | excel_to_turtle.py:138-178 | A row adds its project, its dataset name and its organization URI, and no other key. Other projects are untouched. |
| ExcelToTurtle.StepHeader | excel_to_turtle.py:138-145 | The first row of a project sets its title and formatted dates. A later row leaves them as they are. |
| ExcelToTurtle.StepLinks | excel_to_turtle.py:147-178 | A row adds to its project the URI of its dataset (when the name has text) and its organization URI (when the institution has text), and no other link. |
| ExcelToTurtle.FoldKeys | excel_to_turtle.py:126-178 | The tables hold exactly the projects, dataset names and organization URIs the rows name. The cache grows only by the rows' institutions. |
| ExcelToTurtle.FoldLinks | excel_to_turtle.py:156-178 | Each project links exactly to the URIs of the datasets and organizations on its rows, whatever their order and repetition. |
| ExcelToTurtle.FoldHeader | excel_to_turtle.py:134-145 | A project's title and dates come from its first row. Later rows never change them. |
| ExcelToTurtle.FoldFails | excel_to_turtle.py:139-159 | The loop over the cleaned rows fails exactly when some project's first row has a date that cannot be formatted, or some numbered row has a non-text dataset name or institution. |
| ExcelToTurtle.RunFails | excel_to_turtle.py:126-178 | The same condition stated on the spreadsheet rows: the conversion fails exactly when some row raises. |
| ExcelToTurtle.DatasetUriShape | excel_to_turtle.py:150 | When every identifier drawn is a 32-character alphanumeric string, as `generate_random_id` returns, every dataset URI is the dataset namespace followed by such an identifier. |
| ExcelToTurtle.FoldKeepsCache | excel_to_turtle.py:164-171 | Entries of the loaded cache are never replaced. |
| ExcelToTurtle.FoldPrefix | excel_to_turtle.py:126 | The run over the first `k` rows succeeds whenever the whole run does. The whole run extends what it recorded. |
| ExcelToTurtle.DistinctDatasetUris | excel_to_turtle.py:149-154 | When the identifiers drawn are pairwise different, different dataset names get different URIs. |
| TurtleLines.Subject | excel_to_turtle.py:209 | A subject line is `<` … `>`. |
| TurtleLines.CloseStatement | organization_lookup.py:148-149 | A trailing ` ;` becomes ` .` and the rest of the line is kept. A line without ` ;` is left as it is. |
| TurtleLines.StatementLines | excel_to_turtle.py:226-230 | Every statement is indented. All but the last end ` ;`, and the last ends ` .`. |
| TurtleLines.StatementLinesAppend | excel_to_turtle.py:227-230 | Only the very last statement is closed: the lines of `xs + ys` are the open lines of `xs` followed by the lines of `ys`. |
| TurtleLines.StatementIsIndented | excel_to_turtle.py:212-230 | No statement line starts a new subject. |
| TurtleOutput.Header | excel_to_turtle.py:194-205 | The header is ten lines, the first six being the prefix declarations in order. |
| TurtleOutput.ProjectBlock | excel_to_turtle.py:208-232 | Corrected block: the subject line, one line per statement and a blank line. |
| TurtleOutput.ProjectBlockLayout | excel_to_turtle.py:208-232 | In the corrected block, every statement but the last ends ` ;` and the last ends ` .`. |
| TurtleOutput.ProjectBlockAgrees | excel_to_turtle.py:225-230 | For a project with an organization, the block as written equals the corrected block. |
| TurtleOutput.ProjectBlockAsWrittenOpen | excel_to_turtle.py:211-232 | For a project without organizations, no line of the block as written ends ` .`. |
| TurtleOutput.ProjectBlockAsWrittenExample | excel_to_turtle.py:211-232 | A project with only a title is written as `<p>`, `   dc:title "T" ;`, blank. The corrected block ends the title line ` .`. |
| TurtleOutput.ProjectBlockAsWrittenLayout | excel_to_turtle.py:208-232 | The block as written is the subject, one indented line per statement and a blank line. Every statement line but the last ends ` ;`. The last ends ` .` exactly when the project has an organization. |
| TurtleOutput.ProjectSectionAgrees | excel_to_turtle.py:208-232 | When every project has an organization, the project section as written equals the corrected one. |
| TurtleOutput.ProjectSectionAppend | excel_to_turtle.py:208 | The project section of `a + b` is the section of `a` followed by that of `b`: one block per project in order. |
| TurtleOutput.ProjectRequires | excel_to_turtle.py:221-222 | A block states `dc:requires <d>` exactly for the project's datasets. |
| TurtleOutput.ProjectMembers | excel_to_turtle.py:225-230 | A block states `schema:parentOrganization <o>` exactly for the project's organizations. |
| TurtleOutput.ProjectLinksSorted | excel_to_turtle.py:221-226 | The link statements come in strictly increasing order of their objects. |
| TurtleOutput.DatasetSectionLines | excel_to_turtle.py:236-241 | The `k`-th dataset in first-seen order takes lines `3k` to `3k+2`: its subject, `dc:alternative` with its escaped name closed ` .`, and a blank line. |
| TurtleOutput.OrgSectionLines | excel_to_turtle.py:245-251 | The `k`-th organization in first-seen order takes lines `4k` to `4k+3`: its subject, `rdf:type` with its class ending ` ;`, `foaf:name` with its escaped name ending ` .`, and a blank line. |
| TurtleOutput.DocumentLayout | excel_to_turtle.py:191-251 | The document is the header, the project blocks, the `# Datasets` comment, the dataset section, the `# Organizations` comment and the organization section, in that order. |
| TurtleOutput.DocumentTextLines | excel_to_turtle.py:253-256 | When no line holds a newline, splitting the written file at newlines gives back the document's lines, with the project blocks as the source writes them. |
| TurtleOutput.DocumentSubjects | excel_to_turtle.py:207-251 | In both layouts, the document opens one block per project, then per dataset, then per organization, each in first-seen order. |
| OrganizationLookup.AnalyzeKind | organization_lookup.py:88-102 | The kind is the first in priority order whose keywords occur in the lower-cased name. It is the plain organization only when none occurs. |
| OrganizationLookup.FreshOrgType | organization_lookup.py:88-102 | A fresh entry's `org_type` and `sector` are the texts of the analysed kind. |
| OrganizationLookup.LocationHint | organization_lookup.py:105-110 | The hint is the title-cased first city, in list order, that occurs in the lower-cased name. It is absent exactly when none occurs. |
| OrganizationLookup.Capitalize | organization_lookup.py:109 | `title()` on a lower-case word upper-cases its first letter only. |
| OrganizationLookup.DepartmentSplit | organization_lookup.py:113-117 | A split exists exactly when the name contains `_`. The parent then holds no `_`. |
| OrganizationLookup.DepartmentRoundTrip | organization_lookup.py:113-117 | Parent, `_` and department give the name back. |
| OrganizationLookup.FreshEntry | organization_lookup.py:62-72 | A fresh entry holds:<br>- the name and its slug URI;<br>- type `Organization`, with `lookup_attempted` set and `found_details` clear;<br>- the analysis keys, with parent and department exactly when the name has `_`. |
| OrganizationLookup.LookupOrganization | organization_lookup.py:53-81 | A cached name returns its entry and leaves the cache as it is. An uncached name stores a fresh entry and returns it. No other key changes. |
| OrganizationLookup.LookupIsStable | organization_lookup.py:55-58 | Looking a name up again returns the same entry and the same cache. |
| OrganizationLookup.EscapeQuotes | organization_lookup.py:131 | Only double quotes are escaped: one extra character per quote. |
| OrganizationLookup.EscapeQuotesRoundTrip | organization_lookup.py:131 | Replacing `\"` by `"` undoes the name escaping. |
| OrganizationLookup.QuoteNeverFirst | organization_lookup.py:131-132 | Corollary of the escape, used for its round trip, not a separate promise of the source: the escaped name never starts with a bare quote. |
| OrganizationLookup.CreateFoafProfile | organization_lookup.py:151-153 | The profile text ends with a newline. |
| OrganizationLookup.ProfileLayout | organization_lookup.py:127-151 | A profile is laid out as:<br>- the subject, `rdf:type foaf:Organization`, `foaf:name` with quotes escaped;<br>- focus, comment and member when present, in that order;<br>- every statement `;` except the last, which ends `.`. |
| OrganizationLookup.ProfileMember | organization_lookup.py:143-149 | With a parent, the last line is the closed `foaf:member` statement whose object is the parent's slug URI. |
| Integration.Pair | integrate_organizations.py:41-46 | A row contributes a pair exactly when the project number is present and the institution is text. There is no blank-text test. |
| Integration.Mappings | integrate_organizations.py:38-50 | The mapping fails exactly when some numbered row has an institution that is present but not text (`re.sub` raises). Otherwise it is the project-to-organizations map that `OrgMapContents` describes. |
| Integration.OrgMapContents | integrate_organizations.py:38-50 | A project is mapped exactly when some row links it. Its set is exactly the slug URIs of those rows' institutions. |
| Integration.KindOf | integrate_organizations.py:77-84 | A line opens a block exactly when its stripped form starts with `<` and the project namespace. Its key is then the block key. A line is a terminator exactly when it does not open a block and its stripped form ends ` .`. |
| Integration.OpenKey | integrate_organizations.py:78-80 | The key of an opening line starts with the project namespace. |
| Integration.SubjectKey | integrate_organizations.py:77-80 | The subject line written for a project opens a block whose key is that project's URI, when the number does not end with `>`. |
| Integration.Reopen | integrate_organizations.py:88-89 | The reopened terminator is the old line without its maximal trailing run of spaces and periods, then without the maximal run of spaces and semicolons before that, followed by ` ;`. |
| Integration.MemberLines | integrate_organizations.py:92-97 | One indented `foaf:member` line per organization, in sorted order. All but the last end ` ;`, and the last ends ` .`. |
| Integration.TerminatorOut | integrate_organizations.py:86-99 | An unmapped terminator is kept. A mapped one is reopened and followed by one line per organization. |
| Integration.RewriteBlock | integrate_organizations.py:75-102 | A block's opening line and inner lines pass through. Its first terminator is rewritten, and the block is closed afterwards. |
| Integration.RewriteUnmapped | integrate_organizations.py:98-102 | When no block is mapped, the pass changes nothing. |
| Integration.PassLength | integrate_organizations.py:75-102 | Over classified lines, the output has the input's lines plus one per organization of every mapped block closed. |
| Integration.Rewrite | integrate_organizations.py:71-102 | The rewritten text lines are the input's lines plus one per organization of every mapped block whose terminator is met. |
| Integration.FirstContentSpec | integrate_organizations.py:110-115 | Everything before the first content line is a declaration or blank. |
| Integration.SplitPrefix | integrate_organizations.py:106-115 | The split keeps the number of lines. Every prefix line is an `@prefix` line, or blank before the content starts. No content line is an `@prefix` line, and the first content line is not blank. |
| Integration.SplitPrefixSpec | integrate_organizations.py:106-115 | The prefix part is the leading run of declarations and blank lines, plus every later `@prefix` line. The content part is every other line, in order. |
| Integration.DeclsCount | integrate_organizations.py:110-115 | The `@prefix` lines and the other lines together are as many as the input. Every line of the first part is an `@prefix` line, and no line of the second is. |
| Integration.DeclsPartition | integrate_organizations.py:110-115 | The split loses and duplicates no line: the two parts together hold each input line exactly as often as the input does. |
| Integration.InsertBeforeLast | integrate_organizations.py:120 | `insert(-1, x)` places `x` before the last element, or alone in an empty list. |
| Integration.AddFoafPrefix | integrate_organizations.py:117-120 | Afterwards a prefix-part line mentions `foaf:`. A part that already had one is unchanged. Otherwise exactly one line is added and every old line stays. |
| Integration.DropHeader | integrate_organizations.py:122-132 | The leading run of `@prefix`, blank and `#` lines is dropped, and everything from the first other line on is kept. |
| Integration.IntegratedNoBreaks | integrate_organizations.py:134-142 | Assembling lines free of newlines gives lines free of newlines. |
| Integration.IntegratedLines | integrate_organizations.py:134-142 | The assembled lines hold the rewritten main lines, the four added lines, the kept profile lines and possibly the `foaf` prefix line. They end with the profiles comment and the kept profile lines. |
| Integration.IntegrateTurtleFiles | integrate_organizations.py:55-147 | Integration fails exactly when the mapping raises. Otherwise splitting the written text at newlines gives exactly the assembled lines: prefix part, blank, projects comment, content, blank, profiles comment, profiles. |
| DateTriples.FirstParse | generate_turtle.py:27-32 | The result is absent exactly when no format parses. Otherwise it is the output of the first format that parses. |
| DateTriples.FormatDateForRdf | generate_turtle.py:14-41 | Missing values and values without `strftime` give nothing, and a timestamp gives its ISO date. Text gives the first successful format in the fixed order, or nothing. |
| DateTriples.SlashDateReadMonthFirst | generate_turtle.py:27 | A slash date that reads both month-first and day-first is read month-first. |
| DateTriples.MissingColumn | generate_turtle.py:55-60 | The check fails exactly when a required column is absent. It names a missing column, the first in the order checked. |
| DateTriples.ProjectTriplesShape | generate_turtle.py:89-115 | A project writes nothing exactly when its number is missing or `''` or neither date formats. Otherwise it writes its start triple before its end triple, one triple per date. |
| DateTriples.WriteProject | generate_turtle.py:89-115 | The loop body adds as many triples as the row has formatted dates and reports that count. It writes nothing exactly when the number is missing or no date formats. The start triple, when present, comes first and the end triple, when present, comes last. |
| DateTriples.TriplesMatchDates | generate_turtle.py:105-115 | The number of triple lines equals the number of formatted dates of the numbered projects. |
| DateTriples.GenerateTurtleRdf | generate_turtle.py:43-127 | A missing column gives the error naming it. Otherwise the text is the two prefixes, a blank line and the triples joined by newlines, and `valid_triples` counts the triple lines. |
| DateTriples.GeneratedLines | generate_turtle.py:117-120 | When numbers and dates hold no newline, the written text splits back into the prefixes, the blank line and exactly the triples. |
| Scanner.QuotedSound | fix_backslashes.py:40 | What the quoted-value reader accepts is white space, a quote, a value without a quote, and a quote. |
| Scanner.MatchAtIff | fix_backslashes.py:40 | The pattern matches at the start of a text with `m` exactly when the text starts with the text of a well-formed `m`. |
| Scanner.NextHit | fix_backslashes.py:43 | The scan position is the leftmost one where a match starts: none starts earlier. |
| Scanner.RenderScan | fix_backslashes.py:43 | Cutting a text into unmatched stretches and matches loses and adds nothing. |
| Scanner.ScanAt | fix_backslashes.py:43 | After a stretch with no match, the first match is taken and the scan resumes after it (non-overlapping). |
| Scanner.ScanNone | fix_backslashes.py:43-46 | A text where no match starts is one unmatched stretch, and `re.findall` finds nothing in it. |
| Scanner.FindallAt | fix_backslashes.py:46 | `re.findall` returns the first match, then what it finds after that match. |
| Scanner.FindallSkip | fix_backslashes.py:46 | Text in front where no match starts does not change what is found after it. |
| Backslashes.FixTextAt | fix_backslashes.py:28-43 | The fixed text copies the stretch before a match, writes the match with its value doubled, and goes on after it. |
| Backslashes.ScanFixText | fix_backslashes.py:43-46 | The fixed text has the same matches at the same places with doubled values. Doubling never creates, moves or hides a match. |
| Backslashes.FindallFixText | fix_backslashes.py:46 | `re.findall` on the fixed text gives the same matches in order, each value doubled. |
| Backslashes.FixKeepsRest | fix_backslashes.py:36-40 | Unmatched stretches and the keyword's white space are unchanged. |
| Backslashes.PairCountDouble | fix_backslashes.py:47 | Each backslash of a value becomes one `\\` pair. |
| Backslashes.FixBackslashesInTurtle | fix_backslashes.py:11-56 | Returns the fixed text, the match count, the backslashes in the values found in the input, and the `\\` pairs in the values found in the fixed text. The last two are equal. |
| Backslashes.FixTwice | fix_backslashes.py:33-34 | A second run doubles again: every original backslash stands for four. |
| Backslashes.FixNotIdempotent | fix_backslashes.py:33-34 | A value holding one backslash shows that the pass is not idempotent. |
| Backslashes.ValueCutAtQuote | fix_backslashes.py:20-21 | In `dc:alternative "a\"b"` the value found is `a\`: the value stops at the first quote, escaped or not. |
| Backslashes.CutValueBreaksEscape | fix_backslashes.py:40-43 | Doubling that cut value turns the escaped quote into a closing one, leaving the stray text `b"`. |
| FocusTypes.MappingSize | replace_foaf_focus.py:16-22 | The mapping has five keys. |
| FocusTypes.MappingKeys | replace_foaf_focus.py:16-22 | The keys are exactly the organization types the lookup can assign. |
| FocusTypes.ClassesWithoutF | replace_foaf_focus.py:17-21 | Every class is a `schema:` name, and none holds the letter `f`. |
| FocusTypes.UnmappedOne | replace_foaf_focus.py:50-55 | One match is kept exactly when its value has no class. |
| FocusTypes.UnmappedAppend | replace_foaf_focus.py:50-55 | Keeping the unmapped matches works match by match: the unmapped matches of `a + b` are those of `a` followed by those of `b`, in order and with repetition. |
| FocusTypes.FocusAt | replace_foaf_focus.py:45-62 | The output copies the stretch before a match. It writes `rdf:type` and the class for a mapped value, collapsing the white space, and the match unchanged otherwise. |
| FocusTypes.FindallReplaceFocus | replace_foaf_focus.py:81 | The focus statements left in the output are exactly the unmapped ones of the input, in order. |
| FocusTypes.ReplaceFocusUnmapped | replace_foaf_focus.py:53-55 | A text whose focus statements all lack a class is left unchanged. |
| FocusTypes.ReplaceFocusIdempotent | replace_foaf_focus.py:50-62 | Running the pass on its own output changes nothing. |
| FocusTypes.TypeAt | replace_foaf_focus.py:65 | A match of `rdf:type\s+(schema:\w+)` at the start of the text is `rdf:type`, a maximal run of white space, `schema:` and a maximal run of word characters. The result is its length exactly when there is such a match. |
| FocusTypes.ReplacementIsType | replace_foaf_focus.py:50-65 | A focus statement replaced by its class is, as a whole, one match of the type pattern. |
| FocusTypes.TypeCountNone | replace_foaf_focus.py:65-66 | `re.findall` finds no type statement exactly when no match starts anywhere in the text. |
| FocusTypes.TypeCountSkip | replace_foaf_focus.py:66 | Positions where no match starts are passed over without being counted. |
| FocusTypes.TypeCountFirst | replace_foaf_focus.py:66 | The count is one for the leftmost match plus the count after that match (non-overlapping). |
| FocusTypes.ReplaceFoafFocus | replace_foaf_focus.py:11-94 | Returns the rewritten text, the input's match count, the number of type statements `re.findall` finds in the output (see `TypeCountNone` and `TypeCountFirst`), and the count of focus statements left. The last equals the unmapped input matches and is at most the match count. |
| FocusTypes.TypeCountIncludesExisting | replace_foaf_focus.py:65-69 | A text holding a type statement and no focus statement reports no focus and one type: the count includes statements that were already there. |

## Left out

- File and spreadsheet reading and writing, the JSON cache load and save, and console output: the model works on the rows, the cache map and the text.
- `random.seed(42)` and `random.choices`: the random identifiers are the parameter `ids` (and `RandomId` takes the draws as given). Seeded reproducibility is outside the model.
- `pd.to_datetime`, `strptime` and `strftime`: parameters. For `excel_to_turtle.py` the parse returns an ISO date, `NaT`, or a rejection (the swallowed exception); for `generate_turtle.py` it returns the ISO date or nothing. The `groupby(...).agg('first')` and `dropna` of `generate_turtle.py` are pandas behaviour; the model takes the grouped rows as given.
- Cell values are given as pandas renders them. Project numbers are text, so an integer number's rendering and float-valued numbers such as `123.0` are not modelled. A dataset name or institution is missing, text, or some other value; which non-text value it is does not matter, since `.strip()` and `re.sub` raise on all of them.
- `str.lower()` and `str.title()` are modelled on ASCII letters only.
- `\s` and `str.strip()` use the whitespace set of `Text.IsSpace`. `\w` in the `rdf:type` pattern is modelled as ASCII letters, digits and `_`.
- FocusTypes.ReplaceFoafFocus: the type count is the findall count of the output, and one example shows it includes statements that were already present. It is not decomposed into the statements written plus those already there, because `\w+` is greedy: a written statement followed by word characters matches beyond the replacement, so the matches of the output are not those of its pieces.
- `time.sleep`, the unused `requests` import, the value and class histograms, and the success-rate percentage of `replace_foaf_focus.py`: reporting only.
- `analyze_excel.py`, `dev_workflow.py` and `main.py`: diagnostics, a subprocess wrapper and a placeholder, with no pipeline logic.
- `main` of `organization_lookup.py` (sorting the unique names and joining the profiles) is not modelled beyond one profile.
- The exception handler of `format_date_for_rdf` (generate_turtle.py:39-41) cannot trigger in the model: the parse parameter already returns nothing where `strptime` raises.

## Findings

| source | as written | input that shows it | evidently intended | confidence | as-written member | corrected member |
|---|---|---|---|---|---|---|
| excel_to_turtle.py:208-232 | A project block ends ` .` only through its last `schema:parentOrganization` line. A project with no organization keeps its last statement ending ` ;`, so the next subject line continues the same statement. | A project with a title and no dataset or organization: `<p>`, `   dc:title "T" ;`, blank line. | The last statement of every block ends ` .`. | not executed | TurtleOutput.ProjectBlockAsWrittenOpen | TurtleOutput.ProjectBlockLayout |

`TurtleOutput.DocumentText` writes the blocks as the source does (`AsWritten`). The corrected document is `DocumentLines` with the `Corrected` layout. The two agree whenever every project has an organization (`TurtleOutput.ProjectSectionAgrees`).
