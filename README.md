# Unity diagnostics rule engine, modelled in Dafny

This project models the rule engine of the Unity language-server tools
(`ULSM.Unity`). The engine has five parts:

- **API-migration database** (`MigrationData`): 30 deprecation entries;
  the Unity version parser (`"2022.3.1f1"` becomes `(2022, 3, 1)`); version
  comparison; and the four queries by version, by old API, by category and
  for the category list.
- **Pattern rules** (`PatternAnalyzer`, with the facts about them in
  `PatternProperties`): finds the `MonoBehaviour` classes of a document and
  classifies their methods as hot paths. It reports:
  - ULSM0001: an expensive call in a hot path;
  - ULSM0002: string concatenation or interpolation in a hot path;
  - ULSM0003: debug logging in a hot path;
  - ULSM0004: `Camera.main`, a warning in a hot path and information elsewhere.
- **Analyzer loader** (`AnalyzerLoader`): the `UNT<number>` id ranges of the
  four analyzer categories, the order-preserving category filter, the
  load-once analyzer cache with `ClearCache`, and the catalogue of distinct
  diagnostics sorted by id.
- **Analysis service** (`AnalysisService`, with `MigrationScan` and
  `Solution`):
  - the deprecated-API scan: search-term extraction, a non-overlapping
    ordinal text search, and line and column of each hit;
  - the Unity-diagnostics request: category keywords, project and file
    filters, the `UNT`/`USP` filter, and `maxResults` truncation;
  - the pattern check of one file, with the `includeInfo` filter.
- **Ad-hoc workspace builder** (`WorkspaceBuilder`): project paths read from
  `.sln` lines, and the source files, references and preprocessor defines
  read from the elements of a `.csproj` file.

Shared modules:

- `Wrappers`: `Option`, `Result`.
- `Seqs`: `Where`, `Select` and first-per-key deduplication.
- `Text`: ASCII case folding, prefix, suffix and substring search,
  `Split`/`Join`, `Trim`, `int.TryParse`.
- `Ordering`: ordinal string order and a stable `OrderBy`.

Nothing external is called; external parts are parameters:

- **Roslyn:**
  - A solution is a sequence of `Project` values.
  - A document's syntax tree is an abstract tree of classes, methods and nodes.
  - A project's analyzer run is its list of diagnostics, or `None` when the
    project has no compilation.
- **Reflection:** the analyzer assembly the loader scans is a sequence of
  analyzers passed to each loader method.
- **Files:** a `.sln` file is its lines; a `.csproj` file is its elements
  in document order, or `None` when it cannot be loaded.

Each loop of the source is a `method` proved equal to a specification
function. Examples:

- `ParseSolutionProjects` equals `SolutionProjects`.
- `CollectDiagnostics` equals the tail-recursive `Collected`/`Analyzed`.
- `ScanTerm` equals `FindingsAt` applied to `Hits`.

The lemmas state what the source promises about those functions. The
analyzer cache is a class whose field the loader methods update in place.

## Model

| member | source | states |
|---|---|---|
| MigrationData.ParseUnityVersion | src/Unity/Analyzers/UnityApiMigrationData.cs:85-100 | every component is in 0..int.MaxValue; the major is the parsed first part, or 0 when it does not parse; the minor is the parsed second part, or 0 when it is missing or does not parse; the patch is the parsed leading digits of the third part, or 0 when it is missing or they do not parse |
| MigrationData.ParseOneComponent | src/Unity/Analyzers/UnityApiMigrationData.cs:87-91 | `"a"` parses to (a, 0, 0) |
| MigrationData.ParseTwoComponents | src/Unity/Analyzers/UnityApiMigrationData.cs:87-92 | `"a.b"` parses to (a, b, 0) |
| MigrationData.ParseThreeComponents | src/Unity/Analyzers/UnityApiMigrationData.cs:87-97 | `"a.b.c<suffix>"` parses to (a, b, c) when the suffix does not start with a decimal digit of any script, e.g. `f1` |
| MigrationData.ParseTwoComponentsThen | src/Unity/Analyzers/UnityApiMigrationData.cs:87-97 | `"a.b.<last>"` parses to (a, b, p) where p is what `int.TryParse` makes of the leading digits of `last` |
| MigrationData.NonAsciiDigitVoidsPatch | src/Unity/Analyzers/UnityApiMigrationData.cs:93-96 | a patch whose digit run ends in a digit of another script parses to 0, because `char.IsDigit` keeps that digit and `int.TryParse` then refuses the run |
| MigrationData.ParseNonAsciiDigitPatch | src/Unity/Analyzers/UnityApiMigrationData.cs:93-96 | `"2022.3.1"` followed by ARABIC-INDIC DIGIT ONE parses to (2022, 3, 0) |
| MigrationData.ParseReleaseVersion | src/Unity/Analyzers/UnityApiMigrationData.cs:93-97 | `"2022.3.1f1"` parses to (2022, 3, 1) |
| MigrationData.ParseGarbage | src/Unity/Analyzers/UnityApiMigrationData.cs:85-100 | text that is not a version never fails: `"latest"` parses to (0, 0, 0) |
| MigrationData.CompareVersions | src/Unity/Analyzers/UnityApiMigrationData.cs:106-113 | result is -1, 0 or 1; negative iff a is before b in lexicographic (major, minor, patch) order; positive iff b is before a; zero iff the triples are equal |
| MigrationData.CompareVersionsAntisymmetric | src/Unity/Analyzers/UnityApiMigrationData.cs:106-113 | swapping the arguments negates the result |
| MigrationData.CompareVersionsTransitive | src/Unity/Analyzers/UnityApiMigrationData.cs:106-113 | "not after" is transitive |
| MigrationData.GetAllMigrations | src/Unity/Analyzers/UnityApiMigrationData.cs:30 | the table has 30 entries, each with non-empty old API, new API, minimum version and category |
| MigrationData.MinVersionsKnown | src/Unity/Analyzers/UnityApiMigrationData.cs:119-392 | every entry's minimum version is one of 2017.4, 2018.4, 2019.4, 2022.3, 6000.0 |
| MigrationData.ParseKnownMinVersion | src/Unity/Analyzers/UnityApiMigrationData.cs:85-100 | each of those versions parses to its (major, minor, 0) triple; only "6000.0" parses to (6000, 0, 0) |
| MigrationData.GetMigrationsForVersion | src/Unity/Analyzers/UnityApiMigrationData.cs:39-47 | an entry is returned iff it is in the table and its minimum version is not after the target; the removal version is never consulted |
| MigrationData.GetMigrationsForVersionMonotone | src/Unity/Analyzers/UnityApiMigrationData.cs:39-47 | for an earlier or equal target, the result is the later target's result filtered by the earlier target, so it is a subset |
| MigrationData.Unity6SeesEverything | src/Unity/Analyzers/UnityApiMigrationData.cs:226-249 | target "6000.0" returns the whole table, including the networking entries removed in 6000.0 |
| MigrationData.GarbageTargetSeesNothing | src/Unity/Analyzers/UnityApiMigrationData.cs:39-47 | an unparsable target is (0, 0, 0) and returns nothing |
| MigrationData.SearchByOldApi | src/Unity/Analyzers/UnityApiMigrationData.cs:55-59 | an entry is found iff its old API contains the pattern, ignoring case |
| MigrationData.SearchEmptyFindsAll | src/Unity/Analyzers/UnityApiMigrationData.cs:55-59 | the empty pattern finds the whole table in order |
| MigrationData.GetByCategory | src/Unity/Analyzers/UnityApiMigrationData.cs:75-79 | an entry is selected iff its category equals the argument, ignoring case |
| MigrationData.GetByCategoryIgnoresCase | src/Unity/Analyzers/UnityApiMigrationData.cs:75-79 | spellings that differ only in case give identical results |
| MigrationData.GetCategoriesSortedAndComplete | src/Unity/Analyzers/UnityApiMigrationData.cs:65-68 | the category list is strictly increasing, hence duplicate-free; a text is listed iff some entry has it as category |
| Text.ParseIntReadsRendering | src/Unity/Analyzers/UnityApiMigrationData.cs:90 | `int.TryParse` gives n exactly for the decimal rendering of n after any number of zeros, and only when n fits an int |
| Text.ParseIntOrZero | src/Unity/Analyzers/UnityApiMigrationData.cs:90-91 | the `out` value is in range, is the parsed number when parsing succeeds and 0 when it fails |
| Text.LeadingDigits | src/Unity/Analyzers/UnityApiMigrationData.cs:95 | `TakeWhile(char.IsDigit)`: the longest prefix made of decimal digits of any script |
| Text.ParseShowNat | src/Unity/Analyzers/UnityAnalyzerLoader.cs:102 | every rendered number in range parses back to itself |
| Text.Split | src/Unity/Analyzers/UnityApiMigrationData.cs:87 | `Split` always yields at least one part |
| Text.SplitHasNoSeparator | src/Unity/Analyzers/UnityApiMigrationData.cs:87 | no part contains a separator |
| Text.JoinSplit | src/Unity/UnityAnalysisService.cs:430 | joining the parts of a split with the separator gives the text back |
| Text.SplitJoin | src/Unity/UnityAdhocWorkspaceBuilder.cs:221 | parts without separators, joined and split again, give the parts back |
| Text.TrimSpec | src/Unity/UnityAnalysisService.cs:355 | `Trim` cuts exactly a run of dropped characters from each end; the result neither starts nor ends with one |
| Text.IndexOfSpec | src/Unity/UnityAnalysisService.cs:338 | ordinal `IndexOf(t, from)` returns an occurrence at or after `from`, and there is none between `from` and it |
| Text.LowerIdempotent | src/Unity/Analyzers/UnityApiMigrationData.cs:78 | case folding twice is folding once |
| Ordering.LessTotal | src/Unity/Analyzers/UnityApiMigrationData.cs:67 | ordinal order relates any two different strings |
| Ordering.LessTransitive | src/Unity/Analyzers/UnityApiMigrationData.cs:67 | ordinal order is transitive |
| Ordering.SortBy | src/Unity/Analyzers/UnityApiMigrationData.cs:67 | `OrderBy` returns a permutation of its input |
| Ordering.SortBySorted | src/Unity/Analyzers/UnityApiMigrationData.cs:67 | `OrderBy`'s result is sorted by its key |
| Ordering.SortByStable | src/Unity/Analyzers/UnityApiMigrationData.cs:67 | `OrderBy` is stable: the elements with any one key appear in the result in their input order |
| Ordering.SortByDistinctIsStrict | src/Unity/Analyzers/UnityAnalyzerLoader.cs:191-192 | sorting elements with distinct keys gives strictly increasing keys |
| Seqs.DistinctBy | src/Unity/Analyzers/UnityAnalyzerLoader.cs:181-190 | keeps one element per key, keeps every key, and keeps only input elements |
| Seqs.DistinctByKeepsFirst | src/Unity/Analyzers/UnityAnalyzerLoader.cs:183 | every kept element is the first element of the input with its key |
| Seqs.Filter | src/Unity/Analyzers/UnityApiMigrationData.cs:43 | `Where` keeps exactly the elements satisfying the predicate and is no longer than its input |
| Seqs.FilterAppend | src/Unity/UnityAnalysisService.cs:226 | filtering distributes over concatenation |
| PatternAnalyzer.UpdateIsHotPath | src/Unity/Analyzers/UnityPatternAnalyzer.cs:42-47 | "Update" is a hot path in any case |
| PatternAnalyzer.StartIsNotHotPath | src/Unity/Analyzers/UnityPatternAnalyzer.cs:42-47 | "Start" is not a hot path |
| PatternProperties.HotPathIgnoresCase | src/Unity/Analyzers/UnityPatternAnalyzer.cs:42 | two names equal ignoring case are both hot paths or neither is |
| PatternProperties.FiveLetterNameNotHot | src/Unity/Analyzers/UnityPatternAnalyzer.cs:42-47 | a five-letter name not starting with `o` is not a hot path, since OnGUI is the only five-letter member of the set |
| PatternAnalyzer.InheritsFromMonoBehaviour | src/Unity/Analyzers/UnityPatternAnalyzer.cs:122-138 | the while loop over the base chain returns true iff the class has a symbol and some base type, from the direct base upwards, is named MonoBehaviour or displays UnityEngine.MonoBehaviour |
| PatternAnalyzer.CheckExpensiveCallsInHotPath | src/Unity/Analyzers/UnityPatternAnalyzer.cs:147-190 | the loop reports, in document order, one ULSM0001 warning per invocation whose member-access or identifier name is a key of the expensive-method table, with that key's suggestion |
| PatternAnalyzer.ConcatenationPass | src/Unity/Analyzers/UnityPatternAnalyzer.cs:203-227 | the first loop reports one ULSM0002 issue per `+` whose direct left or right operand is a string literal |
| PatternAnalyzer.InterpolationPass | src/Unity/Analyzers/UnityPatternAnalyzer.cs:230-248 | the second loop reports one ULSM0002 issue per interpolated string |
| PatternAnalyzer.CheckStringConcatenationInHotPath | src/Unity/Analyzers/UnityPatternAnalyzer.cs:198-251 | all concatenation issues in document order, then all interpolation issues |
| PatternAnalyzer.CheckBoxingInHotPath | src/Unity/Analyzers/UnityPatternAnalyzer.cs:260-300 | one ULSM0003 issue per `Debug.Log`, `Debug.LogWarning` or `Debug.LogError` call, the receiver text being exactly "Debug" |
| PatternAnalyzer.CheckCameraMainUsage | src/Unity/Analyzers/UnityPatternAnalyzer.cs:309-343 | one ULSM0004 issue per `Camera.main` access |
| PatternAnalyzer.AnalyzeMethod | src/Unity/Analyzers/UnityPatternAnalyzer.cs:95-110 | a hot method gets the three hot-path rules, then `Camera.main`; a cold method gets only `Camera.main` |
| PatternAnalyzer.AnalyzeClass | src/Unity/Analyzers/UnityPatternAnalyzer.cs:87-111 | a non-component class contributes nothing; a component contributes its descendant methods' issues in order |
| PatternAnalyzer.AnalyzeClasses | src/Unity/Analyzers/UnityPatternAnalyzer.cs:85-111 | the class loop concatenates the issues of every descendant class, outer classes before nested ones |
| PatternAnalyzer.AnalyzeDocument | src/Unity/Analyzers/UnityPatternAnalyzer.cs:74-114 | a document without a root yields no issue; otherwise the class loop runs with the document's path, or "unknown" |
| PatternProperties.MethodIssuesShaped | src/Unity/Analyzers/UnityPatternAnalyzer.cs:174-185 | every issue of a method is a Performance issue of the file, under ULSM0001-0004, with a suggestion; ULSM0003 is Info, ULSM0004 is Info outside a hot path, all else is Warning |
| PatternProperties.DocumentIssuesShaped | src/Unity/Analyzers/UnityPatternAnalyzer.cs:79-82 | every issue of a document carries its path, or "unknown", and has the shape above |
| PatternProperties.ClassesWithoutComponentsReportNothing | src/Unity/Analyzers/UnityPatternAnalyzer.cs:89-90 | classes none of which is a component report nothing |
| PatternProperties.DocumentWithoutComponentsReportsNothing | src/Unity/Analyzers/UnityPatternAnalyzer.cs:79-90 | a document with no root, or whose classes are no components, reports nothing |
| PatternProperties.ColdMethodReportsOnlyCameraMain | src/Unity/Analyzers/UnityPatternAnalyzer.cs:101-109 | outside a hot path a method reports exactly one Info ULSM0004 per `Camera.main` and nothing else |
| PatternProperties.HotMethodIssueCount | src/Unity/Analyzers/UnityPatternAnalyzer.cs:101-109 | a hot method reports one issue per matching node of each of the five checks |
| PatternProperties.MemberGetComponentIsReported | src/Unity/Analyzers/UnityPatternAnalyzer.cs:160-185 | `x.GetComponent(...)` yields exactly the ULSM0001 warning with the GetComponent suggestion |
| PatternProperties.BareGenericCallIsNotReported | src/Unity/Analyzers/UnityPatternAnalyzer.cs:160-169 | a call through any other callee shape, such as a bare generic `GetComponent<T>()`, yields nothing |
| PatternProperties.LowerCaseNameIsNotReported | src/Unity/Analyzers/UnityPatternAnalyzer.cs:52-66 | the expensive-method table compares names with case: `getComponent()` yields nothing |
| PatternProperties.CameraMainInAwakeIsInfo | src/Unity/Analyzers/UnityPatternAnalyzer.cs:319-338 | `Camera.main` in Awake yields one Info ULSM0004 issue |
| PatternProperties.CameraMainInHotPathIsWarning | src/Unity/Analyzers/UnityPatternAnalyzer.cs:319-338 | in a hot path every `Camera.main` yields a ULSM0004 warning with its position, text and suggestion |
| PatternProperties.NestedComponentReportedTwice | src/Unity/Analyzers/UnityPatternAnalyzer.cs:85-93 | a component nested in a component has its methods reported twice: once through the outer class and once on its own |
| AnalyzerLoader.RenderedIdInRange | src/Unity/Analyzers/UnityAnalyzerLoader.cs:96-105 | for `UNT` in any case, then any zeros, then a number n: the id is in [min, max] iff min <= n <= max |
| AnalyzerLoader.CategoryRangesDisjoint | src/Unity/Analyzers/UnityAnalyzerLoader.cs:73-76 | no id lies in two of the ranges [1,15], [16,25], [26,35], [36,int.MaxValue] |
| AnalyzerLoader.CategoryRangesCover | src/Unity/Analyzers/UnityAnalyzerLoader.cs:73-76 | a well-formed UNT id is in one of the four ranges iff its number is at least 1 |
| AnalyzerLoader.ByCategoryMembers | src/Unity/Analyzers/UnityAnalyzerLoader.cs:59-85 | All keeps every analyzer; any other category keeps those with a supported id in its range; never longer than the input |
| AnalyzerLoader.SingleDiagnosticInOneCategory | src/Unity/Analyzers/UnityAnalyzerLoader.cs:73-76 | an analyzer with one diagnostic falls into at most one specific category |
| AnalyzerLoader.AvailableDiagnosticsListing | src/Unity/Analyzers/UnityAnalyzerLoader.cs:176-192 | the catalogue is strictly sorted by id, lists every supported id, and each entry is the first descriptor with its id |
| AnalyzerLoader.FirstDescriptorsById | src/Unity/Analyzers/UnityAnalyzerLoader.cs:181-190 | the nested loop filling the dictionary keeps the first descriptor of every id |
| AnalyzerLoader.StoreNewIds | src/Unity/Analyzers/UnityAnalyzerLoader.cs:183-189 | the inner loop adds exactly the descriptors whose id is not yet a key |
| AnalyzerLoader.AnalyzerLoader.constructor | src/Unity/Analyzers/UnityAnalyzerLoader.cs:13 | the cache starts empty |
| AnalyzerLoader.AnalyzerLoader.LoadAllAnalyzers | src/Unity/Analyzers/UnityAnalyzerLoader.cs:38-52 | returns the cached analyzers when set, without loading; otherwise loads, caches and returns them |
| AnalyzerLoader.AnalyzerLoader.GetAnalyzersByCategory | src/Unity/Analyzers/UnityAnalyzerLoader.cs:59-85 | loads through the cache and returns the category's analyzers in load order |
| AnalyzerLoader.AnalyzerLoader.GetAvailableDiagnostics | src/Unity/Analyzers/UnityAnalyzerLoader.cs:173-201 | loads through the cache and returns the sorted catalogue |
| AnalyzerLoader.AnalyzerLoader.ClearCache | src/Unity/Analyzers/UnityAnalyzerLoader.cs:205-211 | empties the cache, so the next load scans the assembly again |
| MigrationScan.NamePart | src/Unity/UnityAnalysisService.cs:427-428 | the text before the first `(`, or all of it |
| MigrationScan.SearchTermIsLastTwoSegments | src/Unity/UnityAnalysisService.cs:422-437 | the search term is the last two dot-segments of the name part, or its only segment; it never contains `(` |
| MigrationScan.SearchTermOfQualifiedName | src/Unity/UnityAnalysisService.cs:430-434 | `A.B.C(...)` gives `B.C` for dot- and parenthesis-free segments |
| MigrationScan.LineTextSpec | src/Unity/UnityAnalysisService.cs:341-342 | the line text holds no line break and contains the offset |
| MigrationScan.PositionInLines | src/Unity/UnityAnalysisService.cs:341-355 | offset c of line k of a text reports line k, column c and that line's text |
| MigrationScan.HitsAreSeparateOccurrences | src/Unity/UnityAnalysisService.cs:337-359 | every hit is an occurrence, and hits are increasing and do not overlap |
| MigrationScan.HitsCover | src/Unity/UnityAnalysisService.cs:337-359 | the scan misses no occurrence except those overlapping a reported hit |
| MigrationScan.FindingReportsItsLine | src/Unity/UnityAnalysisService.cs:344-356 | a finding carries the migration's fields, the file, line k, column c and the trimmed line |
| MigrationScan.MigrationFindingsAreHits | src/Unity/UnityAnalysisService.cs:333-359 | an empty search term yields nothing; otherwise one finding per hit, in hit order |
| MigrationScan.ScanMigration | src/Unity/UnityAnalysisService.cs:333-359 | the per-migration body: skip an empty term, else run the scan loop |
| MigrationScan.ScanTerm | src/Unity/UnityAnalysisService.cs:337-359 | the `while` loop yields the finding of each hit of the term, in order |
| Solution.ProjectFileStem | src/Unity/UnityAnalysisService.cs:307 | `GetFileNameWithoutExtension` of `dir/stem.csproj` is `stem` |
| Solution.SelectedProjects | src/Unity/UnityAnalysisService.cs:78-84 | without a project path every project; otherwise exactly those whose path equals it or whose name equals its stem, ignoring case |
| Solution.SelectedByProjectFile | src/Unity/UnityAnalysisService.cs:81-83 | a project file path selects every project named after its stem |
| Solution.SelectedDocuments | src/Unity/UnityAnalysisService.cs:315-319 | without a file path every document; otherwise exactly those whose path equals it, ignoring case |
| AnalysisService.RulesFor | src/Unity/UnityAnalysisService.cs:289-294 | a rule applies iff its minimum version is not after the target and, when a category is given, its category equals it ignoring case |
| AnalysisService.ScanDocument | src/Unity/UnityAnalysisService.cs:331-360 | the rule loop concatenates each rule's findings for the file |
| AnalysisService.ScanDocuments | src/Unity/UnityAnalysisService.cs:321-361 | the document loop scans exactly the documents with a `.cs` path and counts them |
| AnalysisService.ScanProject | src/Unity/UnityAnalysisService.cs:312-361 | one project: its selected documents scanned and counted |
| AnalysisService.CheckApiMigration | src/Unity/UnityAnalysisService.cs:272-390 | without a solution the no-solution error; otherwise the report over the selected projects |
| AnalysisService.MigrationReportFindings | src/Unity/UnityAnalysisService.cs:310-360 | every finding is in a `.cs` file matching the file filter and reports an applicable rule of the table |
| AnalysisService.SolutionFindingsTraceable | src/Unity/UnityAnalysisService.cs:310-360 | every finding of the selected projects comes from a rule and a selected document |
| AnalysisService.NoOccurrenceNoFinding | src/Unity/UnityAnalysisService.cs:331-359 | a file holding no rule's search term yields no finding |
| AnalysisService.CategoryKeywordIgnoresCase | src/Unity/UnityAnalysisService.cs:53-60 | the category keyword is compared after lower-casing |
| AnalysisService.UnityPrefixesIgnoreCase | src/Unity/UnityAnalysisService.cs:107-110 | a diagnostic is kept iff its id starts with UNT or USP, ignoring case |
| AnalysisService.UnityDiagnosticsTwoPasses | src/Unity/UnityAnalysisService.cs:99-110 | the one-pass filter equals the file filter followed by the Unity filter |
| AnalysisService.UnityDiagnosticsMembers | src/Unity/UnityAnalysisService.cs:99-110 | a diagnostic is kept iff it is in the file asked for, when one is, and is a Unity diagnostic |
| AnalysisService.CollectedIsTake | src/Unity/UnityAnalysisService.cs:112-143 | the project loop collects exactly the first maxResults candidates, in project order |
| AnalysisService.AnalyzedAllWhenRoom | src/Unity/UnityAnalysisService.cs:86-144 | when everything fits, every compiled project is counted |
| AnalysisService.NoRoomStopsAfterFirstCompiled | src/Unity/UnityAnalysisService.cs:138-143 | with maxResults <= 0, the loop stops after the first compiled project and collects nothing |
| AnalysisService.CandidatesAreUnityDiagnostics | src/Unity/UnityAnalysisService.cs:86-110 | every candidate is a Unity diagnostic of the file asked for, taken from a compiled project of that name |
| AnalysisService.AddDiagnostics | src/Unity/UnityAnalysisService.cs:112-140 | the inner loop appends the first `maxResults - count` diagnostics, tagged with the project, and records their files |
| AnalysisService.CollectDiagnostics | src/Unity/UnityAnalysisService.cs:86-144 | the project loop's list, project count and file set are those of the specification |
| AnalysisService.GetUnityDiagnostics | src/Unity/UnityAnalysisService.cs:35-165 | no solution: the error, cache untouched; otherwise analyzers load through the cache; none in the category: the no-analyzers error; else the report |
| AnalysisService.ReportListsFirstCandidates | src/Unity/UnityAnalysisService.cs:112-161 | the report lists the first maxResults candidates; the total is their number; files are no more than diagnostics; truncated iff there were at least maxResults candidates |
| AnalysisService.ReportedAreUnityDiagnostics | src/Unity/UnityAnalysisService.cs:78-136 | every reported diagnostic is a Unity diagnostic of the file asked for, from a selected compiled project of that name |
| AnalysisService.ReportCountsCompiledProjects | src/Unity/UnityAnalysisService.cs:86-92 | projects analysed are at most the compiled selected projects, all of them when not truncated |
| AnalysisService.NoRoomReportsNothing | src/Unity/UnityAnalysisService.cs:112-161 | maxResults <= 0 reports no diagnostic, truncated, one project analysed when one compiles |
| AnalysisService.FirstDocumentFinds | src/Unity/UnityAnalysisService.cs:190-198 | the search finds nothing iff no project has the path; otherwise the first match of the first project that has one |
| AnalysisService.FindDocument | src/Unity/UnityAnalysisService.cs:190-198 | the project loop with `break` returns that first match |
| AnalysisService.SeverityFiltered | src/Unity/UnityAnalysisService.cs:224-227 | with `includeInfo` false an issue is kept iff it is not Info; with it true all are kept |
| AnalysisService.SeverityFilterPartitions | src/Unity/UnityAnalysisService.cs:224-227 | kept and removed issues together account for every issue |
| AnalysisService.CheckUnityPatterns | src/Unity/UnityAnalysisService.cs:175-262 | without a solution the error; otherwise the pattern check of the file |
| AnalysisService.PatternCheckFindsFile | src/Unity/UnityAnalysisService.cs:200-207 | the file-not-found error is returned iff no project has a document with the path |
| AnalysisService.ColdMethodWithoutInfoReportsNothing | src/Unity/UnityAnalysisService.cs:224-227 | without Info, a method outside a hot path reports nothing |
| WorkspaceBuilder.ParseSolutionProjects | src/Unity/UnityAdhocWorkspaceBuilder.cs:60-83 | the line loop yields the project path of each line that has one, in line order |
| WorkspaceBuilder.SolutionProjectsFromLines | src/Unity/UnityAdhocWorkspaceBuilder.cs:65-80 | at most one path per line; a path is listed iff some line yields it |
| WorkspaceBuilder.ProjectPathShape | src/Unity/UnityAdhocWorkspaceBuilder.cs:68-77 | a kept path comes from a `Project(` line, ends in `.csproj` ignoring case, holds no comma and is not quoted at either end |
| WorkspaceBuilder.SolutionLineNamesProject | src/Unity/UnityAdhocWorkspaceBuilder.cs:67-76 | a line `Project(...), "path.csproj", ...` yields exactly `path.csproj` |
| WorkspaceBuilder.ExtensionsIgnoreCase | src/Unity/UnityAdhocWorkspaceBuilder.cs:74 | the lower-case suffix test equals `EndsWith(..., OrdinalIgnoreCase)` |
| WorkspaceBuilder.PickedMembers | src/Unity/UnityAdhocWorkspaceBuilder.cs:65-80 | what a line-by-line pick keeps is at most one value per input, each from some input |
| WorkspaceBuilder.ParseCsprojFile | src/Unity/UnityAdhocWorkspaceBuilder.cs:190-241 | the source files, references and defines are those of the specification; an unloadable file gives three empty lists |
| WorkspaceBuilder.SourceFileEntries | src/Unity/UnityAdhocWorkspaceBuilder.cs:201-206 | a source file is listed iff some `Compile` element has it as non-empty `Include` ending in `.cs`, ignoring case |
| WorkspaceBuilder.ReferenceEntries | src/Unity/UnityAdhocWorkspaceBuilder.cs:209-214 | a reference is listed iff some `HintPath` element has it as non-empty text |
| WorkspaceBuilder.ParsedDefines | src/Unity/UnityAdhocWorkspaceBuilder.cs:217-238 | a loaded file always defines UNITY_EDITOR; no define is empty or holds `;`; an unloadable file defines nothing |
| WorkspaceBuilder.DeclaredDefinesClean | src/Unity/UnityAdhocWorkspaceBuilder.cs:221 | splitting with empty entries removed leaves no empty define and no `;` |
| WorkspaceBuilder.DefinesFromFirstDefineConstants | src/Unity/UnityAdhocWorkspaceBuilder.cs:217-233 | the first `DefineConstants` element's defines come back as joined; the three defaults are appended iff UNITY_EDITOR is absent |
| WorkspaceBuilder.JoinedDefinesSplit | src/Unity/UnityAdhocWorkspaceBuilder.cs:219-221 | clean defines joined with `;` are empty iff there are none, and split back into themselves |

## Left out

- Roslyn is not modelled:
  - syntax trees, semantic models, compilations and analyzer runs are inputs;
  - which analyzers run for the selected category is not modelled, because a project's analyzer diagnostics are given;
  - `GetLineSpan` of diagnostics and pattern issues is given as data.
- Reflection-based analyzer loading (`LoadAnalyzersFromAssembly`) is a parameter: the analyzers the assembly would yield.
- The lock in `LoadAllAnalyzers` and `ClearCache` is left out; the model is single-threaded.
- The cache is a field of a loader object rather than a static field.
- These are not modelled:
  - `File.ReadAllLines`;
  - `XDocument.Load`, whose failure becomes `None`;
  - the warning printed when a project file fails to load;
  - `BuildFromSolutionAsync` and `AddProjectToWorkspaceAsync` (path combining, file probes, workspace construction);
  - `UnityProjectDetector` and `UnityWorkspaceLoader`.
- An element's text is given, not assembled from XML descendants.
- Case-insensitive comparison folds ASCII letters only; `OrdinalIgnoreCase` folds all of Unicode.
- AnalysisService.CategoryFromKeyword: lower-cases the keyword with ASCII folding only, while `ToLowerInvariant` folds all of Unicode. A keyword that reaches a known one only through a non-ASCII letter therefore selects every analyzer in the model. An example is `nullchec` + KELVIN SIGN (U+212A) + `ing`, which .NET folds to `nullchecking`.
- Text ordering is ordinal:
  - `OrderBy` on categories and ids uses ordinal order rather than the culture's;
  - `line.StartsWith("Project(")` is modelled as an ordinal prefix test.
- AnalysisService.Scannable: `FilePath.EndsWith(".cs")` is culture-sensitive in .NET and ignores code points such as the soft hyphen U+00AD; the model tests an ordinal suffix, so such paths are not scanned in the model.
- Line breaks are `\n` only; Roslyn also breaks lines at `\r\n`, `\r` and Unicode separators.
- `Path.GetFileNameWithoutExtension` treats only `/` as a directory separator.
- `int.TryParse` accepts only digits; .NET also accepts surrounding white space and a leading sign.
- `char.IsDigit` is modelled by the decimal-digit runs of the Basic Multilingual Plane, taken from the Unicode character database; a later Unicode version that adds such a run is not followed.
- Presentation is not modelled:
  - the anonymous result objects are reduced to the data they report;
  - the GroupBy summaries are left out (`summary`, `byApi`, `byCategory`, `byId`);
  - issue titles and descriptions are left out;
  - the title, description and help link of diagnostics and descriptors are left out.
- `includeSuppressions` and `checkHotPathsOnly` are accepted by the source but never read, so they are not parameters.
- The service-level `GetAvailableDiagnostics`, a presentation of the loader's catalogue and the migration table, is not modelled separately.
- Dictionary order in `GetAvailableDiagnostics` does not matter, because the values are sorted by unique id; the model keeps them in insertion order before sorting.
- In the pattern check, whether a document has a semantic model is a flag of the document. The pattern analyzer takes a class's symbol from the class itself, not from the semantic model.
- The finding of a scan hit clamps an offset past the end of the text to the end. Every hit is within the text, so the clamp is never used.
- The code as written yields no ULSM0001 for a bare generic call `GetComponent<T>()`. The repository's unit test at tests/ULSM.Tests/Unit/UnityPatternAnalyzerTests.cs:27-46 expects one. The model follows the code.
- The double reporting of nested components is the code's behaviour, and the model keeps it.
