/** The analysis service (`UnityAnalysisService`): the API migration check
    over the documents of a solution, the Unity diagnostics request with its
    category keyword and `maxResults` cut-off, and the pattern check with its
    severity filter. The solution is a parameter; `None` stands for no loaded
    solution. */
module AnalysisService {
  import opened Wrappers
  import opened Seqs
  import opened Text
  import opened Solution
  import MigrationData
  import MigrationScan
  import PatternAnalyzer
  import PatternProperties
  import AnalyzerLoader

  // ================================================================ API migration check

  /** The migration rules a check applies: the entries deprecated at or before
      the target version and, when a category filter is given, in that
      category ignoring case, in table order. */
  function RulesFor(table: seq<MigrationData.ApiMigration>, targetVersion: string, categoryFilter: Option<string>)
    : (r: seq<MigrationData.ApiMigration>)
    ensures forall m :: m in r <==>
      && m in table
      && !MigrationData.VersionLess(MigrationData.ParseUnityVersion(targetVersion), MigrationData.ParseUnityVersion(m.minVersion))
      && (Given(categoryFilter) ==> EqualsIgnoreCase(m.category, categoryFilter.value))
  {
    var rules := MigrationData.GetMigrationsForVersion(table, targetVersion);
    if Given(categoryFilter) then MigrationData.GetByCategory(rules, categoryFilter.value) else rules
  }

  /** The findings of every rule in one file, rule by rule. */
  function DocumentFindings(rules: seq<MigrationData.ApiMigration>, file: string, content: string)
    : seq<MigrationScan.MigrationFinding>
  {
    if rules == [] then []
    else DocumentFindings(rules[..|rules| - 1], file, content)
         + MigrationScan.MigrationFindings(rules[|rules| - 1], file, content)
  }

  /** A document the migration check reads: one with a path ending in `.cs`
      (ordinal, case-sensitive). */
  predicate Scannable(d: SourceDocument) {
    d.filePath.Some? && IsSuffix(".cs", d.filePath.value)
  }

  function ScannableFilter(): SourceDocument -> bool {
    (d: SourceDocument) => Scannable(d)
  }

  /** The findings of one selected document: none when it is skipped. */
  function FileFindings(rules: seq<MigrationData.ApiMigration>, d: SourceDocument): seq<MigrationScan.MigrationFinding> {
    if Scannable(d) then DocumentFindings(rules, d.filePath.value, d.content) else []
  }

  /** The findings of a project's selected documents, document by document. */
  function ProjectFindings(rules: seq<MigrationData.ApiMigration>, documents: seq<SourceDocument>)
    : seq<MigrationScan.MigrationFinding>
  {
    if documents == [] then []
    else ProjectFindings(rules, documents[..|documents| - 1]) + FileFindings(rules, documents[|documents| - 1])
  }

  /** The findings of the selected projects, project by project. */
  function SolutionFindings(rules: seq<MigrationData.ApiMigration>, projects: seq<Project>, filePath: Option<string>)
    : seq<MigrationScan.MigrationFinding>
  {
    if projects == [] then []
    else SolutionFindings(rules, projects[..|projects| - 1], filePath)
         + ProjectFindings(rules, SelectedDocuments(projects[|projects| - 1].documents, filePath))
  }

  /** How many selected documents the check reads. */
  function FilesChecked(projects: seq<Project>, filePath: Option<string>): nat {
    if projects == [] then 0
    else FilesChecked(projects[..|projects| - 1], filePath)
         + |Filter(SelectedDocuments(projects[|projects| - 1].documents, filePath), ScannableFilter())|
  }

  /** The result of a successful migration check. The groupings by API and by
      category are left out. */
  datatype MigrationReport = MigrationReport(
    targetVersion: string,
    migrationRulesChecked: nat,
    projectsChecked: nat,
    filesChecked: nat,
    findings: seq<MigrationScan.MigrationFinding>)

  /** The report of a check over the projects of a loaded solution. */
  function MigrationReportFor(table: seq<MigrationData.ApiMigration>, projects: seq<Project>, filePath: Option<string>,
                              projectPath: Option<string>, targetVersion: string, categoryFilter: Option<string>)
    : MigrationReport
  {
    var rules := RulesFor(table, targetVersion, categoryFilter);
    var selected := SelectedProjects(projects, projectPath);
    MigrationReport(targetVersion, |rules|, |selected|, FilesChecked(selected, filePath),
                    SolutionFindings(rules, selected, filePath))
  }

  /** The body of the document loop: every rule in turn. */
  method ScanDocument(rules: seq<MigrationData.ApiMigration>, file: string, content: string)
    returns (findings: seq<MigrationScan.MigrationFinding>)
    ensures findings == DocumentFindings(rules, file, content)
  {
    findings := [];
    var i := 0;
    while i < |rules|
      invariant 0 <= i <= |rules|
      invariant findings == DocumentFindings(rules[..i], file, content)
    {
      DocumentFindingsStep(rules, file, content, i);
      var ruleFindings := MigrationScan.ScanMigration(rules[i], file, content);
      findings := findings + ruleFindings;
      i := i + 1;
    }
    assert rules[..|rules|] == rules;
  }

  lemma DocumentFindingsStep(rules: seq<MigrationData.ApiMigration>, file: string, content: string, i: nat)
    requires i < |rules|
    ensures DocumentFindings(rules[..i + 1], file, content)
         == DocumentFindings(rules[..i], file, content) + MigrationScan.MigrationFindings(rules[i], file, content)
  {
    assert rules[..i + 1][..i] == rules[..i];
  }

  /** The body of the project loop: the selected documents, skipping those
      that are not C# files. */
  method ScanProject(rules: seq<MigrationData.ApiMigration>, project: Project, filePath: Option<string>)
    returns (findings: seq<MigrationScan.MigrationFinding>, filesChecked: nat)
    ensures findings == ProjectFindings(rules, SelectedDocuments(project.documents, filePath))
    ensures filesChecked == |Filter(SelectedDocuments(project.documents, filePath), ScannableFilter())|
  {
    var documents := SelectedDocuments(project.documents, filePath);
    findings, filesChecked := ScanDocuments(rules, documents);
  }

  /** The document loop of one project. */
  method ScanDocuments(rules: seq<MigrationData.ApiMigration>, documents: seq<SourceDocument>)
    returns (findings: seq<MigrationScan.MigrationFinding>, filesChecked: nat)
    ensures findings == ProjectFindings(rules, documents)
    ensures filesChecked == |Filter(documents, ScannableFilter())|
  {
    findings := [];
    filesChecked := 0;
    var j := 0;
    while j < |documents|
      invariant 0 <= j <= |documents|
      invariant findings == ProjectFindings(rules, documents[..j])
      invariant filesChecked == |Filter(documents[..j], ScannableFilter())|
    {
      var document := documents[j];
      ProjectFindingsStep(rules, documents, j);
      FilterCountStep(documents, j, ScannableFilter());
      if document.filePath.None? || !IsSuffix(".cs", document.filePath.value) {
        j := j + 1;
        continue;
      }
      filesChecked := filesChecked + 1;
      var documentFindings := ScanDocument(rules, document.filePath.value, document.content);
      findings := findings + documentFindings;
      j := j + 1;
    }
    assert documents[..|documents|] == documents;
  }

  lemma ProjectFindingsStep(rules: seq<MigrationData.ApiMigration>, documents: seq<SourceDocument>, j: nat)
    requires j < |documents|
    ensures ProjectFindings(rules, documents[..j + 1]) == ProjectFindings(rules, documents[..j]) + FileFindings(rules, documents[j])
  {
    assert documents[..j + 1][..j] == documents[..j];
  }

  /** One more element adds one to the count of those kept exactly when it is
      kept. */
  lemma FilterCountStep<T(!new)>(s: seq<T>, j: nat, p: T -> bool)
    requires j < |s|
    ensures |Filter(s[..j + 1], p)| == |Filter(s[..j], p)| + (if p(s[j]) then 1 else 0)
  {
    assert s[..j + 1][..j] == s[..j];
  }

  lemma SolutionFindingsStep(rules: seq<MigrationData.ApiMigration>, projects: seq<Project>, filePath: Option<string>, i: nat)
    requires i < |projects|
    ensures SolutionFindings(rules, projects[..i + 1], filePath)
         == SolutionFindings(rules, projects[..i], filePath) + ProjectFindings(rules, SelectedDocuments(projects[i].documents, filePath))
    ensures FilesChecked(projects[..i + 1], filePath)
         == FilesChecked(projects[..i], filePath) + |Filter(SelectedDocuments(projects[i].documents, filePath), ScannableFilter())|
  {
    assert projects[..i + 1][..i] == projects[..i];
  }

  /** `CheckApiMigrationAsync`: fails without a solution; otherwise scans the
      selected documents of the selected projects for every applicable rule
      and counts the projects, files and rules it went through. */
  method CheckApiMigration(table: seq<MigrationData.ApiMigration>, solution: Option<seq<Project>>,
                           filePath: Option<string>, projectPath: Option<string>,
                           targetVersion: string, categoryFilter: Option<string>)
    returns (r: Result<MigrationReport, string>)
    ensures solution.None? ==> r == Failure(NoSolution)
    ensures solution.Some? ==>
      r == Success(MigrationReportFor(table, solution.value, filePath, projectPath, targetVersion, categoryFilter))
  {
    if solution.None? {
      return Failure(NoSolution);
    }
    var migrations := MigrationData.GetMigrationsForVersion(table, targetVersion);
    if Given(categoryFilter) {
      migrations := MigrationData.GetByCategory(migrations, categoryFilter.value);
    }
    var projects := SelectedProjects(solution.value, projectPath);
    var findings := [];
    var filesChecked := 0;
    var projectsChecked := 0;
    var i := 0;
    while i < |projects|
      invariant 0 <= i <= |projects|
      invariant projectsChecked == i
      invariant findings == SolutionFindings(migrations, projects[..i], filePath)
      invariant filesChecked == FilesChecked(projects[..i], filePath)
    {
      SolutionFindingsStep(migrations, projects, filePath, i);
      projectsChecked := projectsChecked + 1;
      var projectFindings, projectFiles := ScanProject(migrations, projects[i], filePath);
      findings := findings + projectFindings;
      filesChecked := filesChecked + projectFiles;
      i := i + 1;
    }
    assert projects[..|projects|] == projects;
    r := Success(MigrationReport(targetVersion, |migrations|, projectsChecked, filesChecked, findings));
  }
  // ---------------------------------------------------------------- what a migration report holds

  /** A finding carries the data of rule `m`. */
  predicate ReportsRule(f: MigrationScan.MigrationFinding, m: MigrationData.ApiMigration) {
    && f.oldApi == m.oldApi && f.newApi == m.newApi && f.category == m.category
    && f.deprecatedIn == m.minVersion && f.removedIn == m.removedVersion && f.notes == m.notes
  }

  /** A finding of a file comes from one of the rules. */
  predicate FromRules(f: MigrationScan.MigrationFinding, rules: seq<MigrationData.ApiMigration>) {
    exists m :: m in rules && ReportsRule(f, m)
  }

  /** A finding of a report: it names a C# file, the requested one when a
      file was asked for, and carries the data of one of the rules. */
  predicate Traceable(f: MigrationScan.MigrationFinding, rules: seq<MigrationData.ApiMigration>, filePath: Option<string>) {
    && IsSuffix(".cs", f.file)
    && (Given(filePath) ==> EqualsIgnoreCase(f.file, filePath.value))
    && FromRules(f, rules)
  }

  lemma RuleFindingsReportRule(m: MigrationData.ApiMigration, file: string, content: string)
    ensures forall f :: f in MigrationScan.MigrationFindings(m, file, content) ==> f.file == file && ReportsRule(f, m)
  {
    var term := MigrationScan.ExtractSearchTerm(m.oldApi);
    MigrationScan.MigrationFindingsAreHits(m, file, content, term);
  }

  /** Every finding in a file is reported at that file for one of the rules. */
  lemma {:induction false} DocumentFindingsFromRules(rules: seq<MigrationData.ApiMigration>, file: string, content: string)
    ensures forall f :: f in DocumentFindings(rules, file, content) ==> f.file == file && FromRules(f, rules)
  {
    if rules != [] {
      var front, last := rules[..|rules| - 1], rules[|rules| - 1];
      DocumentFindingsFromRules(front, file, content);
      RuleFindingsReportRule(last, file, content);
      forall f | f in DocumentFindings(rules, file, content) ensures f.file == file && FromRules(f, rules) {
        if f in DocumentFindings(front, file, content) {
          var m :| m in front && ReportsRule(f, m);
          assert m in rules;
        } else {
          assert last in rules && ReportsRule(f, last);
        }
      }
    }
  }

  /** Every finding of a project's documents is traceable when each document
      passed the file filter. */
  lemma {:induction false} ProjectFindingsTraceable(rules: seq<MigrationData.ApiMigration>, documents: seq<SourceDocument>,
                                                     filePath: Option<string>)
    requires forall d :: d in documents && Given(filePath) ==> PathIs(d.filePath, filePath.value)
    ensures forall f :: f in ProjectFindings(rules, documents) ==> Traceable(f, rules, filePath)
  {
    if documents != [] {
      var front, last := documents[..|documents| - 1], documents[|documents| - 1];
      assert forall d :: d in front ==> d in documents;
      ProjectFindingsTraceable(rules, front, filePath);
      if Scannable(last) {
        DocumentFindingsFromRules(rules, last.filePath.value, last.content);
      }
    }
  }

  /** Every finding of the selected projects is traceable. */
  lemma {:induction false} SolutionFindingsTraceable(rules: seq<MigrationData.ApiMigration>, projects: seq<Project>,
                                                      filePath: Option<string>)
    ensures forall f :: f in SolutionFindings(rules, projects, filePath) ==> Traceable(f, rules, filePath)
  {
    if projects != [] {
      SolutionFindingsTraceable(rules, projects[..|projects| - 1], filePath);
      ProjectFindingsTraceable(rules, SelectedDocuments(projects[|projects| - 1].documents, filePath), filePath);
    }
  }

  /** What a migration report promises of each finding: a C# file (the
      requested one when a file was asked for), and the data of a table entry
      deprecated at or before the target version and, when a category filter
      is given, of that category. */
  lemma MigrationReportFindings(table: seq<MigrationData.ApiMigration>, projects: seq<Project>, filePath: Option<string>,
                                projectPath: Option<string>, targetVersion: string, categoryFilter: Option<string>,
                                f: MigrationScan.MigrationFinding)
    requires f in MigrationReportFor(table, projects, filePath, projectPath, targetVersion, categoryFilter).findings
    ensures IsSuffix(".cs", f.file)
    ensures Given(filePath) ==> EqualsIgnoreCase(f.file, filePath.value)
    ensures exists m ::
      && m in table && ReportsRule(f, m)
      && !MigrationData.VersionLess(MigrationData.ParseUnityVersion(targetVersion), MigrationData.ParseUnityVersion(m.minVersion))
      && (Given(categoryFilter) ==> EqualsIgnoreCase(m.category, categoryFilter.value))
  {
    var rules := RulesFor(table, targetVersion, categoryFilter);
    SolutionFindingsTraceable(rules, SelectedProjects(projects, projectPath), filePath);
    var m :| m in rules && ReportsRule(f, m);
  }

  /** A file in which no rule's search term occurs yields no finding. */
  lemma {:induction false} NoOccurrenceNoFinding(rules: seq<MigrationData.ApiMigration>, file: string, content: string)
    requires forall m, i :: m in rules ==> !OccursAt(content, MigrationScan.ExtractSearchTerm(m.oldApi), i)
    ensures DocumentFindings(rules, file, content) == []
  {
    if rules != [] {
      var last := rules[|rules| - 1];
      assert forall m :: m in rules[..|rules| - 1] ==> m in rules;
      NoOccurrenceNoFinding(rules[..|rules| - 1], file, content);
      var term := MigrationScan.ExtractSearchTerm(last.oldApi);
      MigrationScan.MigrationFindingsAreHits(last, file, content, term);
      if term != [] && MigrationScan.Hits(content, term, 0) != [] {
        assert false;
      }
    }
  }
  // ================================================================ Unity diagnostics

  /** The analyzer category a request's keyword selects, ignoring case; no
      keyword or an unknown one selects every analyzer. */
  function CategoryFromKeyword(category: Option<string>): AnalyzerLoader.AnalyzerCategory {
    if category.None? then AnalyzerLoader.All
    else
      var keyword := Lower(category.value);
      if keyword == "messages" then AnalyzerLoader.Messages
      else if keyword == "nullchecking" || keyword == "null" then AnalyzerLoader.NullChecking
      else if keyword == "performance" then AnalyzerLoader.Performance
      else if keyword == "bestpractices" || keyword == "practices" then AnalyzerLoader.BestPractices
      else AnalyzerLoader.All
  }

  /** The keyword is read ignoring case: two spellings that differ only in
      case, and in particular a keyword and its lower-case form, select the
      same category. */
  lemma CategoryKeywordIgnoresCase(a: string, b: string)
    requires EqualsIgnoreCase(a, b)
    ensures CategoryFromKeyword(Some(a)) == CategoryFromKeyword(Some(b))
    ensures CategoryFromKeyword(Some(a)) == CategoryFromKeyword(Some(Lower(a)))
  {
    LowerIdempotent(a);
  }

  /** A diagnostic of the Unity analyzers: the first three characters of its
      id, folded, are `unt` or `usp`. */
  predicate IsUnityDiagnostic(d: Diagnostic) {
    && |d.id| >= 3
    && ToLowerAscii(d.id[0]) == 'u'
    && ((ToLowerAscii(d.id[1]) == 'n' && ToLowerAscii(d.id[2]) == 't')
        || (ToLowerAscii(d.id[1]) == 's' && ToLowerAscii(d.id[2]) == 'p'))
  }

  /** The test above is the source's: the id starts with `UNT` or `USP`,
      ignoring case. */
  lemma UnityPrefixesIgnoreCase(d: Diagnostic)
    ensures IsUnityDiagnostic(d) <==> StartsWithIgnoreCase(d.id, "UNT") || StartsWithIgnoreCase(d.id, "USP")
  {
    assert Lower("UNT") == "unt";
    assert Lower("USP") == "usp";
  }

  function UnityFilter(): Diagnostic -> bool {
    (d: Diagnostic) => IsUnityDiagnostic(d)
  }

  function InFileFilter(filePath: string): Diagnostic -> bool {
    (d: Diagnostic) => PathIs(d.file, filePath)
  }

  /** A diagnostic the request keeps: in the requested file, when one is
      given, and a Unity one. */
  predicate Kept(d: Diagnostic, filePath: Option<string>) {
    (Given(filePath) ==> PathIs(d.file, filePath.value)) && IsUnityDiagnostic(d)
  }

  /** The diagnostics of one project the request considers, in the
      analyzers' order. */
  function UnityDiagnostics(diagnostics: seq<Diagnostic>, filePath: Option<string>): seq<Diagnostic> {
    if diagnostics == [] then []
    else
      var d := diagnostics[|diagnostics| - 1];
      UnityDiagnostics(diagnostics[..|diagnostics| - 1], filePath) + (if Kept(d, filePath) then [d] else [])
  }

  /** The source's two passes, first the file filter when a file is given,
      then the `UNT`/`USP` filter, keep the same diagnostics in the same
      order. */
  lemma {:induction false} UnityDiagnosticsTwoPasses(diagnostics: seq<Diagnostic>, filePath: Option<string>)
    ensures UnityDiagnostics(diagnostics, filePath)
         == Filter(if Given(filePath) then Filter(diagnostics, InFileFilter(filePath.value)) else diagnostics, UnityFilter())
  {
    UnityDiagnosticsIsFilter(diagnostics, filePath);
    if Given(filePath) {
      var inFile := Filter(diagnostics, InFileFilter(filePath.value));
      FilterNarrows(diagnostics, KeptFilter(filePath), InFileFilter(filePath.value));
      forall k | 0 <= k < |inFile| ensures KeptFilter(filePath)(inFile[k]) == UnityFilter()(inFile[k]) {
        assert inFile[k] in inFile;
      }
      FilterCongruent(inFile, KeptFilter(filePath), UnityFilter());
    } else {
      FilterCongruent(diagnostics, KeptFilter(filePath), UnityFilter());
    }
  }

  function KeptFilter(filePath: Option<string>): Diagnostic -> bool {
    (d: Diagnostic) => Kept(d, filePath)
  }

  lemma {:induction false} UnityDiagnosticsIsFilter(diagnostics: seq<Diagnostic>, filePath: Option<string>)
    ensures UnityDiagnostics(diagnostics, filePath) == Filter(diagnostics, KeptFilter(filePath))
  {
    if diagnostics != [] {
      UnityDiagnosticsIsFilter(diagnostics[..|diagnostics| - 1], filePath);
    }
  }

  /** A diagnostic is kept exactly when it is a Unity diagnostic and, when a
      file is requested, lies in that file. */
  lemma UnityDiagnosticsMembers(diagnostics: seq<Diagnostic>, filePath: Option<string>)
    ensures forall d :: d in UnityDiagnostics(diagnostics, filePath) <==> d in diagnostics && Kept(d, filePath)
  {
    UnityDiagnosticsIsFilter(diagnostics, filePath);
  }

  /** A diagnostic as reported: with the name of its project. */
  datatype ReportedDiagnostic = ReportedDiagnostic(diagnostic: Diagnostic, project: string)

  /** `diagnostics`, each recorded with the project name. */
  function Tag(diagnostics: seq<Diagnostic>, project: string): (r: seq<ReportedDiagnostic>)
    ensures |r| == |diagnostics|
  {
    if diagnostics == [] then []
    else Tag(diagnostics[..|diagnostics| - 1], project) + [ReportedDiagnostic(diagnostics[|diagnostics| - 1], project)]
  }

  lemma {:induction false} TagElements(diagnostics: seq<Diagnostic>, project: string)
    ensures forall k :: 0 <= k < |diagnostics| ==>
      Tag(diagnostics, project)[k] == ReportedDiagnostic(diagnostics[k], project)
  {
    if diagnostics != [] {
      var front := diagnostics[..|diagnostics| - 1];
      TagElements(front, project);
      forall k | 0 <= k < |front| ensures Tag(diagnostics, project)[k] == ReportedDiagnostic(diagnostics[k], project) {
        assert Tag(diagnostics, project)[k] == Tag(front, project)[k];
      }
    }
  }

  /** `Take(n)`: the first `n` elements, none for `n <= 0`, all when there
      are fewer. */
  function Take<T>(s: seq<T>, n: int): (r: seq<T>)
    ensures |r| == if n <= 0 then 0 else if n < |s| then n else |s|
    ensures r == s[..|r|]
  {
    if n <= 0 then [] else if n < |s| then s[..n] else s
  }

  /** What project `p` offers the project loop: nothing when it has no
      compilation, otherwise its Unity diagnostics as reported, in order. */
  function Offered(p: Project, filePath: Option<string>): Option<seq<ReportedDiagnostic>> {
    if p.analyzerDiagnostics.None? then None
    else Some(Tag(UnityDiagnostics(p.analyzerDiagnostics.value, filePath), p.name))
  }

  /** What each project offers, in solution order. */
  function Offers(projects: seq<Project>, filePath: Option<string>): (r: seq<Option<seq<ReportedDiagnostic>>>)
    ensures |r| == |projects|
  {
    if projects == [] then []
    else Offers(projects[..|projects| - 1], filePath) + [Offered(projects[|projects| - 1], filePath)]
  }

  /** What project `k` offers is at position `k`. */
  lemma {:induction false} OffersAt(projects: seq<Project>, filePath: Option<string>, k: nat)
    requires k < |projects|
    ensures Offers(projects, filePath)[k] == Offered(projects[k], filePath)
  {
    var front := projects[..|projects| - 1];
    if k < |front| {
      OffersAt(front, filePath, k);
      assert Offers(projects, filePath)[k] == Offers(front, filePath)[k];
    }
  }

  /** Everything offered from position `i` on, in order: what the request
      would return without a limit. */
  function Candidates<T>(offers: seq<Option<seq<T>>>, i: nat): seq<T>
    requires i <= |offers|
    decreases |offers| - i
  {
    if i == |offers| then []
    else if offers[i].None? then Candidates(offers, i + 1)
    else offers[i].value + Candidates(offers, i + 1)
  }

  /** What the project loop ends with when it reaches position `i` holding
      `acc`: a project without a compilation is skipped; a compiled one adds
      its first diagnostics up to `maxResults` in all, and the loop stops
      after it once the list is full. */
  function Collected<T>(offers: seq<Option<seq<T>>>, i: nat, acc: seq<T>, maxResults: int): seq<T>
    requires i <= |offers|
    decreases |offers| - i
  {
    if i == |offers| then acc
    else if offers[i].None? then Collected(offers, i + 1, acc, maxResults)
    else
      var next := acc + Take(offers[i].value, maxResults - |acc|);
      if |next| >= maxResults then next else Collected(offers, i + 1, next, maxResults)
  }

  /** The count of compiled projects the loop ends with when it reaches
      position `i` holding `acc` and having counted `count`: it counts a
      compiled project before adding from it. */
  function Analyzed<T>(offers: seq<Option<seq<T>>>, i: nat, acc: seq<T>, count: nat, maxResults: int): nat
    requires i <= |offers|
    decreases |offers| - i
  {
    if i == |offers| then count
    else if offers[i].None? then Analyzed(offers, i + 1, acc, count, maxResults)
    else
      var next := acc + Take(offers[i].value, maxResults - |acc|);
      if |next| >= maxResults then count + 1 else Analyzed(offers, i + 1, next, count + 1, maxResults)
  }

  /** How many projects from position `i` on have a compilation. */
  function CompiledCount<T>(offers: seq<Option<seq<T>>>, i: nat): nat
    requires i <= |offers|
    decreases |offers| - i
  {
    if i == |offers| then 0
    else (if offers[i].Some? then 1 else 0) + CompiledCount(offers, i + 1)
  }

  /** The files of the collected diagnostics that have one. */
  function FilesOf(collected: seq<ReportedDiagnostic>): set<string> {
    set r | r in collected && r.diagnostic.file.Some? :: r.diagnostic.file.value
  }

  // ---------------------------------------------------------------- properties of the collection

  /** `Take` of a concatenation: from the first part alone while it is long
      enough, otherwise all of it and the rest from the second part. */
  lemma TakeAppend<T>(a: seq<T>, b: seq<T>, n: int)
    ensures Take(a + b, n) == if n <= |a| then Take(a, n) else a + Take(b, n - |a|)
  {
    if n > |a| && n - |a| < |b| {
      assert (a + b)[..n] == a + b[..n - |a|];
    } else if 0 < n <= |a| {
      assert (a + b)[..n] == a[..n];
    }
  }

  /** Tagging commutes with `Take`. */
  lemma TagTake(s: seq<Diagnostic>, n: int, project: string)
    ensures Tag(Take(s, n), project) == Take(Tag(s, project), n)
  {
    if 0 < n < |s| {
      var l, r := Tag(Take(s, n), project), Take(Tag(s, project), n);
      TagElements(s, project);
      TagElements(Take(s, n), project);
      assert |l| == |r|;
      forall k | 0 <= k < |l| ensures l[k] == r[k] {
        assert l[k] == ReportedDiagnostic(s[k], project);
      }
    }
  }

  /** The loop collects exactly the first `maxResults` candidates:
      stopping after the project that fills the list loses nothing the limit
      would keep. */
  lemma {:induction false} CollectedIsTake<T>(offers: seq<Option<seq<T>>>, i: nat, acc: seq<T>, maxResults: int)
    requires i <= |offers|
    requires acc == [] || |acc| < maxResults
    ensures Collected(offers, i, acc, maxResults) == acc + Take(Candidates(offers, i), maxResults - |acc|)
    decreases |offers| - i
  {
    if i == |offers| {
      assert acc + Take(Candidates(offers, i), maxResults - |acc|) == acc + [];
    } else if offers[i].None? {
      CollectedIsTake(offers, i + 1, acc, maxResults);
      SkippedTakes(offers, i, acc, maxResults);
    } else {
      var next := acc + Take(offers[i].value, maxResults - |acc|);
      if |next| >= maxResults {
        FillingTakes(offers, i, acc, maxResults);
      } else {
        CollectedIsTake(offers, i + 1, next, maxResults);
        RoomTakes(offers, i, acc, maxResults);
      }
    }
  }

  /** The induction step of `CollectedIsTake` at a project without a
      compilation. */
  lemma SkippedTakes<T>(offers: seq<Option<seq<T>>>, i: nat, acc: seq<T>, maxResults: int)
    requires i < |offers| && offers[i].None?
    requires Collected(offers, i + 1, acc, maxResults) == acc + Take(Candidates(offers, i + 1), maxResults - |acc|)
    ensures Collected(offers, i, acc, maxResults) == acc + Take(Candidates(offers, i), maxResults - |acc|)
  {
    SkippedStep(offers, i, acc, 0, maxResults);
  }

  /** The induction step of `CollectedIsTake` at a project that fills the
      list: what it adds is what the limit keeps of it followed by the later
      projects. */
  lemma FillingTakes<T>(offers: seq<Option<seq<T>>>, i: nat, acc: seq<T>, maxResults: int)
    requires i < |offers| && offers[i].Some?
    requires acc == [] || |acc| < maxResults
    requires |acc + Take(offers[i].value, maxResults - |acc|)| >= maxResults
    ensures Collected(offers, i, acc, maxResults) == acc + Take(Candidates(offers, i), maxResults - |acc|)
  {
    var own, rest := offers[i].value, Candidates(offers, i + 1);
    CompiledStep(offers, i, acc, 0, maxResults, acc + Take(own, maxResults - |acc|));
    assert Candidates(offers, i) == own + rest;
    TakeAppend(own, rest, maxResults - |acc|);
  }

  /** The induction step of `CollectedIsTake` at a project that leaves
      room: all of it is added, and the limit keeps the rest from the later
      projects. */
  lemma RoomTakes<T>(offers: seq<Option<seq<T>>>, i: nat, acc: seq<T>, maxResults: int)
    requires i < |offers| && offers[i].Some?
    requires acc == [] || |acc| < maxResults
    requires |acc + Take(offers[i].value, maxResults - |acc|)| < maxResults
    requires Collected(offers, i + 1, acc + offers[i].value, maxResults)
          == (acc + offers[i].value) + Take(Candidates(offers, i + 1), maxResults - |acc + offers[i].value|)
    ensures Collected(offers, i, acc, maxResults) == acc + Take(Candidates(offers, i), maxResults - |acc|)
  {
    var own := offers[i].value;
    RoomLeft(acc, own, maxResults);
    CompiledStep(offers, i, acc, 0, maxResults, acc + own);
    RoomAlgebra(acc, own, Candidates(offers, i + 1), maxResults);
  }

  /** A list that stays short of the limit took all it was offered. */
  lemma RoomLeft<T>(acc: seq<T>, own: seq<T>, maxResults: int)
    requires acc == [] || |acc| < maxResults
    requires |acc + Take(own, maxResults - |acc|)| < maxResults
    ensures |acc| + |own| < maxResults && Take(own, maxResults - |acc|) == own
  {
  }

  /** Taking after a prefix that fits is taking from the whole. */
  lemma RoomAlgebra<T>(acc: seq<T>, own: seq<T>, rest: seq<T>, maxResults: int)
    requires |acc| + |own| < maxResults
    ensures (acc + own) + Take(rest, maxResults - |acc + own|) == acc + Take(own + rest, maxResults - |acc|)
  {
    TakeAppend(own, rest, maxResults - |acc|);
    AppendAssoc(acc, own, Take(rest, maxResults - |acc| - |own|));
  }

  /** The loop counts at most the compiled projects. */
  lemma {:induction false} AnalyzedAtMostCompiled<T>(offers: seq<Option<seq<T>>>, i: nat, acc: seq<T>, count: nat,
                                                     maxResults: int)
    requires i <= |offers|
    ensures Analyzed(offers, i, acc, count, maxResults) <= count + CompiledCount(offers, i)
    decreases |offers| - i
  {
    if i < |offers| {
      if offers[i].None? {
        AnalyzedAtMostCompiled(offers, i + 1, acc, count, maxResults);
      } else {
        var next := acc + Take(offers[i].value, maxResults - |acc|);
        AnalyzedAtMostCompiled(offers, i + 1, next, count + 1, maxResults);
      }
    }
  }

  /** When the candidates do not fill the list the loop counts every
      compiled project. */
  lemma {:induction false} AnalyzedAllWhenRoom<T>(offers: seq<Option<seq<T>>>, i: nat, acc: seq<T>, count: nat,
                                                  maxResults: int)
    requires i <= |offers|
    requires |acc| + |Candidates(offers, i)| < maxResults
    ensures Analyzed(offers, i, acc, count, maxResults) == count + CompiledCount(offers, i)
    decreases |offers| - i
  {
    if i < |offers| {
      if offers[i].None? {
        AnalyzedAllWhenRoom(offers, i + 1, acc, count, maxResults);
      } else {
        var own := offers[i].value;
        assert Take(own, maxResults - |acc|) == own;
        AnalyzedAllWhenRoom(offers, i + 1, acc + own, count + 1, maxResults);
      }
    }
  }

  /** With no room at all (`maxResults <= 0`) the loop still counts the
      first compiled project before it stops, and collects nothing. */
  lemma {:induction false} NoRoomStopsAfterFirstCompiled<T>(offers: seq<Option<seq<T>>>, i: nat, count: nat,
                                                            maxResults: int, j: nat)
    requires maxResults <= 0
    requires i <= j < |offers| && offers[j].Some?
    ensures Collected(offers, i, [], maxResults) == []
    ensures Analyzed(offers, i, [], count, maxResults) == count + 1
    decreases j - i
  {
    if offers[i].None? {
      NoRoomStopsAfterFirstCompiled(offers, i + 1, count, maxResults, j);
    } else {
      assert [] + Take(offers[i].value, maxResults) == [];
    }
  }

  /** What a project offers is its Unity diagnostics, in the requested file
      when one is given, each recorded with the project's name. */
  lemma OfferedAreUnityDiagnostics(p: Project, filePath: Option<string>, x: ReportedDiagnostic)
    requires Offered(p, filePath).Some? && x in Offered(p, filePath).value
    ensures p.analyzerDiagnostics.Some? && x.project == p.name && x.diagnostic in p.analyzerDiagnostics.value
    ensures IsUnityDiagnostic(x.diagnostic)
    ensures Given(filePath) ==> PathIs(x.diagnostic.file, filePath.value)
  {
    var unity := UnityDiagnostics(p.analyzerDiagnostics.value, filePath);
    var own := Tag(unity, p.name);
    TagElements(unity, p.name);
    var k :| 0 <= k < |own| && own[k] == x;
    assert x.diagnostic == unity[k];
    UnityDiagnosticsMembers(p.analyzerDiagnostics.value, filePath);
  }

  /** Every candidate is a Unity diagnostic of a compiled project, in the
      requested file when one is given. */
  lemma {:induction false} CandidatesAreUnityDiagnostics(projects: seq<Project>, i: nat, filePath: Option<string>,
                                                         x: ReportedDiagnostic)
    requires i <= |projects|
    requires x in Candidates(Offers(projects, filePath), i)
    ensures IsUnityDiagnostic(x.diagnostic)
    ensures Given(filePath) ==> PathIs(x.diagnostic.file, filePath.value)
    ensures exists j :: i <= j < |projects| && projects[j].analyzerDiagnostics.Some?
                        && projects[j].name == x.project && x.diagnostic in projects[j].analyzerDiagnostics.value
    decreases |projects| - i
  {
    var offers := Offers(projects, filePath);
    OffersAt(projects, filePath, i);
    var here := offers[i];
    if here.Some? && x in here.value {
      OfferedAreUnityDiagnostics(projects[i], filePath, x);
    } else {
      assert x in Candidates(offers, i + 1);
      CandidatesAreUnityDiagnostics(projects, i + 1, filePath, x);
    }
  }

  // ---------------------------------------------------------------- the loops

  lemma FilesOfSnoc(collected: seq<ReportedDiagnostic>, x: ReportedDiagnostic)
    ensures FilesOf(collected + [x]) == FilesOf(collected) + (if x.diagnostic.file.Some? then {x.diagnostic.file.value} else {})
  {
  }

  /** The inner loop over one project's Unity diagnostics: at most the room
      left, each recorded with the project name and its file noted. */
  method AddDiagnostics(project: string, unity: seq<Diagnostic>, maxResults: int,
                        diagnostics: seq<ReportedDiagnostic>, files: set<string>)
    returns (added: seq<ReportedDiagnostic>, addedFiles: set<string>)
    requires files == FilesOf(diagnostics)
    ensures added == diagnostics + Take(Tag(unity, project), maxResults - |diagnostics|)
    ensures addedFiles == FilesOf(added)
  {
    var batch := Take(unity, maxResults - |diagnostics|);
    added, addedFiles := diagnostics, files;
    var j := 0;
    while j < |batch|
      invariant 0 <= j <= |batch|
      invariant added == diagnostics + Tag(batch[..j], project)
      invariant addedFiles == FilesOf(added)
    {
      var diagnostic := batch[j];
      TagSnoc(batch, j, project);
      AppendAssoc(diagnostics, Tag(batch[..j], project), [ReportedDiagnostic(diagnostic, project)]);
      FilesOfSnoc(added, ReportedDiagnostic(diagnostic, project));
      if diagnostic.file.Some? {
        addedFiles := addedFiles + {diagnostic.file.value};
      }
      added := added + [ReportedDiagnostic(diagnostic, project)];
      j := j + 1;
      assert added == diagnostics + Tag(batch[..j], project);
      if |added| >= maxResults {
        assert j == |batch|;
        break;
      }
    }
    assert batch[..j] == batch;
    TagTake(unity, maxResults - |diagnostics|, project);
  }

  lemma TagSnoc(s: seq<Diagnostic>, j: nat, project: string)
    requires j < |s|
    ensures Tag(s[..j + 1], project) == Tag(s[..j], project) + [ReportedDiagnostic(s[j], project)]
  {
    assert s[..j + 1][..j] == s[..j];
  }

  /** One compiled project in the project loop, from the list `acc`
      to the list `next`. */
  lemma CompiledStep<T>(offers: seq<Option<seq<T>>>, i: nat, acc: seq<T>, count: nat, maxResults: int, next: seq<T>)
    requires i < |offers| && offers[i].Some?
    requires next == acc + Take(offers[i].value, maxResults - |acc|)
    ensures |next| >= maxResults ==> Collected(offers, i, acc, maxResults) == next
    ensures |next| >= maxResults ==> Analyzed(offers, i, acc, count, maxResults) == count + 1
    ensures |next| < maxResults ==> Collected(offers, i, acc, maxResults) == Collected(offers, i + 1, next, maxResults)
    ensures |next| < maxResults ==>
      Analyzed(offers, i, acc, count, maxResults) == Analyzed(offers, i + 1, next, count + 1, maxResults)
  {
  }

  /** A project without a compilation in the project loop. */
  lemma SkippedStep<T>(offers: seq<Option<seq<T>>>, i: nat, acc: seq<T>, count: nat, maxResults: int)
    requires i < |offers| && offers[i].None?
    ensures Collected(offers, i, acc, maxResults) == Collected(offers, i + 1, acc, maxResults)
    ensures Analyzed(offers, i, acc, count, maxResults) == Analyzed(offers, i + 1, acc, count, maxResults)
  {
  }

  /** The project loop of `GetUnityDiagnosticsAsync`: counts each compiled
      project, adds its Unity diagnostics while there is room, and stops once
      the list holds `maxResults`. */
  method CollectDiagnostics(projects: seq<Project>, filePath: Option<string>, maxResults: int)
    returns (diagnostics: seq<ReportedDiagnostic>, projectsAnalyzed: nat, filesAnalyzed: set<string>)
    ensures diagnostics == Collected(Offers(projects, filePath), 0, [], maxResults)
    ensures projectsAnalyzed == Analyzed(Offers(projects, filePath), 0, [], 0, maxResults)
    ensures filesAnalyzed == FilesOf(diagnostics)
  {
    ghost var offers := Offers(projects, filePath);
    diagnostics, projectsAnalyzed, filesAnalyzed := [], 0, {};
    var i := 0;
    while i < |projects|
      invariant 0 <= i <= |projects|
      invariant Collected(offers, i, diagnostics, maxResults) == Collected(offers, 0, [], maxResults)
      invariant Analyzed(offers, i, diagnostics, projectsAnalyzed, maxResults) == Analyzed(offers, 0, [], 0, maxResults)
      invariant filesAnalyzed == FilesOf(diagnostics)
    {
      var project := projects[i];
      OffersAt(projects, filePath, i);
      if project.analyzerDiagnostics.Some? {
        ghost var before, count := diagnostics, projectsAnalyzed;
        projectsAnalyzed := projectsAnalyzed + 1;
        var unity := UnityDiagnostics(project.analyzerDiagnostics.value, filePath);
        diagnostics, filesAnalyzed := AddDiagnostics(project.name, unity, maxResults, diagnostics, filesAnalyzed);
        CompiledStep(offers, i, before, count, maxResults, diagnostics);
        if |diagnostics| >= maxResults {
          break;
        }
      } else {
        SkippedStep(offers, i, diagnostics, projectsAnalyzed, maxResults);
      }
      i := i + 1;
    }
  }

  // ================================================================ the diagnostics request

  /** The message of a request for which no analyzer is loaded. */
  const NoAnalyzers: string := "No Unity analyzers loaded. Ensure Microsoft.Unity.Analyzers package is installed."

  /** The answer to a diagnostics request: how many diagnostics it reports,
      how many projects it analyzed and how many distinct files the reported
      diagnostics lie in, how many analyzers ran, the category asked for
      (`"all"` when none), whether the list reached the limit, and the list. */
  datatype DiagnosticsReport = DiagnosticsReport(
    totalDiagnostics: nat,
    projectsAnalyzed: nat,
    filesAnalyzed: nat,
    analyzerCount: nat,
    categoryFilter: string,
    truncated: bool,
    diagnostics: seq<ReportedDiagnostic>)

  /** The report of a request over the projects of a loaded solution, once
      `analyzerCount` analyzers are loaded. */
  function DiagnosticsReportFor(projects: seq<Project>, filePath: Option<string>, projectPath: Option<string>,
                                category: Option<string>, maxResults: int, analyzerCount: nat): DiagnosticsReport
  {
    var offers := Offers(SelectedProjects(projects, projectPath), filePath);
    var collected := Collected(offers, 0, [], maxResults);
    DiagnosticsReport(|collected|, Analyzed(offers, 0, [], 0, maxResults), |FilesOf(collected)|, analyzerCount,
                      category.GetOr("all"), |collected| >= maxResults, collected)
  }

  /** Every Unity diagnostic a request could report, project by project in
      solution order. */
  function RequestCandidates(projects: seq<Project>, filePath: Option<string>, projectPath: Option<string>)
    : seq<ReportedDiagnostic>
  {
    Candidates(Offers(SelectedProjects(projects, projectPath), filePath), 0)
  }

  /** `GetUnityDiagnosticsAsync`: fails without a solution; otherwise loads
      the analyzers of the category the keyword names (through the loader's
      cache), fails when there are none, and reports the Unity diagnostics of
      the selected projects. */
  method GetUnityDiagnostics(loader: AnalyzerLoader.AnalyzerLoader, fromAssembly: seq<AnalyzerLoader.Analyzer>,
                             solution: Option<seq<Project>>, filePath: Option<string>, projectPath: Option<string>,
                             category: Option<string>, maxResults: int)
    returns (r: Result<DiagnosticsReport, string>)
    modifies loader
    ensures solution.None? ==> r == Failure(NoSolution) && loader.cachedAnalyzers == old(loader.cachedAnalyzers)
    ensures solution.Some? ==> loader.cachedAnalyzers == Some(old(loader.cachedAnalyzers).GetOr(fromAssembly))
    ensures solution.Some? && AnalyzerLoader.ByCategory(loader.cachedAnalyzers.value, CategoryFromKeyword(category)) == []
            ==> r == Failure(NoAnalyzers)
    ensures solution.Some? && AnalyzerLoader.ByCategory(loader.cachedAnalyzers.value, CategoryFromKeyword(category)) != []
            ==> r == Success(DiagnosticsReportFor(solution.value, filePath, projectPath, category, maxResults,
                    |AnalyzerLoader.ByCategory(loader.cachedAnalyzers.value, CategoryFromKeyword(category))|))
  {
    if solution.None? {
      return Failure(NoSolution);
    }
    var analyzers := loader.GetAnalyzersByCategory(CategoryFromKeyword(category), fromAssembly);
    if |analyzers| == 0 {
      return Failure(NoAnalyzers);
    }
    var projects := SelectedProjects(solution.value, projectPath);
    var diagnostics, projectsAnalyzed, filesAnalyzed := CollectDiagnostics(projects, filePath, maxResults);
    r := Success(DiagnosticsReport(|diagnostics|, projectsAnalyzed, |filesAnalyzed|, |analyzers|,
                                   category.GetOr("all"), |diagnostics| >= maxResults, diagnostics));
  }

  /** A report lists the first `maxResults` Unity diagnostics of the selected
      projects, and says it is truncated exactly when there were at least that
      many. */
  lemma ReportListsFirstCandidates(projects: seq<Project>, filePath: Option<string>, projectPath: Option<string>,
                                   category: Option<string>, maxResults: int, analyzerCount: nat,
                                   report: DiagnosticsReport)
    requires report == DiagnosticsReportFor(projects, filePath, projectPath, category, maxResults, analyzerCount)
    ensures report.diagnostics == Take(RequestCandidates(projects, filePath, projectPath), maxResults)
    ensures report.totalDiagnostics == |report.diagnostics| && report.filesAnalyzed <= report.totalDiagnostics
    ensures report.truncated <==> |RequestCandidates(projects, filePath, projectPath)| >= maxResults
  {
    var offers := Offers(SelectedProjects(projects, projectPath), filePath);
    CollectedIsTake(offers, 0, [], maxResults);
    FilesAtMostDiagnostics(report.diagnostics);
    assert [] + Take(Candidates(offers, 0), maxResults) == Take(Candidates(offers, 0), maxResults);
  }

  /** Every reported diagnostic is a Unity diagnostic (`UNT…` or `USP…`), in
      the requested file when one is given, found by the analyzers of a
      compiled project the request selects, whose name it carries. */
  lemma ReportedAreUnityDiagnostics(projects: seq<Project>, filePath: Option<string>, projectPath: Option<string>,
                                    category: Option<string>, maxResults: int, analyzerCount: nat,
                                    report: DiagnosticsReport, x: ReportedDiagnostic)
    requires report == DiagnosticsReportFor(projects, filePath, projectPath, category, maxResults, analyzerCount)
    requires x in report.diagnostics
    ensures IsUnityDiagnostic(x.diagnostic)
    ensures Given(filePath) ==> PathIs(x.diagnostic.file, filePath.value)
    ensures exists p :: && p in projects
                        && (Given(projectPath) ==> ProjectMatches(projectPath.value, p))
                        && p.analyzerDiagnostics.Some?
                        && p.name == x.project
                        && x.diagnostic in p.analyzerDiagnostics.value
  {
    ReportListsFirstCandidates(projects, filePath, projectPath, category, maxResults, analyzerCount, report);
    var selected := SelectedProjects(projects, projectPath);
    assert x in RequestCandidates(projects, filePath, projectPath);
    CandidatesAreUnityDiagnostics(selected, 0, filePath, x);
    var j :| && 0 <= j < |selected| && selected[j].analyzerDiagnostics.Some?
             && selected[j].name == x.project && x.diagnostic in selected[j].analyzerDiagnostics.value;
    assert selected[j] in selected;
  }

  /** A report counts at most the compiled projects it selects, and all of
      them when the list did not reach the limit. */
  lemma ReportCountsCompiledProjects(projects: seq<Project>, filePath: Option<string>, projectPath: Option<string>,
                                     category: Option<string>, maxResults: int, analyzerCount: nat,
                                     report: DiagnosticsReport)
    requires report == DiagnosticsReportFor(projects, filePath, projectPath, category, maxResults, analyzerCount)
    ensures report.projectsAnalyzed <= CompiledCount(Offers(SelectedProjects(projects, projectPath), filePath), 0)
    ensures !report.truncated ==>
      report.projectsAnalyzed == CompiledCount(Offers(SelectedProjects(projects, projectPath), filePath), 0)
  {
    var offers := Offers(SelectedProjects(projects, projectPath), filePath);
    AnalyzedAtMostCompiled(offers, 0, [], 0, maxResults);
    if !report.truncated {
      ReportListsFirstCandidates(projects, filePath, projectPath, category, maxResults, analyzerCount, report);
      AnalyzedAllWhenRoom(offers, 0, [], 0, maxResults);
    }
  }

  /** With `maxResults <= 0` a request reports nothing, says it is truncated,
      and counts only the first compiled project it selects. */
  lemma NoRoomReportsNothing(projects: seq<Project>, filePath: Option<string>, projectPath: Option<string>,
                             category: Option<string>, maxResults: int, analyzerCount: nat,
                             report: DiagnosticsReport, j: nat)
    requires report == DiagnosticsReportFor(projects, filePath, projectPath, category, maxResults, analyzerCount)
    requires maxResults <= 0
    requires j < |SelectedProjects(projects, projectPath)| && SelectedProjects(projects, projectPath)[j].analyzerDiagnostics.Some?
    ensures report.diagnostics == [] && report.truncated && report.filesAnalyzed == 0
    ensures report.projectsAnalyzed == 1
  {
    var selected := SelectedProjects(projects, projectPath);
    OffersAt(selected, filePath, j);
    NoRoomStopsAfterFirstCompiled(Offers(selected, filePath), 0, 0, maxResults, j);
    assert FilesOf([]) == {};
  }

  /** The reported diagnostics lie in no more files than there are of them. */
  lemma {:induction false} FilesAtMostDiagnostics(collected: seq<ReportedDiagnostic>)
    ensures |FilesOf(collected)| <= |collected|
  {
    if collected != [] {
      var front := collected[..|collected| - 1];
      var last := collected[|collected| - 1];
      FilesAtMostDiagnostics(front);
      assert collected == front + [last];
      FilesOfSnoc(front, last);
    }
  }

  // ================================================================ the pattern check

  /** The message of a pattern check when the compiler gives the document no
      semantic model. */
  const NoSemanticModel: string := "Could not get semantic model for file"

  /** The message of a pattern check when no document has the path. */
  function FileNotFound(filePath: string): string {
    "File not found in solution: " + filePath
  }

  /** The answer to a pattern check: the path asked for and the issues found. */
  datatype PatternReport = PatternReport(file: string, issues: seq<PatternAnalyzer.PatternIssue>)

  /** Some document of `documents` has the path `filePath`, ignoring case. */
  predicate HasDocument(documents: seq<SourceDocument>, filePath: string) {
    exists k :: 0 <= k < |documents| && PathIs(documents[k].filePath, filePath)
  }

  /** `FirstOrDefault` over a project's documents from position `j`: the first
      whose path equals `filePath`, ignoring case. */
  function FirstIn(documents: seq<SourceDocument>, filePath: string, j: nat): Option<SourceDocument>
    requires j <= |documents|
    decreases |documents| - j
  {
    if j == |documents| then None
    else if PathIs(documents[j].filePath, filePath) then Some(documents[j])
    else FirstIn(documents, filePath, j + 1)
  }

  /** The document a pattern check reads, from project `i` on: the first
      match in the first project that has one. */
  function FirstDocument(projects: seq<Project>, filePath: string, i: nat): Option<SourceDocument>
    requires i <= |projects|
    decreases |projects| - i
  {
    if i == |projects| then None
    else match FirstIn(projects[i].documents, filePath, 0)
      case Some(d) => Some(d)
      case None => FirstDocument(projects, filePath, i + 1)
  }

  /** `FirstIn` finds a document exactly when one matches, and what it finds
      matches and comes before every other match. */
  lemma {:induction false} FirstInFinds(documents: seq<SourceDocument>, filePath: string, j: nat)
    requires j <= |documents|
    ensures FirstIn(documents, filePath, j).None? <==> !HasDocument(documents[j..], filePath)
    ensures FirstIn(documents, filePath, j).Some? ==>
      exists k :: && j <= k < |documents|
                  && documents[k] == FirstIn(documents, filePath, j).value
                  && PathIs(documents[k].filePath, filePath)
                  && !HasDocument(documents[j..k], filePath)
    decreases |documents| - j
  {
    if j < |documents| {
      if PathIs(documents[j].filePath, filePath) {
        assert documents[j..][0] == documents[j];
        assert documents[j..j] == [];
      } else {
        FirstInFinds(documents, filePath, j + 1);
        HasDocumentStep(documents, filePath, j, |documents|);
        if FirstIn(documents, filePath, j).Some? {
          var k :| && j + 1 <= k < |documents|
                   && documents[k] == FirstIn(documents, filePath, j).value
                   && PathIs(documents[k].filePath, filePath)
                   && !HasDocument(documents[j + 1..k], filePath);
          HasDocumentStep(documents, filePath, j, k);
        }
      }
    }
  }

  /** A slice starting with a non-matching document has a match exactly when
      the rest of it does. */
  lemma HasDocumentStep(documents: seq<SourceDocument>, filePath: string, j: nat, k: nat)
    requires j < k <= |documents| && !PathIs(documents[j].filePath, filePath)
    ensures HasDocument(documents[j..k], filePath) <==> HasDocument(documents[j + 1..k], filePath)
  {
    var s, t := documents[j..k], documents[j + 1..k];
    if HasDocument(s, filePath) {
      var m :| 0 <= m < |s| && PathIs(s[m].filePath, filePath);
      assert m > 0 && s[m] == t[m - 1];
    }
    if HasDocument(t, filePath) {
      var m :| 0 <= m < |t| && PathIs(t[m].filePath, filePath);
      assert s[m + 1] == t[m];
    }
  }

  /** The search finds a document exactly when some project from `i` on has
      a match, and then it is the first match of the first such project. */
  lemma {:induction false} FirstDocumentFinds(projects: seq<Project>, filePath: string, i: nat)
    requires i <= |projects|
    ensures FirstDocument(projects, filePath, i).None? <==>
            forall k :: i <= k < |projects| ==> !HasDocument(projects[k].documents, filePath)
    ensures FirstDocument(projects, filePath, i).Some? ==>
      exists k :: && i <= k < |projects|
                  && FirstIn(projects[k].documents, filePath, 0) == FirstDocument(projects, filePath, i)
                  && forall e :: i <= e < k ==> !HasDocument(projects[e].documents, filePath)
    decreases |projects| - i
  {
    if i < |projects| {
      FirstInFinds(projects[i].documents, filePath, 0);
      assert projects[i].documents[0..] == projects[i].documents;
      if FirstIn(projects[i].documents, filePath, 0).None? {
        FirstDocumentFinds(projects, filePath, i + 1);
      }
    }
  }

  /** The project loop of `CheckUnityPatternsAsync` that looks for the
      document. */
  method FindDocument(projects: seq<Project>, filePath: string) returns (document: Option<SourceDocument>)
    ensures document == FirstDocument(projects, filePath, 0)
  {
    document := None;
    var i := 0;
    while i < |projects|
      invariant 0 <= i <= |projects|
      invariant FirstDocument(projects, filePath, i) == FirstDocument(projects, filePath, 0)
    {
      document := FirstIn(projects[i].documents, filePath, 0);
      if document.Some? {
        break;
      }
      i := i + 1;
    }
    if i == |projects| {
      document := None;
    }
  }

  function NotInfoFilter(): PatternAnalyzer.PatternIssue -> bool {
    (issue: PatternAnalyzer.PatternIssue) => issue.severity != PatternAnalyzer.Info
  }

  /** The issues a check reports: all of them, or all but the informational
      ones when `includeInfo` is off. */
  function SeverityFiltered(issues: seq<PatternAnalyzer.PatternIssue>, includeInfo: bool)
    : (r: seq<PatternAnalyzer.PatternIssue>)
    ensures forall x :: x in r <==> x in issues && (includeInfo || x.severity != PatternAnalyzer.Info)
  {
    if includeInfo then issues else Filter(issues, NotInfoFilter())
  }

  /** The answer to a pattern check of `filePath` in a loaded solution. */
  function PatternCheckFor(projects: seq<Project>, filePath: string, includeInfo: bool)
    : Result<PatternReport, string>
  {
    match FirstDocument(projects, filePath, 0)
    case None => Failure(FileNotFound(filePath))
    case Some(d) =>
      if !d.hasSemanticModel then Failure(NoSemanticModel)
      else Success(PatternReport(filePath, SeverityFiltered(
                     PatternAnalyzer.DocumentIssues(PatternAnalyzer.Document(d.filePath, d.root)), includeInfo)))
  }

  /** `CheckUnityPatternsAsync`: fails without a solution, without a
      document of that path or without a semantic model; otherwise reports
      the pattern issues of the document, informational ones only when
      asked. */
  method CheckUnityPatterns(solution: Option<seq<Project>>, filePath: string, includeInfo: bool)
    returns (r: Result<PatternReport, string>)
    ensures solution.None? ==> r == Failure(NoSolution)
    ensures solution.Some? ==> r == PatternCheckFor(solution.value, filePath, includeInfo)
  {
    if solution.None? {
      return Failure(NoSolution);
    }
    var document := FindDocument(solution.value, filePath);
    if document.None? {
      return Failure(FileNotFound(filePath));
    }
    var d := document.value;
    if !d.hasSemanticModel {
      return Failure(NoSemanticModel);
    }
    var issues := PatternAnalyzer.DocumentIssues(PatternAnalyzer.Document(d.filePath, d.root));
    if !includeInfo {
      issues := Filter(issues, NotInfoFilter());
    }
    r := Success(PatternReport(filePath, issues));
  }

  /** A check fails with "file not found" exactly when no project holds a
      document of that path. */
  lemma PatternCheckFindsFile(projects: seq<Project>, filePath: string, includeInfo: bool)
    ensures PatternCheckFor(projects, filePath, includeInfo) == Failure(FileNotFound(filePath)) <==>
            forall k :: 0 <= k < |projects| ==> !HasDocument(projects[k].documents, filePath)
  {
    FirstDocumentFinds(projects, filePath, 0);
    if FirstDocument(projects, filePath, 0).Some? && !FirstDocument(projects, filePath, 0).value.hasSemanticModel {
      assert NoSemanticModel[0] != FileNotFound(filePath)[0];
    }
  }

  /** The issues a check without informational ones keeps and the
      informational ones it drops add up to all the issues found. */
  lemma {:induction false} SeverityFilterPartitions(issues: seq<PatternAnalyzer.PatternIssue>)
    ensures |SeverityFiltered(issues, false)| + |Filter(issues, InfoFilter())| == |issues|
  {
    if issues != [] {
      var front := issues[..|issues| - 1];
      SeverityFilterPartitions(front);
    }
  }

  function InfoFilter(): PatternAnalyzer.PatternIssue -> bool {
    (issue: PatternAnalyzer.PatternIssue) => issue.severity == PatternAnalyzer.Info
  }

  /** A method that is not a hot path yields only informational issues, so a
      check without them reports nothing for it. */
  lemma ColdMethodWithoutInfoReportsNothing(m: PatternAnalyzer.MethodDecl, filePath: string)
    requires !PatternAnalyzer.IsHotPath(m.name)
    ensures SeverityFiltered(PatternAnalyzer.MethodIssues(m, filePath), false) == []
  {
    var issues := PatternAnalyzer.MethodIssues(m, filePath);
    PatternProperties.ColdMethodReportsOnlyCameraMain(m, filePath);
    FilterNone(issues, NotInfoFilter());
  }
}
