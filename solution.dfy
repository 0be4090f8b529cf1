/** The part of a loaded solution the analysis service reads: its projects,
    their documents and what the compiler and the analyzers make of them, and
    the path filters a request applies to them. */
module Solution {
  import opened Wrappers
  import opened Seqs
  import opened Text
  import PatternAnalyzer

  // ================================================================ entities

  /** An analyzer diagnostic: its id, severity name, message, category, the
      path of its source tree (absent for a diagnostic outside any file) and
      its start and end positions. */
  datatype Diagnostic = Diagnostic(
    id: string,
    severity: string,
    message: string,
    category: string,
    file: Option<string>,
    line: int,
    column: int,
    endLine: int,
    endColumn: int)

  /** A document: its path, its text, its syntax tree as the pattern analyzer
      sees it, and whether the compiler gives it a semantic model. */
  datatype SourceDocument = SourceDocument(
    filePath: Option<string>,
    content: string,
    root: Option<seq<PatternAnalyzer.ClassDecl>>,
    hasSemanticModel: bool)

  /** A project: its name, its path, its documents in order, and what running
      the analyzers on its compilation yields — `None` when the project has no
      compilation. */
  datatype Project = Project(
    name: string,
    filePath: Option<string>,
    documents: seq<SourceDocument>,
    analyzerDiagnostics: Option<seq<Diagnostic>>)

  /** The message every operation returns when no solution is loaded. */
  const NoSolution: string := "No solution loaded. Call ulsm:load_solution first."

  // ================================================================ paths

  /** `!string.IsNullOrEmpty(o)`. */
  predicate Given(o: Option<string>) {
    o.Some? && o.value != []
  }

  /** The position of the last `c` in `s`, or -1. */
  function LastIndexOf(s: string, c: char): (r: int)
    ensures -1 <= r < |s|
    ensures r >= 0 ==> s[r] == c
    ensures forall j :: r < j < |s| ==> s[j] != c
  {
    if s == [] then -1
    else if s[|s| - 1] == c then |s| - 1
    else LastIndexOf(s[..|s| - 1], c)
  }

  /** The last `c` of `s` is at `i`. */
  lemma LastIndexOfAt(s: string, c: char, i: nat)
    requires i < |s| && s[i] == c
    requires forall j :: i < j < |s| ==> s[j] != c
    ensures LastIndexOf(s, c) == i
  {
  }

  /** `Path.GetFileName` with `/` as the only directory separator. */
  function FileName(path: string): (r: string)
    ensures IsSuffix(r, path) && '/' !in r
  {
    path[LastIndexOf(path, '/') + 1..]
  }

  /** `Path.GetFileNameWithoutExtension`: the file name, cut before its last
      `.` when it has one. */
  function FileNameWithoutExtension(path: string): (r: string)
    ensures IsPrefix(r, FileName(path))
  {
    var name := FileName(path);
    var dot := LastIndexOf(name, '.');
    if dot < 0 then name else name[..dot]
  }

  /** The name a project file gives its project: the stem of
      `<dir>/<stem>.csproj`, whatever the directory and however many dots
      the stem holds. */
  lemma {:induction false} ProjectFileStem(dir: string, stem: string)
    requires '/' !in stem
    ensures FileNameWithoutExtension(dir + "/" + stem + ".csproj") == stem
  {
    var path := dir + "/" + stem + ".csproj";
    assert path[|dir|] == '/';
    forall j | |dir| < j < |path| ensures path[j] != '/' {
      if j <= |dir| + |stem| {
        assert path[j] == stem[j - |dir| - 1];
      } else {
        assert path[j] == ".csproj"[j - |dir| - 1 - |stem|];
      }
    }
    LastIndexOfAt(path, '/', |dir|);
    var name := FileName(path);
    assert name == stem + ".csproj";
    assert name[|stem|] == '.';
    forall j | |stem| < j < |name| ensures name[j] != '.' {
      assert name[j] == ".csproj"[j - |stem|];
    }
    LastIndexOfAt(name, '.', |stem|);
  }

  /** A path without `/` or `.` is its own name without extension. */
  lemma PlainNameIsItsOwnStem(name: string)
    requires '/' !in name && '.' !in name
    ensures FileNameWithoutExtension(name) == name
  {
    assert FileName(name) == name;
  }

  // ================================================================ selection

  /** The optional path is present and equals `path`, ignoring case. */
  predicate PathIs(p: Option<string>, path: string) {
    p.Some? && EqualsIgnoreCase(p.value, path)
  }

  /** The project filter of a request naming `projectPath`: the project's own
      path equals it, or the project's name equals its file name without
      extension, both ignoring case. */
  predicate ProjectMatches(projectPath: string, p: Project) {
    PathIs(p.filePath, projectPath) || EqualsIgnoreCase(p.name, FileNameWithoutExtension(projectPath))
  }

  function ProjectFilter(projectPath: string): Project -> bool {
    (p: Project) => ProjectMatches(projectPath, p)
  }

  /** The projects a request looks at: all of them without a project path,
      otherwise those matching it, in solution order. */
  function SelectedProjects(projects: seq<Project>, projectPath: Option<string>): (r: seq<Project>)
    ensures forall p :: p in r <==> p in projects && (Given(projectPath) ==> ProjectMatches(projectPath.value, p))
  {
    if Given(projectPath) then Filter(projects, ProjectFilter(projectPath.value)) else projects
  }

  /** Asking for a project by its project file selects every project with
      that stem as its name, in any case, wherever its file lies. */
  lemma SelectedByProjectFile(projects: seq<Project>, dir: string, stem: string, p: Project)
    requires '/' !in stem && p in projects && EqualsIgnoreCase(p.name, stem)
    ensures p in SelectedProjects(projects, Some(dir + "/" + stem + ".csproj"))
  {
    ProjectFileStem(dir, stem);
  }

  function DocumentFilter(filePath: string): SourceDocument -> bool {
    (d: SourceDocument) => PathIs(d.filePath, filePath)
  }

  /** The documents of a project a request looks at: all of them without a
      file path, otherwise those whose path equals it ignoring case. */
  function SelectedDocuments(documents: seq<SourceDocument>, filePath: Option<string>): (r: seq<SourceDocument>)
    ensures forall d :: d in r <==> d in documents && (Given(filePath) ==> PathIs(d.filePath, filePath.value))
  {
    if Given(filePath) then Filter(documents, DocumentFilter(filePath.value)) else documents
  }
}
