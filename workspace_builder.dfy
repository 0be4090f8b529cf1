/** The text extraction of the fallback workspace builder
    (`UnityAdhocWorkspaceBuilder`): the project paths a solution file lists
    and the source files, references and preprocessor defines a Unity project
    file declares. Reading the files is left to the caller: a solution file
    is given as its lines, a project file as its XML elements in document
    order, `None` when it could not be loaded. */
module WorkspaceBuilder {
  import opened Wrappers
  import opened Seqs
  import opened Text

  // ================================================================ picking values

  /** The values `pick` finds in `xs`, in order: `Where(…).Select(…)`, and the
      shape of a loop that appends at most one value per element. */
  function Picked<T>(xs: seq<T>, pick: T -> Option<string>): seq<string> {
    if xs == [] then []
    else Picked(xs[..|xs| - 1], pick) + (match pick(xs[|xs| - 1]) case Some(v) => [v] case None => [])
  }

  /** A value is picked exactly when some element yields it, and there are no
      more values than elements. */
  lemma {:induction false} PickedMembers<T>(xs: seq<T>, pick: T -> Option<string>)
    ensures |Picked(xs, pick)| <= |xs|
    ensures forall v :: v in Picked(xs, pick) <==> exists k :: 0 <= k < |xs| && pick(xs[k]) == Some(v)
  {
    if xs != [] {
      var front := xs[..|xs| - 1];
      PickedMembers(front, pick);
      forall v | (exists k :: 0 <= k < |xs| && pick(xs[k]) == Some(v)) ensures v in Picked(xs, pick) {
        var k :| 0 <= k < |xs| && pick(xs[k]) == Some(v);
        if k < |front| {
          assert front[k] == xs[k];
        }
      }
      forall v | v in Picked(xs, pick) ensures exists k :: 0 <= k < |xs| && pick(xs[k]) == Some(v) {
        if v in Picked(front, pick) {
          var k :| 0 <= k < |front| && pick(front[k]) == Some(v);
          assert xs[k] == front[k];
        } else {
          assert pick(xs[|xs| - 1]) == Some(v);
        }
      }
    }
  }

  /** Picking keeps the order of the input: the values of a later part come
      after those of an earlier one. */
  lemma {:induction false} PickedAppend<T>(a: seq<T>, b: seq<T>, pick: T -> Option<string>)
    ensures Picked(a + b, pick) == Picked(a, pick) + Picked(b, pick)
    decreases |b|
  {
    if b == [] {
      assert a + b == a;
    } else {
      var b' := b[..|b| - 1];
      assert (a + b)[..|a + b| - 1] == a + b';
      assert (a + b)[|a + b| - 1] == b[|b| - 1];
      PickedAppend(a, b', pick);
    }
  }

  // ================================================================ the solution file

  /** `s.EndsWith(suffix, StringComparison.OrdinalIgnoreCase)` for a suffix
      written in lower case, as the extensions the builder tests are. */
  predicate EndsInLowerCase(s: string, suffix: string) {
    IsSuffix(suffix, Lower(s))
  }

  /** The extension tests ignore case. */
  lemma ExtensionsIgnoreCase(s: string)
    ensures EndsInLowerCase(s, ".csproj") <==> EndsWithIgnoreCase(s, ".csproj")
    ensures EndsInLowerCase(s, ".cs") <==> EndsWithIgnoreCase(s, ".cs")
  {
    assert Lower(".csproj") == ".csproj";
    assert Lower(".cs") == ".cs";
  }

  predicate IsQuote(c: char) {
    c == '"'
  }

  /** `field.Trim().Trim('"')`: white space cut from both ends, then quotes. */
  function Unquoted(field: string): string {
    Trim(Trim(field, IsWhiteSpace), IsQuote)
  }

  /** The project path a solution line names: for a line starting with
      `Project(` that has a second comma-separated field, that field trimmed
      of white space and then of quotes, kept when it ends in `.csproj` in any
      case. */
  function ProjectPathOf(line: string): Option<string> {
    if !IsPrefix("Project(", line) then None
    else match SecondField(line)
      case None => None
      case Some(field) =>
        var projectPath := Unquoted(field);
        if EndsInLowerCase(projectPath, ".csproj") then Some(projectPath) else None
  }

  /** `line.Split(',')[1]`, when there is a second part. */
  function SecondField(line: string): Option<string> {
    var parts := Split(line, {','});
    if |parts| < 2 then None else Some(parts[1])
  }

  /** The project paths of a solution file, in line order. */
  function SolutionProjects(lines: seq<string>): seq<string> {
    Picked(lines, ProjectPathOf)
  }

  /** `ParseSolutionProjects`: the loop over the lines of a solution file. */
  method ParseSolutionProjects(lines: seq<string>) returns (projects: seq<string>)
    ensures projects == SolutionProjects(lines)
  {
    projects := [];
    for i := 0 to |lines|
      invariant projects == SolutionProjects(lines[..i])
    {
      var line := lines[i];
      assert lines[..i + 1][..i] == lines[..i];
      if IsPrefix("Project(", line) {
        var parts := Split(line, {','});
        if |parts| >= 2 {
          var projectPath := Unquoted(parts[1]);
          if EndsInLowerCase(projectPath, ".csproj") {
            projects := projects + [projectPath];
          }
        }
      }
    }
    assert lines[..|lines|] == lines;
  }

  /** A solution file lists at most one project per line, each named by one
      of its lines. */
  lemma SolutionProjectsFromLines(lines: seq<string>, p: string)
    ensures |SolutionProjects(lines)| <= |lines|
    ensures p in SolutionProjects(lines) <==> exists k :: 0 <= k < |lines| && ProjectPathOf(lines[k]) == Some(p)
  {
    PickedMembers(lines, ProjectPathOf);
  }

  /** A path read from a line comes from a `Project(` line, ends in `.csproj`
      in any case, holds no comma and is not wrapped in quotes. */
  lemma ProjectPathShape(line: string)
    requires ProjectPathOf(line).Some?
    ensures IsPrefix("Project(", line)
    ensures EndsWithIgnoreCase(ProjectPathOf(line).value, ".csproj")
    ensures ',' !in ProjectPathOf(line).value
    ensures ProjectPathOf(line).value == [] ||
            (!IsQuote(ProjectPathOf(line).value[0]) && !IsQuote(ProjectPathOf(line).value[|ProjectPathOf(line).value| - 1]))
  {
    var parts := Split(line, {','});
    SplitHasNoSeparator(line, {','});
    assert SecondField(line) == Some(parts[1]);
    assert forall i :: 0 <= i < |parts[1]| ==> parts[1][i] != ',';
    TrimKeepsAbsent(parts[1], ',');
    ExtensionsIgnoreCase(ProjectPathOf(line).value);
  }

  /** Trimming white space and then quotes cuts a slice: a character the field
      does not hold is not in the result, which neither starts nor ends with a
      quote. */
  lemma TrimKeepsAbsent(field: string, c: char)
    requires forall i :: 0 <= i < |field| ==> field[i] != c
    ensures c !in Unquoted(field)
    ensures Unquoted(field) == [] || (!IsQuote(Unquoted(field)[0]) && !IsQuote(Unquoted(field)[|Unquoted(field)| - 1]))
  {
    var inner := Trim(field, IsWhiteSpace);
    var p := Trim(inner, IsQuote);
    TrimSpec(field, IsWhiteSpace);
    TrimSpec(inner, IsQuote);
    var i :| TrimmedAt(field, inner, IsWhiteSpace, i);
    var j :| TrimmedAt(inner, p, IsQuote, j);
    forall k | 0 <= k < |p| ensures p[k] != c {
      assert p[k] == inner[j + k] == field[i + j + k];
    }
  }

  /** The line a solution file holds for a project,
      `Project(<head>, "<path>",<tail>)`, names that project's path, whatever
      the head (without commas) and the tail. */
  lemma SolutionLineNamesProject(head: string, path: string, tail: string)
    requires ',' !in head && ',' !in path
    requires path != [] && !IsQuote(path[0])
    requires EndsWithIgnoreCase(path, ".csproj") && !IsQuote(path[|path| - 1])
    ensures ProjectPathOf("Project(" + head + ", \"" + path + "\"," + tail) == Some(path)
  {
    ProjectLineFields(head, path, tail);
    QuotedFieldTrims(path);
    ExtensionsIgnoreCase(path);
    ProjectPathOfFields("Project(" + head + ", \"" + path + "\"," + tail, " \"" + path + "\"");
  }

  /** A project line starts with `Project(` and its second field is the
      quoted path after a space. */
  lemma ProjectLineFields(head: string, path: string, tail: string)
    requires ',' !in head && ',' !in path
    ensures IsPrefix("Project(", "Project(" + head + ", \"" + path + "\"," + tail)
    ensures SecondField("Project(" + head + ", \"" + path + "\"," + tail) == Some(" \"" + path + "\"")
  {
    var a := "Project(" + head;
    var b := " \"" + path + "\"";
    var line := "Project(" + head + ", \"" + path + "\"," + tail;
    assert line[..8] == "Project(";
    assert line == a + ([','] + (b + ([','] + tail)));
    SplitSecondField(a, b, tail);
  }

  /** The step of `ProjectPathOf` that keeps a path. */
  lemma ProjectPathOfFields(line: string, field: string)
    requires IsPrefix("Project(", line) && SecondField(line) == Some(field)
    requires EndsInLowerCase(Unquoted(field), ".csproj")
    ensures ProjectPathOf(line) == Some(Unquoted(field))
  {
  }

  /** A quoted field after a space trims to what the quotes hold. */
  lemma QuotedFieldTrims(path: string)
    requires path != [] && !IsQuote(path[0]) && !IsQuote(path[|path| - 1])
    ensures Unquoted(" \"" + path + "\"") == path
  {
    var b := " \"" + path + "\"";
    var c := ['"'] + path + ['"'];
    assert b[1..] == c;
    assert TrimStart(b, IsWhiteSpace) == c;
    assert TrimEnd(c, IsWhiteSpace) == c;
    assert c[1..] == path + ['"'];
    assert TrimStart(c, IsQuote) == path + ['"'];
    assert (path + ['"'])[..|path|] == path;
    assert TrimEnd(path + ['"'], IsQuote) == TrimEnd(path, IsQuote) == path;
  }

  /** The second comma-separated field of `a,b,tail` is `b` when `a` and `b`
      hold no comma. */
  lemma SplitSecondField(a: string, b: string, tail: string)
    requires ',' !in a && ',' !in b
    ensures SecondField(a + ([','] + (b + ([','] + tail)))) == Some(b)
  {
    var rest := [','] + (b + ([','] + tail));
    var ct := [','] + tail;
    SplitGluesPrefix(a, rest, {','});
    assert rest[1..] == b + ct;
    SplitGluesPrefix(b, ct, {','});
    assert ct[1..] == tail;
    assert Split(ct, {','})[0] == [];
    assert b + [] == b;
  }

  // ================================================================ the project file

  /** An XML element of a project file: its local name, its `Include`
      attribute if it has one, and its text value. */
  datatype Element = Element(localName: string, includeAttribute: Option<string>, value: string)

  /** What the parse of a project file yields. */
  datatype ProjectFile = ProjectFile(sourceFiles: seq<string>, references: seq<string>, defines: seq<string>)

  /** The defines added when the project file does not declare `UNITY_EDITOR`. */
  const DefaultDefines: seq<string> := ["UNITY_EDITOR", "UNITY_2022_3_OR_NEWER", "UNITY_6000_0_OR_NEWER"]

  /** The source file a `Compile` element declares: its non-empty `Include`
      value ending in `.cs` in any case. */
  function SourceFileOf(e: Element): Option<string> {
    if e.localName == "Compile" && e.includeAttribute.Some? && e.includeAttribute.value != [] && EndsInLowerCase(e.includeAttribute.value, ".cs")
    then Some(e.includeAttribute.value)
    else None
  }

  /** The reference a `HintPath` element declares: its non-empty text. */
  function ReferenceOf(e: Element): Option<string> {
    if e.localName == "HintPath" && e.value != [] then Some(e.value) else None
  }

  predicate IsDefineConstants(e: Element) {
    e.localName == "DefineConstants"
  }

  predicate IsNonEmpty(s: string) {
    s != []
  }

  /** The defines the first `DefineConstants` element declares: its text split
      at `;` with the empty entries removed; none when there is no such
      element or its text is empty. */
  function DeclaredDefines(elements: seq<Element>): seq<string> {
    var found := Filter(elements, IsDefineConstants);
    if found == [] || found[0].value == [] then []
    else Filter(Split(found[0].value, {';'}), IsNonEmpty)
  }

  /** The declared defines, with the default Unity defines appended when
      `UNITY_EDITOR` is not among them. */
  function WithDefaultDefines(defines: seq<string>): seq<string> {
    if "UNITY_EDITOR" in defines then defines else defines + DefaultDefines
  }

  /** The parse of a project file; a file that could not be loaded yields
      nothing at all. */
  function ProjectFileFor(document: Option<seq<Element>>): ProjectFile {
    match document
    case None => ProjectFile([], [], [])
    case Some(elements) =>
      ProjectFile(Picked(elements, SourceFileOf), Picked(elements, ReferenceOf),
                  WithDefaultDefines(DeclaredDefines(elements)))
  }

  /** `ParseCsprojFile`: fills the three lists from the elements of a loaded
      project file. */
  method ParseCsprojFile(document: Option<seq<Element>>)
    returns (sourceFiles: seq<string>, references: seq<string>, defines: seq<string>)
    ensures ProjectFile(sourceFiles, references, defines) == ProjectFileFor(document)
  {
    sourceFiles, references, defines := [], [], [];
    if document.Some? {
      var elements := document.value;
      sourceFiles := sourceFiles + Picked(elements, SourceFileOf);
      references := references + Picked(elements, ReferenceOf);
      var found := Filter(elements, IsDefineConstants);
      if found != [] && found[0].value != [] {
        defines := defines + Filter(Split(found[0].value, {';'}), IsNonEmpty);
      }
      if "UNITY_EDITOR" !in defines {
        defines := defines + DefaultDefines;
      }
      assert [] + Picked(elements, SourceFileOf) == Picked(elements, SourceFileOf);
      assert [] + Picked(elements, ReferenceOf) == Picked(elements, ReferenceOf);
    }
  }

  /** The source files are exactly the non-empty `Include` values of
      `Compile` elements that end in `.cs` in any case. */
  lemma SourceFileEntries(elements: seq<Element>, f: string)
    ensures f in ProjectFileFor(Some(elements)).sourceFiles <==>
      exists k :: && 0 <= k < |elements|
                  && elements[k].localName == "Compile"
                  && elements[k].includeAttribute == Some(f)
                  && f != []
                  && EndsWithIgnoreCase(f, ".cs")
  {
    PickedMembers(elements, SourceFileOf);
    ExtensionsIgnoreCase(f);
  }

  /** The references are exactly the non-empty texts of `HintPath` elements. */
  lemma ReferenceEntries(elements: seq<Element>, f: string)
    ensures f in ProjectFileFor(Some(elements)).references <==>
      exists k :: 0 <= k < |elements| && elements[k].localName == "HintPath" && elements[k].value == f && f != []
  {
    PickedMembers(elements, ReferenceOf);
  }

  /** A loaded project file always defines `UNITY_EDITOR`, no define is empty
      or holds a `;`, and a file that could not be loaded yields nothing. */
  lemma ParsedDefines(document: Option<seq<Element>>)
    ensures document.Some? ==> "UNITY_EDITOR" in ProjectFileFor(document).defines
    ensures forall d :: d in ProjectFileFor(document).defines ==> d != [] && ';' !in d
    ensures document.None? ==> ProjectFileFor(document) == ProjectFile([], [], [])
  {
    if document.Some? {
      DeclaredDefinesClean(document.value);
      DefaultDefinesClean();
    }
  }

  /** Declared defines are never empty and hold no `;`. */
  lemma DeclaredDefinesClean(elements: seq<Element>)
    ensures forall d :: d in DeclaredDefines(elements) ==> d != [] && ';' !in d
  {
    var found := Filter(elements, IsDefineConstants);
    if found != [] && found[0].value != [] {
      SplitHasNoSeparator(found[0].value, {';'});
      var parts := Split(found[0].value, {';'});
      forall d | d in Filter(parts, IsNonEmpty) ensures d != [] && ';' !in d {
        var k :| 0 <= k < |parts| && parts[k] == d;
        forall i | 0 <= i < |d| ensures d[i] != ';' {
          assert parts[k][i] !in {';'};
        }
      }
    }
  }

  lemma DefaultDefinesClean()
    ensures DefaultDefines[0] == "UNITY_EDITOR"
    ensures forall d :: d in DefaultDefines ==> d != [] && ';' !in d
  {
  }

  /** The defines of a project file come from its first `DefineConstants`
      element: when that element's text lists non-empty defines separated by
      `;`, the parse reads back exactly those, in order, and appends the
      defaults only when `UNITY_EDITOR` is not one of them. */
  lemma DefinesFromFirstDefineConstants(before: seq<Element>, e: Element, after: seq<Element>, declared: seq<string>)
    requires forall k :: 0 <= k < |before| ==> !IsDefineConstants(before[k])
    requires IsDefineConstants(e) && e.value == Join(declared, ';')
    requires forall k :: 0 <= k < |declared| ==> declared[k] != [] && ';' !in declared[k]
    ensures DeclaredDefines(before + [e] + after) == declared
    ensures ProjectFileFor(Some(before + [e] + after)).defines ==
            if "UNITY_EDITOR" in declared then declared else declared + DefaultDefines
  {
    FirstDefineConstants(before, e, after);
    JoinedDefinesSplit(declared);
  }

  /** The first `DefineConstants` element after elements of other names is
      the first one found. */
  lemma FirstDefineConstants(before: seq<Element>, e: Element, after: seq<Element>)
    requires forall k :: 0 <= k < |before| ==> !IsDefineConstants(before[k])
    requires IsDefineConstants(e)
    ensures Filter(before + [e] + after, IsDefineConstants) != []
    ensures Filter(before + [e] + after, IsDefineConstants)[0] == e
  {
    FilterAppend(before + [e], after, IsDefineConstants);
    FilterAppend(before, [e], IsDefineConstants);
    FilterNone(before, IsDefineConstants);
    assert Filter([e], IsDefineConstants) == [e] by {
      assert [e][..0] == [];
    }
  }

  /** Non-empty defines free of `;`, joined with `;`, split back into
      themselves once the empty entries are removed; none joins to an empty
      text. */
  lemma JoinedDefinesSplit(declared: seq<string>)
    requires forall k :: 0 <= k < |declared| ==> declared[k] != [] && ';' !in declared[k]
    ensures Join(declared, ';') == [] <==> declared == []
    ensures declared != [] ==> Filter(Split(Join(declared, ';'), {';'}), IsNonEmpty) == declared
  {
    if declared != [] {
      forall k, i | 0 <= k < |declared| && 0 <= i < |declared[k]| ensures declared[k][i] !in {';'} {
        assert declared[k][i] in declared[k];
      }
      SplitJoin(declared, ';', {';'});
      FilterAll(declared, IsNonEmpty);
      JoinNonEmpty(declared);
    }
  }

  /** Joining parts the first of which is non-empty gives a non-empty text. */
  lemma JoinNonEmpty(parts: seq<string>)
    requires |parts| >= 1 && parts[0] != []
    ensures Join(parts, ';') != []
  {
    if |parts| > 1 {
      assert Join(parts, ';') == parts[0] + [';'] + Join(parts[1..], ';');
    }
  }
}
