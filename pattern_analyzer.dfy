/** The Unity pattern rule engine (`UnityPatternAnalyzer`): finds the component
    classes of a document, classifies their methods as hot paths, and reports
    ULSM0001 (expensive call in a hot path), ULSM0002 (string concatenation or
    interpolation in a hot path), ULSM0003 (debug logging in a hot path) and
    ULSM0004 (`Camera.main`).

    The syntax tree is given abstractly: a document holds its class
    declarations, a class its base-type chain and its members, and a method its
    descendant nodes in document order. */
module PatternAnalyzer {
  import opened Wrappers
  import opened Seqs
  import opened Text

  // ---------------------------------------------------------------- syntax tree

  /** Line, column (both zero-based) and source text of a node. */
  datatype Span = Span(line: int, column: int, text: string)

  /** The expression an invocation calls: `a.M(…)` (the name is `M` even when it
      has type arguments), a bare `M(…)`, or any other shape, such as a bare
      generic name `M<T>(…)`. */
  datatype Callee =
    | MemberAccessCallee(receiver: string, name: string)
    | IdentifierCallee(name: string)
    | OtherCallee(text: string)

  /** A direct operand of a binary `+`: a string literal or anything else. */
  datatype Operand = StringLiteral | OtherOperand

  datatype Node =
    | Invocation(callee: Callee, span: Span)
    | Add(left: Operand, right: Operand, span: Span)
    | Interpolation(span: Span)
    | MemberAccess(receiver: string, name: string, span: Span)
    | OtherNode(span: Span)

  datatype MethodDecl = MethodDecl(name: string, nodes: seq<Node>)

  /** A type in a base-type chain, with its simple name and display string. */
  datatype BaseType = BaseType(name: string, display: string)

  /** The declared symbol of a class: its base type, that type's base type, and
      so on up the chain. */
  datatype TypeSymbol = TypeSymbol(baseChain: seq<BaseType>)

  /** A class declaration; `symbol` is `None` when the semantic model gives no symbol. */
  datatype ClassDecl = ClassDecl(name: string, symbol: Option<TypeSymbol>, members: seq<Member>)

  datatype Member = MethodMember(decl: MethodDecl) | NestedClass(cls: ClassDecl)

  /** A document: its path (if any) and the class declarations of its syntax
      root (`None` when there is no root). */
  datatype Document = Document(filePath: Option<string>, root: Option<seq<ClassDecl>>)

  // ---------------------------------------------------------------- issues

  datatype Severity = Error | Warning | Info

  /** A reported issue; title and description texts are not modelled. */
  datatype PatternIssue = PatternIssue(
    id: string,
    severity: Severity,
    category: string,
    filePath: string,
    line: int,
    column: int,
    codeSnippet: string,
    suggestion: Option<string>)

  // ---------------------------------------------------------------- tree walks

  /** The classes declared in `c` from member `i` on, each followed by the
      classes nested in it, in document order. */
  function NestedClassesFrom(c: ClassDecl, i: nat): seq<ClassDecl>
    requires i <= |c.members|
    decreases c, |c.members| - i
  {
    if i == |c.members| then []
    else
      (match c.members[i]
       case MethodMember(_) => []
       case NestedClass(n) => [n] + NestedClassesFrom(n, 0))
      + NestedClassesFrom(c, i + 1)
  }

  /** `root.DescendantNodes().OfType<ClassDeclarationSyntax>()`: every class of
      the document, each before the classes nested in it. */
  function DescendantClasses(top: seq<ClassDecl>): seq<ClassDecl>
  {
    if top == [] then [] else [top[0]] + NestedClassesFrom(top[0], 0) + DescendantClasses(top[1..])
  }

  /** The methods declared in `c` from member `i` on, including those of
      nested classes, in document order. */
  function MethodsFrom(c: ClassDecl, i: nat): seq<MethodDecl>
    requires i <= |c.members|
    decreases c, |c.members| - i
  {
    if i == |c.members| then []
    else
      (match c.members[i]
       case MethodMember(m) => [m]
       case NestedClass(n) => MethodsFrom(n, 0))
      + MethodsFrom(c, i + 1)
  }

  /** `classDecl.DescendantNodes().OfType<MethodDeclarationSyntax>()`. */
  function DescendantMethods(c: ClassDecl): seq<MethodDecl> {
    MethodsFrom(c, 0)
  }

  // ---------------------------------------------------------------- classification

  /** Unity message methods that run every frame or every physics step. */
  const HotPathMethods: seq<string> :=
    ["Update", "LateUpdate", "FixedUpdate", "OnGUI", "OnRenderObject", "OnDrawGizmos",
     "OnTriggerStay", "OnCollisionStay"]

  /** Membership in the hot-path set, which compares ignoring case. */
  predicate IsHotPath(name: string) {
    exists i :: 0 <= i < |HotPathMethods| && EqualsIgnoreCase(HotPathMethods[i], name)
  }

  /** The per-frame update method is a hot path whatever its case. */
  lemma UpdateIsHotPath()
    ensures IsHotPath("Update") && IsHotPath("update")
  {
    assert Lower("Update") == Lower("update");
    assert EqualsIgnoreCase(HotPathMethods[0], "update");
  }

  /** Start runs once, so it is not a hot path. */
  lemma StartIsNotHotPath()
    ensures !IsHotPath("Start")
  {
    var l := Lower("Start");
    assert l[0] == 's' && |l| == 5;
    forall i | 0 <= i < |HotPathMethods| ensures !EqualsIgnoreCase(HotPathMethods[i], "Start") {
      var h := HotPathMethods[i];
      if |h| == 5 {
        assert h == "OnGUI";
        assert Lower(h)[0] == 'o';
      }
    }
  }

  /** A base type that makes a class a Unity component. */
  predicate IsMonoBehaviour(t: BaseType) {
    t.name == "MonoBehaviour" || Contains(t.display, "UnityEngine.MonoBehaviour")
  }

  /** The class has a symbol and some type in its base chain (the class itself
      not included) is `MonoBehaviour`. */
  predicate IsComponent(c: ClassDecl) {
    c.symbol.Some?
    && exists k :: 0 <= k < |c.symbol.value.baseChain| && IsMonoBehaviour(c.symbol.value.baseChain[k])
  }

  /** `InheritsFromMonoBehaviour`: walks the base chain upwards from the base type. */
  method InheritsFromMonoBehaviour(c: ClassDecl) returns (r: bool)
    ensures r <==> IsComponent(c)
  {
    if c.symbol.None? {
      return false;
    }
    var chain := c.symbol.value.baseChain;
    var i := 0;
    while i < |chain|
      invariant 0 <= i <= |chain|
      invariant forall k :: 0 <= k < i ==> !IsMonoBehaviour(chain[k])
    {
      if chain[i].name == "MonoBehaviour" || Contains(chain[i].display, "UnityEngine.MonoBehaviour") {
        return true;
      }
      i := i + 1;
    }
    return false;
  }

  // ---------------------------------------------------------------- ULSM0001

  /** Methods that are expensive to call every frame, with the advice given for each. */
  const ExpensiveMethodPatterns: map<string, string> := map[
    "GetComponent" := "Cache component references in Awake/Start instead of calling every frame",
    "GetComponentInChildren" := "Cache component references in Awake/Start",
    "GetComponentInParent" := "Cache component references in Awake/Start",
    "GetComponents" := "Cache component array in Awake/Start",
    "FindObjectOfType" := "Use object references or singletons instead - extremely expensive",
    "FindObjectsOfType" := "Use object references or caching - extremely expensive",
    "FindGameObjectWithTag" := "Cache references in Awake/Start",
    "FindGameObjectsWithTag" := "Cache references or use object pooling",
    "Find" := "Use direct references or cached lookups instead of Find()",
    "SendMessage" := "Use direct method calls or events instead - uses reflection",
    "BroadcastMessage" := "Use direct method calls or events instead - uses reflection",
    "SendMessageUpwards" := "Use direct method calls or events instead - uses reflection"
  ]

  /** The called name, taken only from a member access or a bare identifier. */
  function CalleeName(c: Callee): Option<string> {
    match c
    case MemberAccessCallee(_, name) => Some(name)
    case IdentifierCallee(name) => Some(name)
    case OtherCallee(_) => None
  }

  /** An invocation whose called name is a key of the expensive-method table
      (compared with case). */
  predicate IsExpensiveCall(n: Node) {
    n.Invocation? && CalleeName(n.callee).Some? && CalleeName(n.callee).value in ExpensiveMethodPatterns
  }

  function ExpensiveSuggestion(n: Node): string {
    if IsExpensiveCall(n) then ExpensiveMethodPatterns[CalleeName(n.callee).value] else ""
  }

  function ExpensiveIssue(filePath: string): Node -> PatternIssue {
    (n: Node) => PatternIssue("ULSM0001", Warning, "Performance", filePath,
                              n.span.line, n.span.column, n.span.text, Some(ExpensiveSuggestion(n)))
  }

  /** One ULSM0001 issue per expensive invocation, in document order. */
  function ExpensiveCallIssues(nodes: seq<Node>, filePath: string): seq<PatternIssue> {
    Map(Filter(nodes, IsExpensiveCall), ExpensiveIssue(filePath))
  }

  /** One more node adds its issue at the end exactly when it is an expensive call. */
  lemma ExpensiveCallIssuesSnoc(nodes: seq<Node>, i: int, filePath: string)
    requires 0 <= i < |nodes|
    ensures ExpensiveCallIssues(nodes[..i + 1], filePath)
            == ExpensiveCallIssues(nodes[..i], filePath)
               + (if IsExpensiveCall(nodes[i]) then [ExpensiveIssue(filePath)(nodes[i])] else [])
  {
    FilterMapSnoc(nodes, i, IsExpensiveCall, ExpensiveIssue(filePath));
  }

  /** `CheckExpensiveCallsInHotPath`. */
  method CheckExpensiveCallsInHotPath(m: MethodDecl, filePath: string) returns (issues: seq<PatternIssue>)
    ensures issues == ExpensiveCallIssues(m.nodes, filePath)
  {
    issues := [];
    var i := 0;
    while i < |m.nodes|
      invariant 0 <= i <= |m.nodes|
      invariant issues == ExpensiveCallIssues(m.nodes[..i], filePath)
    {
      var node := m.nodes[i];
      ExpensiveCallIssuesSnoc(m.nodes, i, filePath);
      if node.Invocation? {
        var methodName := CalleeName(node.callee);
        if methodName.Some? && methodName.value in ExpensiveMethodPatterns {
          issues := issues + [ExpensiveIssue(filePath)(node)];
        }
      }
      i := i + 1;
    }
    assert m.nodes[..|m.nodes|] == m.nodes;
  }

  // ---------------------------------------------------------------- ULSM0002

  const ConcatSuggestion: string :=
    "Use StringBuilder, string.Format with cached values, or avoid string operations in Update"
  const InterpolationSuggestion: string := "Cache formatted strings or avoid string operations in Update"

  /** `ContainsStringLiteral`: the operand itself is a string literal. */
  predicate IsStringLiteral(e: Operand) {
    e.StringLiteral?
  }

  /** A `+` with a string literal as its immediate left or right operand. */
  predicate IsLiteralConcat(n: Node) {
    n.Add? && (IsStringLiteral(n.left) || IsStringLiteral(n.right))
  }

  predicate IsInterpolation(n: Node) {
    n.Interpolation?
  }

  function ConcatIssue(filePath: string): Node -> PatternIssue {
    (n: Node) => PatternIssue("ULSM0002", Warning, "Performance", filePath,
                              n.span.line, n.span.column, n.span.text, Some(ConcatSuggestion))
  }

  function InterpolationIssue(filePath: string): Node -> PatternIssue {
    (n: Node) => PatternIssue("ULSM0002", Warning, "Performance", filePath,
                              n.span.line, n.span.column, n.span.text, Some(InterpolationSuggestion))
  }

  /** All concatenation issues in document order, then all interpolation issues. */
  function StringIssues(nodes: seq<Node>, filePath: string): seq<PatternIssue> {
    Map(Filter(nodes, IsLiteralConcat), ConcatIssue(filePath))
    + Map(Filter(nodes, IsInterpolation), InterpolationIssue(filePath))
  }

  /** `CheckStringConcatenationInHotPath`: one pass for `+`, a second for interpolations. */
  method CheckStringConcatenationInHotPath(m: MethodDecl, filePath: string) returns (issues: seq<PatternIssue>)
    ensures issues == StringIssues(m.nodes, filePath)
  {
    var concatenations := ConcatenationPass(m, filePath);
    var interpolations := InterpolationPass(m, filePath);
    issues := concatenations + interpolations;
  }

  /** The first loop of `CheckStringConcatenationInHotPath`: every `+` with a literal operand. */
  method ConcatenationPass(m: MethodDecl, filePath: string) returns (issues: seq<PatternIssue>)
    ensures issues == Map(Filter(m.nodes, IsLiteralConcat), ConcatIssue(filePath))
  {
    issues := [];
    var i := 0;
    while i < |m.nodes|
      invariant 0 <= i <= |m.nodes|
      invariant issues == Map(Filter(m.nodes[..i], IsLiteralConcat), ConcatIssue(filePath))
    {
      var node := m.nodes[i];
      FilterMapSnoc(m.nodes, i, IsLiteralConcat, ConcatIssue(filePath));
      if IsLiteralConcat(node) {
        issues := issues + [ConcatIssue(filePath)(node)];
      }
      i := i + 1;
    }
    assert m.nodes[..|m.nodes|] == m.nodes;
  }

  /** The second loop of `CheckStringConcatenationInHotPath`: every interpolated string. */
  method InterpolationPass(m: MethodDecl, filePath: string) returns (issues: seq<PatternIssue>)
    ensures issues == Map(Filter(m.nodes, IsInterpolation), InterpolationIssue(filePath))
  {
    issues := [];
    var i := 0;
    while i < |m.nodes|
      invariant 0 <= i <= |m.nodes|
      invariant issues == Map(Filter(m.nodes[..i], IsInterpolation), InterpolationIssue(filePath))
    {
      var node := m.nodes[i];
      FilterMapSnoc(m.nodes, i, IsInterpolation, InterpolationIssue(filePath));
      if IsInterpolation(node) {
        issues := issues + [InterpolationIssue(filePath)(node)];
      }
      i := i + 1;
    }
    assert m.nodes[..|m.nodes|] == m.nodes;
  }

  // ---------------------------------------------------------------- ULSM0003

  const DebugLogSuggestion: string :=
    "Wrap in #if UNITY_EDITOR or [Conditional(\"UNITY_EDITOR\")] attribute, or remove for release"

  /** A call `Debug.Log(…)`, `Debug.LogWarning(…)` or `Debug.LogError(…)`, the
      receiver's text being exactly "Debug". */
  predicate IsDebugLog(n: Node) {
    n.Invocation? && n.callee.MemberAccessCallee? && n.callee.receiver == "Debug"
    && n.callee.name in {"Log", "LogWarning", "LogError"}
  }

  function DebugLogIssue(filePath: string): Node -> PatternIssue {
    (n: Node) => PatternIssue("ULSM0003", Info, "Performance", filePath,
                              n.span.line, n.span.column, n.span.text, Some(DebugLogSuggestion))
  }

  function DebugLogIssues(nodes: seq<Node>, filePath: string): seq<PatternIssue> {
    Map(Filter(nodes, IsDebugLog), DebugLogIssue(filePath))
  }

  /** `CheckBoxingInHotPath`. */
  method CheckBoxingInHotPath(m: MethodDecl, filePath: string) returns (issues: seq<PatternIssue>)
    ensures issues == DebugLogIssues(m.nodes, filePath)
  {
    issues := [];
    var i := 0;
    while i < |m.nodes|
      invariant 0 <= i <= |m.nodes|
      invariant issues == Map(Filter(m.nodes[..i], IsDebugLog), DebugLogIssue(filePath))
    {
      var node := m.nodes[i];
      FilterMapSnoc(m.nodes, i, IsDebugLog, DebugLogIssue(filePath));
      if node.Invocation? && node.callee.MemberAccessCallee? {
        var name := node.callee.name;
        if node.callee.receiver == "Debug" && (name == "Log" || name == "LogWarning" || name == "LogError") {
          issues := issues + [PatternIssue("ULSM0003", Info, "Performance", filePath,
                                           node.span.line, node.span.column, node.span.text,
                                           Some(DebugLogSuggestion))];
        }
      }
      i := i + 1;
    }
    assert m.nodes[..|m.nodes|] == m.nodes;
  }

  // ---------------------------------------------------------------- ULSM0004

  const CameraMainSuggestion: string :=
    "Cache Camera.main reference in Awake/Start: private Camera _mainCamera; void Awake() => _mainCamera = Camera.main;"

  /** A member access `Camera.main`, the receiver's text being exactly "Camera". */
  predicate IsCameraMain(n: Node) {
    n.MemberAccess? && n.receiver == "Camera" && n.name == "main"
  }

  function CameraMainIssue(filePath: string, isHotPath: bool): Node -> PatternIssue {
    (n: Node) => PatternIssue("ULSM0004", if isHotPath then Warning else Info, "Performance", filePath,
                              n.span.line, n.span.column, n.span.text, Some(CameraMainSuggestion))
  }

  function CameraMainIssues(nodes: seq<Node>, filePath: string, isHotPath: bool): seq<PatternIssue> {
    Map(Filter(nodes, IsCameraMain), CameraMainIssue(filePath, isHotPath))
  }

  /** `CheckCameraMainUsage`: a warning in a hot path, otherwise information. */
  method CheckCameraMainUsage(m: MethodDecl, filePath: string, isHotPath: bool) returns (issues: seq<PatternIssue>)
    ensures issues == CameraMainIssues(m.nodes, filePath, isHotPath)
  {
    issues := [];
    var i := 0;
    while i < |m.nodes|
      invariant 0 <= i <= |m.nodes|
      invariant issues == Map(Filter(m.nodes[..i], IsCameraMain), CameraMainIssue(filePath, isHotPath))
    {
      var node := m.nodes[i];
      FilterMapSnoc(m.nodes, i, IsCameraMain, CameraMainIssue(filePath, isHotPath));
      if node.MemberAccess? && node.receiver == "Camera" && node.name == "main" {
        issues := issues + [PatternIssue("ULSM0004", if isHotPath then Warning else Info, "Performance",
                                         filePath, node.span.line, node.span.column, node.span.text,
                                         Some(CameraMainSuggestion))];
      }
      i := i + 1;
    }
    assert m.nodes[..|m.nodes|] == m.nodes;
  }

  // ---------------------------------------------------------------- whole document

  /** The issues of one method of a component class. */
  function MethodIssues(m: MethodDecl, filePath: string): seq<PatternIssue> {
    var hot := IsHotPath(m.name);
    (if hot
     then ExpensiveCallIssues(m.nodes, filePath) + StringIssues(m.nodes, filePath)
          + DebugLogIssues(m.nodes, filePath)
     else [])
    + CameraMainIssues(m.nodes, filePath, hot)
  }

  function MethodsIssues(ms: seq<MethodDecl>, filePath: string): seq<PatternIssue> {
    if ms == [] then [] else MethodsIssues(ms[..|ms| - 1], filePath) + MethodIssues(ms[|ms| - 1], filePath)
  }

  /** A component class reports the issues of all its descendant methods; any
      other class reports nothing. */
  function ClassIssues(c: ClassDecl, filePath: string): seq<PatternIssue> {
    if IsComponent(c) then MethodsIssues(DescendantMethods(c), filePath) else []
  }

  function ClassesIssues(cs: seq<ClassDecl>, filePath: string): seq<PatternIssue> {
    if cs == [] then [] else ClassesIssues(cs[..|cs| - 1], filePath) + ClassIssues(cs[|cs| - 1], filePath)
  }

  /** The path reported for a document without one. */
  function ReportedPath(doc: Document): string {
    doc.filePath.GetOr("unknown")
  }

  /** What `AnalyzeDocumentAsync` reports for a document. */
  function DocumentIssues(doc: Document): seq<PatternIssue> {
    match doc.root
    case None => []
    case Some(top) => ClassesIssues(DescendantClasses(top), ReportedPath(doc))
  }

  /** The body of the inner loop of `AnalyzeDocumentAsync`: the hot-path checks
      for a hot method, then the `Camera.main` check for every method. */
  method AnalyzeMethod(m: MethodDecl, filePath: string) returns (issues: seq<PatternIssue>)
    ensures issues == MethodIssues(m, filePath)
  {
    var isHotPath := IsHotPath(m.name);
    issues := [];
    if isHotPath {
      var expensive := CheckExpensiveCallsInHotPath(m, filePath);
      var strings := CheckStringConcatenationInHotPath(m, filePath);
      var logging := CheckBoxingInHotPath(m, filePath);
      issues := expensive + strings + logging;
    }
    var cameraMain := CheckCameraMainUsage(m, filePath, isHotPath);
    issues := issues + cameraMain;
  }

  /** The body of the outer loop of `AnalyzeDocumentAsync`: nothing for a
      class that is not a component, otherwise every method it contains. */
  method AnalyzeClass(classDecl: ClassDecl, filePath: string) returns (issues: seq<PatternIssue>)
    ensures issues == ClassIssues(classDecl, filePath)
  {
    issues := [];
    var isComponent := InheritsFromMonoBehaviour(classDecl);
    if !isComponent {
      return;
    }
    var methods := DescendantMethods(classDecl);
    var j := 0;
    while j < |methods|
      invariant 0 <= j <= |methods|
      invariant issues == MethodsIssues(methods[..j], filePath)
    {
      assert methods[..j + 1][..j] == methods[..j];
      assert MethodsIssues(methods[..j + 1], filePath)
             == MethodsIssues(methods[..j], filePath) + MethodIssues(methods[j], filePath);
      var methodIssues := AnalyzeMethod(methods[j], filePath);
      issues := issues + methodIssues;
      j := j + 1;
    }
    assert methods[..|methods|] == methods;
  }

  /** `AnalyzeDocumentAsync`: nothing without a syntax root; otherwise every
      class of the document in document order. */
  method AnalyzeDocument(doc: Document) returns (issues: seq<PatternIssue>)
    ensures issues == DocumentIssues(doc)
  {
    issues := [];
    if doc.root.None? {
      return;
    }
    var filePath := if doc.filePath.Some? then doc.filePath.value else "unknown";
    issues := AnalyzeClasses(DescendantClasses(doc.root.value), filePath);
  }

  /** The class loop of `AnalyzeDocumentAsync`. */
  method AnalyzeClasses(classes: seq<ClassDecl>, filePath: string) returns (issues: seq<PatternIssue>)
    ensures issues == ClassesIssues(classes, filePath)
  {
    issues := [];
    var i := 0;
    while i < |classes|
      invariant 0 <= i <= |classes|
      invariant issues == ClassesIssues(classes[..i], filePath)
    {
      assert classes[..i + 1][..i] == classes[..i];
      assert ClassesIssues(classes[..i + 1], filePath)
             == ClassesIssues(classes[..i], filePath) + ClassIssues(classes[i], filePath);
      var classIssues := AnalyzeClass(classes[i], filePath);
      issues := issues + classIssues;
      i := i + 1;
    }
    assert classes[..|classes|] == classes;
  }
}
