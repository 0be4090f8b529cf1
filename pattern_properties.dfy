/** What the Unity pattern rules promise about the issues they report: their
    shape, their severity, when nothing is reported, and how particular
    snippets of code are treated. */
module PatternProperties {
  import opened Wrappers
  import opened Seqs
  import opened Text
  import opened PatternAnalyzer

  // ---------------------------------------------------------------- shape of every issue

  /** A performance issue of the analysed file, under one of the four rule ids,
      always carrying advice. */
  predicate WellShaped(i: PatternIssue, filePath: string) {
    i.category == "Performance" && i.filePath == filePath && i.suggestion.Some?
    && (i.id == "ULSM0001" || i.id == "ULSM0002" || i.id == "ULSM0003" || i.id == "ULSM0004")
  }

  predicate AllWellShaped(issues: seq<PatternIssue>, filePath: string) {
    forall k :: 0 <= k < |issues| ==> WellShaped(issues[k], filePath)
  }

  /** The severity each rule gives: information for debug logging and for
      `Camera.main` outside a hot path, a warning for everything else. */
  predicate SeverityFits(i: PatternIssue, isHotPath: bool) {
    i.severity == (if i.id == "ULSM0003" || (i.id == "ULSM0004" && !isHotPath) then Info else Warning)
  }

  predicate AllSeveritiesFit(issues: seq<PatternIssue>, isHotPath: bool) {
    forall k :: 0 <= k < |issues| ==> SeverityFits(issues[k], isHotPath)
  }

  lemma AppendShaped(a: seq<PatternIssue>, b: seq<PatternIssue>, filePath: string, isHotPath: bool)
    requires AllWellShaped(a, filePath) && AllWellShaped(b, filePath)
    requires AllSeveritiesFit(a, isHotPath) && AllSeveritiesFit(b, isHotPath)
    ensures AllWellShaped(a + b, filePath) && AllSeveritiesFit(a + b, isHotPath)
  {
    forall k | 0 <= k < |a + b|
      ensures WellShaped((a + b)[k], filePath) && SeverityFits((a + b)[k], isHotPath)
    {
      if k >= |a| {
        assert (a + b)[k] == b[k - |a|];
      }
    }
  }

  /** Each rule of one method reports well-shaped issues of the right severity. */
  lemma MethodIssuesShaped(m: MethodDecl, filePath: string)
    ensures AllWellShaped(MethodIssues(m, filePath), filePath)
    ensures AllSeveritiesFit(MethodIssues(m, filePath), IsHotPath(m.name))
  {
    var hot := IsHotPath(m.name);
    var expensive := ExpensiveCallIssues(m.nodes, filePath);
    var concat := Map(Filter(m.nodes, IsLiteralConcat), ConcatIssue(filePath));
    var interp := Map(Filter(m.nodes, IsInterpolation), InterpolationIssue(filePath));
    var logging := DebugLogIssues(m.nodes, filePath);
    var camera := CameraMainIssues(m.nodes, filePath, hot);
    RuleIssuesShaped(m.nodes, filePath, hot);
    AppendShaped(concat, interp, filePath, hot);
    AppendShaped(expensive, concat + interp, filePath, hot);
    assert expensive + (concat + interp) == expensive + StringIssues(m.nodes, filePath);
    AppendShaped(expensive + StringIssues(m.nodes, filePath), logging, filePath, hot);
    var hotOnly := if hot then expensive + StringIssues(m.nodes, filePath) + logging else [];
    AppendShaped(hotOnly, camera, filePath, hot);
  }

  /** Each of the five rule passes reports well-shaped issues. */
  lemma RuleIssuesShaped(nodes: seq<Node>, filePath: string, hot: bool)
    ensures AllWellShaped(ExpensiveCallIssues(nodes, filePath), filePath)
    ensures AllSeveritiesFit(ExpensiveCallIssues(nodes, filePath), hot)
    ensures AllWellShaped(Map(Filter(nodes, IsLiteralConcat), ConcatIssue(filePath)), filePath)
    ensures AllSeveritiesFit(Map(Filter(nodes, IsLiteralConcat), ConcatIssue(filePath)), hot)
    ensures AllWellShaped(Map(Filter(nodes, IsInterpolation), InterpolationIssue(filePath)), filePath)
    ensures AllSeveritiesFit(Map(Filter(nodes, IsInterpolation), InterpolationIssue(filePath)), hot)
    ensures AllWellShaped(DebugLogIssues(nodes, filePath), filePath)
    ensures AllSeveritiesFit(DebugLogIssues(nodes, filePath), hot)
    ensures AllWellShaped(CameraMainIssues(nodes, filePath, hot), filePath)
    ensures AllSeveritiesFit(CameraMainIssues(nodes, filePath, hot), hot)
  {
    ExpensiveShaped(nodes, filePath, hot);
    StringsShaped(nodes, filePath, hot);
    LoggingShaped(nodes, filePath, hot);
    CameraShaped(nodes, filePath, hot);
  }

  lemma ExpensiveShaped(nodes: seq<Node>, filePath: string, hot: bool)
    ensures AllWellShaped(ExpensiveCallIssues(nodes, filePath), filePath)
    ensures AllSeveritiesFit(ExpensiveCallIssues(nodes, filePath), hot)
  {
  }

  lemma StringsShaped(nodes: seq<Node>, filePath: string, hot: bool)
    ensures AllWellShaped(Map(Filter(nodes, IsLiteralConcat), ConcatIssue(filePath)), filePath)
    ensures AllSeveritiesFit(Map(Filter(nodes, IsLiteralConcat), ConcatIssue(filePath)), hot)
    ensures AllWellShaped(Map(Filter(nodes, IsInterpolation), InterpolationIssue(filePath)), filePath)
    ensures AllSeveritiesFit(Map(Filter(nodes, IsInterpolation), InterpolationIssue(filePath)), hot)
  {
  }

  lemma LoggingShaped(nodes: seq<Node>, filePath: string, hot: bool)
    ensures AllWellShaped(DebugLogIssues(nodes, filePath), filePath)
    ensures AllSeveritiesFit(DebugLogIssues(nodes, filePath), hot)
  {
  }

  lemma CameraShaped(nodes: seq<Node>, filePath: string, hot: bool)
    ensures AllWellShaped(CameraMainIssues(nodes, filePath, hot), filePath)
    ensures AllSeveritiesFit(CameraMainIssues(nodes, filePath, hot), hot)
  {
  }

  lemma {:induction false} MethodsIssuesShaped(ms: seq<MethodDecl>, filePath: string)
    ensures AllWellShaped(MethodsIssues(ms, filePath), filePath)
  {
    if ms != [] {
      var last := ms[|ms| - 1];
      MethodsIssuesShaped(ms[..|ms| - 1], filePath);
      MethodIssuesShaped(last, filePath);
      var a := MethodsIssues(ms[..|ms| - 1], filePath);
      var b := MethodIssues(last, filePath);
      forall k | 0 <= k < |a + b| ensures WellShaped((a + b)[k], filePath) {
        if k >= |a| {
          assert (a + b)[k] == b[k - |a|];
        }
      }
    }
  }

  lemma {:induction false} ClassesIssuesShaped(cs: seq<ClassDecl>, filePath: string)
    ensures AllWellShaped(ClassesIssues(cs, filePath), filePath)
  {
    if cs != [] {
      var last := cs[|cs| - 1];
      ClassesIssuesShaped(cs[..|cs| - 1], filePath);
      MethodsIssuesShaped(DescendantMethods(last), filePath);
      var a := ClassesIssues(cs[..|cs| - 1], filePath);
      var b := ClassIssues(last, filePath);
      forall k | 0 <= k < |a + b| ensures WellShaped((a + b)[k], filePath) {
        if k >= |a| {
          assert (a + b)[k] == b[k - |a|];
        }
      }
    }
  }

  /** Every issue of a document is a performance issue of that document's
      reported path ("unknown" when it has none), under one of the four ids. */
  lemma DocumentIssuesShaped(doc: Document)
    ensures AllWellShaped(DocumentIssues(doc), ReportedPath(doc))
  {
    if doc.root.Some? {
      ClassesIssuesShaped(DescendantClasses(doc.root.value), ReportedPath(doc));
    }
  }

  // ---------------------------------------------------------------- when nothing is reported

  lemma {:induction false} ClassesWithoutComponentsReportNothing(cs: seq<ClassDecl>, filePath: string)
    requires forall k :: 0 <= k < |cs| ==> !IsComponent(cs[k])
    ensures ClassesIssues(cs, filePath) == []
  {
    if cs != [] {
      ClassesWithoutComponentsReportNothing(cs[..|cs| - 1], filePath);
    }
  }

  /** A document with no syntax root, or none of whose classes derives from
      `MonoBehaviour`, reports nothing. */
  lemma DocumentWithoutComponentsReportsNothing(doc: Document)
    requires doc.root.Some? ==>
               forall k :: 0 <= k < |DescendantClasses(doc.root.value)| ==> !IsComponent(DescendantClasses(doc.root.value)[k])
    ensures DocumentIssues(doc) == []
  {
    if doc.root.Some? {
      ClassesWithoutComponentsReportNothing(DescendantClasses(doc.root.value), ReportedPath(doc));
    }
  }

  /** A method that is not a hot path only reports its `Camera.main` uses, as
      information, one per use. */
  lemma ColdMethodReportsOnlyCameraMain(m: MethodDecl, filePath: string)
    requires !IsHotPath(m.name)
    ensures |MethodIssues(m, filePath)| == |Filter(m.nodes, IsCameraMain)|
    ensures forall k :: 0 <= k < |MethodIssues(m, filePath)| ==>
                          MethodIssues(m, filePath)[k].id == "ULSM0004" && MethodIssues(m, filePath)[k].severity == Info
  {
    var r := MethodIssues(m, filePath);
    assert r == [] + CameraMainIssues(m.nodes, filePath, false);
  }

  /** A hot method reports one issue per matching node of each rule. */
  lemma HotMethodIssueCount(m: MethodDecl, filePath: string)
    requires IsHotPath(m.name)
    ensures |MethodIssues(m, filePath)|
            == |Filter(m.nodes, IsExpensiveCall)| + |Filter(m.nodes, IsLiteralConcat)| + |Filter(m.nodes, IsInterpolation)|
               + |Filter(m.nodes, IsDebugLog)| + |Filter(m.nodes, IsCameraMain)|
  {
  }

  // ---------------------------------------------------------------- hot paths

  /** Hot-path membership ignores case: names equal up to case are both hot or
      both not. */
  lemma HotPathIgnoresCase(a: string, b: string)
    requires EqualsIgnoreCase(a, b)
    ensures IsHotPath(a) <==> IsHotPath(b)
  {
    if IsHotPath(a) {
      var i :| 0 <= i < |HotPathMethods| && EqualsIgnoreCase(HotPathMethods[i], a);
      assert EqualsIgnoreCase(HotPathMethods[i], b);
    }
    if IsHotPath(b) {
      var i :| 0 <= i < |HotPathMethods| && EqualsIgnoreCase(HotPathMethods[i], b);
      assert EqualsIgnoreCase(HotPathMethods[i], a);
    }
  }

  /** The only five-letter hot path is `OnGUI`, so any other five-letter name
      (such as `Start` or `Awake`) is not one. */
  lemma FiveLetterNameNotHot(name: string)
    requires |name| == 5 && ToLowerAscii(name[0]) != 'o'
    ensures !IsHotPath(name)
  {
    forall i | 0 <= i < |HotPathMethods| ensures Lower(HotPathMethods[i]) != Lower(name) {
      var h := HotPathMethods[i];
      if |h| == 5 {
        assert h == "OnGUI";
        assert Lower(h)[0] == ToLowerAscii(h[0]) == 'o';
        assert Lower(name)[0] == ToLowerAscii(name[0]);
      } else {
        assert |Lower(h)| != |Lower(name)|;
      }
    }
  }

  // ---------------------------------------------------------------- ULSM0001 on particular calls

  /** A call through a member access, such as `gameObject.GetComponent<T>()`,
      is reported with the advice of the table. */
  lemma MemberGetComponentIsReported(receiver: string, span: Span, filePath: string)
    ensures ExpensiveCallIssues([Invocation(MemberAccessCallee(receiver, "GetComponent"), span)], filePath)
            == [PatternIssue("ULSM0001", Warning, "Performance", filePath, span.line, span.column, span.text,
                             Some("Cache component references in Awake/Start instead of calling every frame"))]
  {
    var n := Invocation(MemberAccessCallee(receiver, "GetComponent"), span);
    assert IsExpensiveCall(n);
    assert [n][..0] == [];
  }

  /** A bare generic call such as `GetComponent<Rigidbody>()` is neither a
      member access nor a plain identifier, so it is not reported. */
  lemma BareGenericCallIsNotReported(text: string, span: Span, filePath: string)
    ensures ExpensiveCallIssues([Invocation(OtherCallee(text), span)], filePath) == []
  {
    assert [Invocation(OtherCallee(text), span)][..0] == [];
  }

  /** The expensive-method table compares names with case. */
  lemma LowerCaseNameIsNotReported(span: Span, filePath: string)
    ensures ExpensiveCallIssues([Invocation(IdentifierCallee("getComponent"), span)], filePath) == []
  {
    var n := Invocation(IdentifierCallee("getComponent"), span);
    assert "getComponent"[0] == 'g';
    assert !IsExpensiveCall(n);
    assert [n][..0] == [];
  }

  // ---------------------------------------------------------------- ULSM0004 severity

  const CameraMainUse: Node := MemberAccess("Camera", "main", Span(8, 24, "Camera.main"))

  /** `Camera.main` in `Awake` is information. */
  lemma CameraMainInAwakeIsInfo(filePath: string)
    ensures MethodIssues(MethodDecl("Awake", [CameraMainUse]), filePath)
            == [PatternIssue("ULSM0004", Info, "Performance", filePath, 8, 24, "Camera.main", Some(CameraMainSuggestion))]
  {
    assert [CameraMainUse][..0] == [];
    FiveLetterNameNotHot("Awake");
  }

  /** In a hot path every `Camera.main` access is a warning: a hot method made
      only of such accesses reports exactly one warning for each. */
  lemma CameraMainInHotPathIsWarning(m: MethodDecl, filePath: string)
    requires IsHotPath(m.name)
    requires forall k :: 0 <= k < |m.nodes| ==> IsCameraMain(m.nodes[k])
    ensures |MethodIssues(m, filePath)| == |m.nodes|
    ensures forall k :: 0 <= k < |m.nodes| ==>
                          MethodIssues(m, filePath)[k]
                          == PatternIssue("ULSM0004", Warning, "Performance", filePath, m.nodes[k].span.line,
                                          m.nodes[k].span.column, m.nodes[k].span.text, Some(CameraMainSuggestion))
  {
    FilterNone(m.nodes, IsExpensiveCall);
    FilterNone(m.nodes, IsLiteralConcat);
    FilterNone(m.nodes, IsInterpolation);
    FilterNone(m.nodes, IsDebugLog);
    FilterAll(m.nodes, IsCameraMain);
    assert MethodIssues(m, filePath) == [] + [] + [] + CameraMainIssues(m.nodes, filePath, true);
  }

  // ---------------------------------------------------------------- nested classes

  /** A method of a component nested in another component is analysed once for
      each of the two classes, so each of its issues is reported twice. */
  lemma NestedComponentReportedTwice(outer: ClassDecl, inner: ClassDecl, m: MethodDecl, filePath: string)
    requires IsComponent(outer) && IsComponent(inner)
    requires outer.members == [NestedClass(inner)] && inner.members == [MethodMember(m)]
    ensures DocumentIssues(Document(Some(filePath), Some([outer])))
            == MethodIssues(m, filePath) + MethodIssues(m, filePath)
  {
    assert MethodsFrom(inner, 1) == [];
    assert DescendantMethods(inner) == [m];
    assert MethodsFrom(outer, 1) == [];
    assert DescendantMethods(outer) == [m];
    assert [m][..0] == [];
    assert NestedClassesFrom(inner, 1) == [];
    assert NestedClassesFrom(inner, 0) == [];
    assert NestedClassesFrom(outer, 1) == [];
    assert NestedClassesFrom(outer, 0) == [inner];
    assert [outer][1..] == [];
    var classes := [outer, inner];
    assert DescendantClasses([outer]) == classes;
    assert classes[..1] == [outer] && classes[..1][..0] == [];
    var once := MethodIssues(m, filePath);
    assert MethodsIssues([m], filePath) == once;
    assert ClassIssues(outer, filePath) == once && ClassIssues(inner, filePath) == once;
    assert ClassesIssues(classes[..1], filePath) == once;
    assert ClassesIssues(classes, filePath) == once + once;
  }
}
