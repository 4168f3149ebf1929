/** The instantiation detector and rewriter of the batch action, as functions:
    a pre-order walk over a method body that rewrites qualifying local-variable
    initializers and assignment right-hand sides into placeholder literals, the
    rewrite of `@Mock` fields, and the rows each rewrite contributes to the
    instantiation sheet. The class in ModifyAllTestFiles runs the same steps
    imperatively and is proved against these functions. */
module Instantiation {
  import opened Syntax
  import opened Strings
  import opened TypeClassifier
  import opened Placeholder
  import opened MockitoPruner
  import opened Seqs

  /** One row of the instantiation sheet: test suite (the file name), test case
      (the method name, or CLASS_LEVEL for a field), class name, and whether the
      instance was a mock, as the text "true" or "false". */
  datatype Row = Row(testSuite: string, testCase: string, className: string, mocked: string)

  const Header := Row("Test Suite", "Test Case", "Class Name", "Mocked")
  const ClassLevel := "CLASS_LEVEL"

  /** Java's `String.valueOf(boolean)`. */
  function BoolText(b: bool): string
  {
    if b then "true" else "false"
  }

  /** What a rewriting step produced, together with the rows it recorded. */
  datatype Out<T> = Out(value: T, rows: seq<Row>)

  /** A row recorded for a rewrite in the given file and method: it names a
      type outside the allow-list and says "true" or "false". */
  predicate IsDataRow(allowList: seq<string>, r: Row, fileName: string, testCase: string)
  {
    r.testSuite == fileName && r.testCase == testCase && !IsBasicName(allowList, r.className) &&
    (r.mocked == "true" || r.mocked == "false")
  }

  predicate AllDataRows(allowList: seq<string>, rows: seq<Row>, fileName: string, testCase: string)
  {
    forall i :: 0 <= i < |rows| ==> IsDataRow(allowList, rows[i], fileName, testCase)
  }

  /** A row of the sheet recorded for the file, in any method or at class level. */
  predicate IsFileRow(allowList: seq<string>, r: Row, fileName: string)
  {
    r.testSuite == fileName && !IsBasicName(allowList, r.className) && (r.mocked == "true" || r.mocked == "false")
  }

  predicate AllFileRows(allowList: seq<string>, rows: seq<Row>, fileName: string)
  {
    forall i :: 0 <= i < |rows| ==> IsFileRow(allowList, rows[i], fileName)
  }

  /** `mock(...)` or `Mockito.mock(...)`: the name is "mock" and the qualifier,
      if any, reads exactly "Mockito". */
  predicate IsMockedMethodCall(call: Node)
    requires call.Call?
  {
    call.name == "mock" && (call.qualifier.None? || Text(call.qualifier.value) == "Mockito")
  }

  /** The local-variable path's mock test on the initializer's source text. */
  predicate IsMockFactoryText(text: string)
  {
    StartsWith(text, "Mockito.mock(") || StartsWith(text, "mock(")
  }

  /** A detected instantiation on the right of an assignment. */
  datatype Site = Site(className: string, mocked: bool)

  /** A `new` expression with a class reference gives its qualified class name;
      a mock-factory call with exactly one argument that is a class literal
      gives the literal's canonical type text; nothing else is a site. */
  function InstantiationSite(e: Node): (s: Option<Site>)
    ensures s.Some? && !s.value.mocked <==> e.New? && e.classRef.Some?
    ensures s.Some? && s.value.mocked <==>
              e.Call? && IsMockedMethodCall(e) && |e.args| == 1 && e.args[0].ClassLit?
    ensures e.New? && e.classRef.Some? ==> s == Some(Site(e.classRef.value, false))
    ensures e.Call? && IsMockedMethodCall(e) && |e.args| == 1 && e.args[0].ClassLit? ==>
              s == Some(Site(e.args[0].operand.canonical, true))
  {
    match e
    case New(_, Some(c), _) => Some(Site(c, false))
    case Call(_, _, _, xs) =>
      if IsMockedMethodCall(e) && |xs| == 1 && xs[0].ClassLit?
      then Some(Site(xs[0].operand.canonical, true))
      else None
    case _ => None
  }

  /** The mock factory is recognised only as `mock(X.class)` or
      `Mockito.mock(X.class)`: a call under any other name, or qualified by
      any other text (`org.mockito.Mockito.mock(X.class)` included), is not
      an instantiation site. */
  lemma MockCallForms(text: string, q: Node, name: string, litText: string, x: JType, args: seq<Node>)
    ensures InstantiationSite(Call(text, None, "mock", [ClassLit(litText, x)])) == Some(Site(x.canonical, true))
    ensures Text(q) == "Mockito" ==>
              InstantiationSite(Call(text, Some(q), "mock", [ClassLit(litText, x)])) == Some(Site(x.canonical, true))
    ensures Text(q) != "Mockito" ==> InstantiationSite(Call(text, Some(q), "mock", args)) == None
    ensures name != "mock" ==> InstantiationSite(Call(text, None, name, args)) == None &&
                               InstantiationSite(Call(text, Some(q), name, args)) == None
  {
  }

  /** Records the site and then tries the replacement: the row comes first, so
      a replacement that fails (the placeholder does not parse, or the element
      was already deleted from the tree) still leaves its row. */
  function RecordAndReplace(allowList: seq<string>, e: Node, fileName: string, methodName: string, className: string,
                            isMocked: bool, attached: bool): (w: Out<Node>)
    ensures w.rows == [] <==> IsBasicName(allowList, className)
    ensures w.rows != [] ==> w.rows == [Row(fileName, methodName, className, BoolText(isMocked))]
    ensures w.value == e || (w.rows != [] && w.value == StrLit(InstantiateBody(className)))
    ensures attached && w.rows != [] && LexesAsLiteralBody(InstantiateBody(className)) ==>
              w.value == StrLit(InstantiateBody(className))
    ensures !(attached && w.rows != [] && LexesAsLiteralBody(InstantiateBody(className))) ==> w.value == e
  {
    ClassNameClassification(allowList, className);
    if IsBasicType(allowList, Some(TypeByName(className))) then Out(e, [])
    else
      var row := Row(fileName, methodName, className, BoolText(isMocked));
      var body := InstantiateBody(className);
      if attached && LexesAsLiteralBody(body) then Out(StrLit(body), [row]) else Out(e, [row])
  }

  function HandleInstantiation(allowList: seq<string>, e: Node, fileName: string, methodName: string, attached: bool): (w: Out<Node>)
    ensures Size(w.value) <= Size(e)
    ensures w.rows == [] ==> w.value == e
    ensures !attached ==> w.value == e
    ensures var s := InstantiationSite(e);
            s.Some? && attached && !IsBasicName(allowList, s.value.className) &&
            LexesAsLiteralBody(InstantiateBody(s.value.className)) ==>
              w.value == StrLit(InstantiateBody(s.value.className))
    ensures w.value != e ==> InstantiationSite(e).Some? && w.value == StrLit(InstantiateBody(InstantiationSite(e).value.className))
  {
    match InstantiationSite(e)
    case None => Out(e, [])
    case Some(s) => RecordAndReplace(allowList, e, fileName, methodName, s.className, s.mocked, attached)
  }

  /** The local-variable step. A variable already deleted from the tree, one
      without initializer and one of a basic type are left alone and recorded
      nowhere. Otherwise one row names the canonical type text and says whether
      the initializer's text starts like a mock-factory call, and the
      initializer becomes a placeholder built from the cleaned-up presentable
      type text; the type and the name of the variable stay. */
  function LocalStep(allowList: seq<string>, v: Node, fileName: string, methodName: string, attached: bool): (w: Out<Node>)
    requires v.Local?
    ensures w.value.Local? && w.value.ty == v.ty && w.value.name == v.name
    ensures w.rows != [] <==> attached && v.init.Some? && !IsBasicType(allowList, Some(v.ty))
    ensures !attached ==> w.value == v
    ensures w.rows != [] ==>
              w.rows == [Row(fileName, methodName, v.ty.canonical, BoolText(IsMockFactoryText(Text(v.init.value))))] &&
              w.value.init == Some(StrLit(InstantiateBody(SanitizedTypeText(v.ty.presentable))))
    ensures w.rows == [] ==> w.value == v
    ensures Size(w.value) <= Size(v)
  {
    if !attached || v.init.None? || IsBasicType(allowList, Some(v.ty)) then Out(v, [])
    else
      var row := Row(fileName, methodName, v.ty.canonical, BoolText(IsMockFactoryText(Text(v.init.value))));
      var body := InstantiateBody(SanitizedTypeText(v.ty.presentable));
      SanitizedPlaceholderLexes(v.ty.presentable);
      assert SizeOpt(Some(StrLit(body))) <= SizeOpt(v.init);
      if LexesAsLiteralBody(body) then Out(Local(v.ty, v.name, Some(StrLit(body))), [row])
      else Out(v, [row])
  }

  /** One declared element: a local variable goes through the local-variable
      step, anything else is kept and records nothing. */
  function DeclaredStep(allowList: seq<string>, x: Node, fileName: string, methodName: string, attached: bool): (w: Out<Node>)
    ensures Size(w.value) <= Size(x)
    ensures w.rows == [] ==> w.value == x
    ensures !attached ==> w.value == x
    ensures !x.Local? ==> w == Out(x, [])
  {
    if x.Local? then LocalStep(allowList, x, fileName, methodName, attached) else Out(x, [])
  }

  /** The declared elements of one declaration statement, each local variable
      taken through the local-variable step in order. */
  function LocalsStep(allowList: seq<string>, es: seq<Node>, fileName: string, methodName: string, attached: bool): (w: Out<seq<Node>>)
    ensures |w.value| == |es|
    ensures SizeSeq(w.value) <= SizeSeq(es)
    ensures w.rows == [] ==> w.value == es
    ensures !attached ==> w.value == es
  {
    if es == [] then Out([], [])
    else
      var front := LocalsStep(allowList, es[..|es| - 1], fileName, methodName, attached);
      var x := es[|es| - 1];
      var last := DeclaredStep(allowList, x, fileName, methodName, attached);
      var r := Out(front.value + [last.value], front.rows + last.rows);
      AppendLast(front.value, last.value);
      SplitLast(es);
      r
  }

  /** What the walk does at one element before it descends: a declaration
      statement has its local variables processed, an assignment with a right
      side has that side examined; anything else is passed by. */
  function Step(allowList: seq<string>, n: Node, fileName: string, methodName: string, attached: bool): (w: Out<Node>)
    ensures Size(w.value) <= Size(n)
    ensures w.rows == [] ==> w.value == n
    ensures !attached ==> w.value == n
  {
    match n
    case Decl(es) =>
      var s := LocalsStep(allowList, es, fileName, methodName, attached);
      Out(Decl(s.value), s.rows)
    case Assign(t, l, Some(r)) =>
      var h := HandleInstantiation(allowList, r, fileName, methodName, attached);
      Out(Assign(t, l, Some(h.value)), h.rows)
    case _ => Out(n, [])
  }

  /** The pre-order walk: the element's own step, then every child of the
      element as the step left it, in order. */
  function Process(allowList: seq<string>, n: Node, fileName: string, methodName: string, attached: bool): (w: Out<Node>)
    decreases Size(n), 0
  {
    var s := Step(allowList, n, fileName, methodName, attached);
    ChildrenSize(s.value);
    var k := ProcessSeq(allowList, Children(s.value), fileName, methodName, attached);
    Out(WithChildren(s.value, k.value), s.rows + k.rows)
  }

  function ProcessSeq(allowList: seq<string>, cs: seq<Node>, fileName: string, methodName: string, attached: bool): (w: Out<seq<Node>>)
    ensures |w.value| == |cs|
    decreases SizeSeq(cs), 1
  {
    if cs == [] then Out([], [])
    else
      var front := ProcessSeq(allowList, cs[..|cs| - 1], fileName, methodName, attached);
      var last := Process(allowList, cs[|cs| - 1], fileName, methodName, attached);
      SplitLast(cs);
      Out(front.value + [last.value], front.rows + last.rows)
  }

  /** A method body as the batch action treats it, child by child: first the
      pruner runs on the child, then the walk. A child the pruner deleted is
      still walked, detached from the tree, so only its rows remain. */
  function MethodBodyStep(allowList: seq<string>, body: seq<Node>, fileName: string, methodName: string): (w: Out<seq<Node>>)
    ensures |w.value| == |body| - CountDoomed(body)
  {
    if body == [] then Out([], [])
    else
      var front := MethodBodyStep(allowList, body[..|body| - 1], fileName, methodName);
      var c := body[|body| - 1];
      if Doomed(c) then
        Out(front.value, front.rows + Process(allowList, c, fileName, methodName, false).rows)
      else
        var w := Process(allowList, Prune(c), fileName, methodName, true);
        Out(front.value + [w.value], front.rows + w.rows)
  }

  predicate HasMockAnnotation(f: Field)
  {
    "org.mockito.Mock" in f.annotations
  }

  /** The `@Mock` field rewrite: a field of a basic type is left alone;
      otherwise the whole field is rebuilt from its canonical type text and
      name with the placeholder as initializer (annotations and modifiers are
      gone), and the CLASS_LEVEL row is recorded only once that succeeded. */
  function ReplaceMockField(allowList: seq<string>, f: Field, fileName: string): (w: Out<Field>)
    ensures HasMockAnnotation(f) ==> (w.rows != [] <==> w.value != f)
    ensures w.rows != [] <==> !IsBasicType(allowList, Some(f.ty)) && LexesAsLiteralBody(InstantiateBody(f.ty.canonical))
    ensures w.rows != [] ==>
              w.rows == [Row(fileName, ClassLevel, f.ty.canonical, "true")] &&
              w.value == Field([], [], f.ty, f.name, Some(StrLit(InstantiateBody(f.ty.canonical))))
    ensures w.rows == [] ==> w.value == f
  {
    if IsBasicType(allowList, Some(f.ty)) then Out(f, [])
    else
      var body := InstantiateBody(f.ty.canonical);
      if LexesAsLiteralBody(body)
      then Out(Field([], [], f.ty, f.name, Some(StrLit(body))), [Row(fileName, ClassLevel, f.ty.canonical, "true")])
      else Out(f, [])
  }

  /** Every field carrying `@Mock`, in declaration order. */
  function MockFieldsStep(allowList: seq<string>, fields: seq<Field>, fileName: string): (w: Out<seq<Field>>)
    ensures |w.value| == |fields|
  {
    if fields == [] then Out([], [])
    else
      var front := MockFieldsStep(allowList, fields[..|fields| - 1], fileName);
      var f := fields[|fields| - 1];
      var last := if HasMockAnnotation(f) then ReplaceMockField(allowList, f, fileName) else Out(f, []);
      Out(front.value + [last.value], front.rows + last.rows)
  }

  /** Every method with a body, in declaration order. */
  function MethodsStep(allowList: seq<string>, methods: seq<Method>, fileName: string): (w: Out<seq<Method>>)
    ensures |w.value| == |methods|
  {
    if methods == [] then Out([], [])
    else
      var front := MethodsStep(allowList, methods[..|methods| - 1], fileName);
      var m := methods[|methods| - 1];
      var last :=
        if m.body.None? then Out(m, [])
        else
          var b := MethodBodyStep(allowList, m.body.value, fileName, m.name);
          Out(Method(m.name, m.annotations, Some(b.value)), b.rows);
      Out(front.value + [last.value], front.rows + last.rows)
  }

  /** A class: its `@Mock` fields first, then its methods. */
  function ClassStep(allowList: seq<string>, c: Class, fileName: string): (w: Out<Class>)
    ensures RewrittenClass(allowList, c, w.value, fileName)
  {
    MockFieldsStepPointwise(allowList, c.fields, fileName);
    MethodsStepPointwise(allowList, c.methods, fileName);
    var f := MockFieldsStep(allowList, c.fields, fileName);
    var m := MethodsStep(allowList, c.methods, fileName);
    Out(Class(c.name, f.value, m.value), f.rows + m.rows)
  }

  function ClassesStep(allowList: seq<string>, cs: seq<Class>, fileName: string): (w: Out<seq<Class>>)
    ensures |w.value| == |cs|
  {
    if cs == [] then Out([], [])
    else
      var front := ClassesStep(allowList, cs[..|cs| - 1], fileName);
      var last := ClassStep(allowList, cs[|cs| - 1], fileName);
      Out(front.value + [last.value], front.rows + last.rows)
  }

  /** The rewrite of one test file's copy: when the copy does not parse as a
      Java file the original text comes back and nothing is recorded. */
  function ModifiedContent(allowList: seq<string>, fileName: string, original: string, reparsed: Option<JavaFile>): (w: Out<Content>)
    ensures reparsed.None? ==> w == Out(Original(original), [])
    ensures reparsed.Some? ==> w.value.Rewritten? && |w.value.file.classes| == |reparsed.value.classes|
    ensures reparsed.Some? ==>
              forall i :: 0 <= i < |reparsed.value.classes| ==>
                w.value.file.classes[i] == ClassStep(allowList, reparsed.value.classes[i], fileName).value
  {
    if reparsed.None? then Out(Original(original), [])
    else
      ClassesStepPointwise(allowList, reparsed.value.classes, fileName);
      var c := ClassesStep(allowList, reparsed.value.classes, fileName);
      Out(Rewritten(JavaFile(c.value)), c.rows)
  }

  // What the walk promises.

  /** A walk over an element that is no longer in the tree changes nothing,
      and neither does a walk that records nothing. */
  lemma {:induction false} ProcessKeepsTree(allowList: seq<string>, n: Node, fileName: string, methodName: string, attached: bool)
    ensures var w := Process(allowList, n, fileName, methodName, attached);
            (!attached ==> w.value == n) && (w.rows == [] ==> w.value == n)
    decreases Size(n), 0
  {
    var s := Step(allowList, n, fileName, methodName, attached);
    ChildrenSize(s.value);
    var k := ProcessSeq(allowList, Children(s.value), fileName, methodName, attached);
    ProcessSeqKeepsTrees(allowList, Children(s.value), fileName, methodName, attached);
    WithOwnChildren(n);
    if s.rows + k.rows == [] {
      assert s.rows == [] && k.rows == [];
    }
  }

  lemma {:induction false} ProcessSeqKeepsTrees(allowList: seq<string>, cs: seq<Node>, fileName: string, methodName: string, attached: bool)
    ensures var w := ProcessSeq(allowList, cs, fileName, methodName, attached);
            (!attached ==> w.value == cs) && (w.rows == [] ==> w.value == cs)
    decreases SizeSeq(cs), 1
  {
    if cs != [] {
      var front := cs[..|cs| - 1];
      var last := cs[|cs| - 1];
      ProcessSeqKeepsTrees(allowList, front, fileName, methodName, attached);
      ProcessKeepsTree(allowList, last, fileName, methodName, attached);
      var f := ProcessSeq(allowList, front, fileName, methodName, attached);
      var l := Process(allowList, last, fileName, methodName, attached);
      SplitLast(cs);
      assert ProcessSeq(allowList, cs, fileName, methodName, attached) == Out(f.value + [l.value], f.rows + l.rows);
      if f.rows + l.rows == [] {
        assert f.rows == [] && l.rows == [];
      }
    }
  }

  lemma {:induction false} LocalsStepRows(allowList: seq<string>, es: seq<Node>, fileName: string, methodName: string, attached: bool)
    ensures AllDataRows(allowList, LocalsStep(allowList, es, fileName, methodName, attached).rows, fileName, methodName)
  {
    if es != [] {
      LocalsStepRows(allowList, es[..|es| - 1], fileName, methodName, attached);
    }
  }

  lemma StepRows(allowList: seq<string>, n: Node, fileName: string, methodName: string, attached: bool)
    ensures AllDataRows(allowList, Step(allowList, n, fileName, methodName, attached).rows, fileName, methodName)
  {
    if n.Decl? {
      LocalsStepRows(allowList, n.elems, fileName, methodName, attached);
    }
  }

  /** Every row a walk records belongs to its file and method, names a type
      outside the allow-list, and says "true" or "false". */
  lemma {:induction false} ProcessRows(allowList: seq<string>, n: Node, fileName: string, methodName: string, attached: bool)
    ensures AllDataRows(allowList, Process(allowList, n, fileName, methodName, attached).rows, fileName, methodName)
    decreases Size(n), 0
  {
    var s := Step(allowList, n, fileName, methodName, attached);
    ChildrenSize(s.value);
    StepRows(allowList, n, fileName, methodName, attached);
    ProcessSeqRows(allowList, Children(s.value), fileName, methodName, attached);
  }

  lemma {:induction false} ProcessSeqRows(allowList: seq<string>, cs: seq<Node>, fileName: string, methodName: string, attached: bool)
    ensures AllDataRows(allowList, ProcessSeq(allowList, cs, fileName, methodName, attached).rows, fileName, methodName)
    decreases SizeSeq(cs), 1
  {
    if cs != [] {
      ProcessSeqRows(allowList, cs[..|cs| - 1], fileName, methodName, attached);
      ProcessRows(allowList, cs[|cs| - 1], fileName, methodName, attached);
    }
  }

  /** The same for a whole method body, deleted statements included. */
  lemma {:induction false} MethodBodyRows(allowList: seq<string>, body: seq<Node>, fileName: string, methodName: string)
    ensures AllDataRows(allowList, MethodBodyStep(allowList, body, fileName, methodName).rows, fileName, methodName)
  {
    if body != [] {
      var c := body[|body| - 1];
      MethodBodyRows(allowList, body[..|body| - 1], fileName, methodName);
      if Doomed(c) {
        ProcessRows(allowList, c, fileName, methodName, false);
      } else {
        ProcessRows(allowList, Prune(c), fileName, methodName, true);
      }
    }
  }

  lemma {:induction false} MockFieldsRows(allowList: seq<string>, fields: seq<Field>, fileName: string)
    ensures AllDataRows(allowList, MockFieldsStep(allowList, fields, fileName).rows, fileName, ClassLevel)
  {
    if fields != [] {
      MockFieldsRows(allowList, fields[..|fields| - 1], fileName);
    }
  }

  lemma {:induction false} MethodsRows(allowList: seq<string>, methods: seq<Method>, fileName: string)
    ensures AllFileRows(allowList, MethodsStep(allowList, methods, fileName).rows, fileName)
  {
    if methods != [] {
      var m := methods[|methods| - 1];
      MethodsRows(allowList, methods[..|methods| - 1], fileName);
      if m.body.Some? {
        MethodBodyRows(allowList, m.body.value, fileName, m.name);
      }
    }
  }

  lemma {:induction false} ClassesRows(allowList: seq<string>, cs: seq<Class>, fileName: string)
    ensures AllFileRows(allowList, ClassesStep(allowList, cs, fileName).rows, fileName)
  {
    if cs != [] {
      var c := cs[|cs| - 1];
      ClassesRows(allowList, cs[..|cs| - 1], fileName);
      MockFieldsRows(allowList, c.fields, fileName);
      MethodsRows(allowList, c.methods, fileName);
    }
  }

  /** Every row recorded for a file's copy names that file and a type
      outside the allow-list. */
  lemma ModifiedContentRows(allowList: seq<string>, fileName: string, original: string, reparsed: Option<JavaFile>)
    ensures AllFileRows(allowList, ModifiedContent(allowList, fileName, original, reparsed).rows, fileName)
  {
    if reparsed.Some? {
      ClassesRows(allowList, reparsed.value.classes, fileName);
    }
  }

  /** Fields without `@Mock` are never touched; each `@Mock` field is
      rewritten on its own. */
  lemma {:induction false} MockFieldsStepPointwise(allowList: seq<string>, fields: seq<Field>, fileName: string)
    ensures var w := MockFieldsStep(allowList, fields, fileName);
            forall i :: 0 <= i < |fields| ==>
              w.value[i] == (if HasMockAnnotation(fields[i]) then ReplaceMockField(allowList, fields[i], fileName).value else fields[i])
  {
    if fields != [] {
      MockFieldsStepPointwise(allowList, fields[..|fields| - 1], fileName);
    }
  }

  /** An assignment's right-hand side is recorded exactly when it is an
      instantiation site whose class is off the allow-list, in one row naming
      that class and whether it came from the mock factory. */
  lemma AssignmentSiteRecords(allowList: seq<string>, e: Node, fileName: string, methodName: string, attached: bool)
    ensures var w := HandleInstantiation(allowList, e, fileName, methodName, attached);
            var s := InstantiationSite(e);
            (w.rows != [] <==> s.Some? && !IsBasicName(allowList, s.value.className)) &&
            (w.rows != [] ==> w.rows == [Row(fileName, methodName, s.value.className, BoolText(s.value.mocked))])
  {
  }

  /** The row is written before the replacement is tried: a class name whose
      placeholder the factory rejects (a bare double quote in it) still gets
      its row, and the expression stays. */
  lemma FailedReplacementStillRecords(allowList: seq<string>, e: Node, fileName: string, methodName: string, className: string,
                                      isMocked: bool, k: nat)
    requires !IsBasicName(allowList, className)
    requires k < |className| && className[k] == '"'
    requires forall i :: 0 <= i < |className| ==> className[i] != '\\'
    ensures var w := RecordAndReplace(allowList, e, fileName, methodName, className, isMocked, true);
            w.rows == [Row(fileName, methodName, className, BoolText(isMocked))] && w.value == e
  {
    QuoteBreaksPlaceholder(className, k);
  }

  /** `m'` is what the batch action makes of the method `m`: a method without a
      body stays as it is; one with a body keeps its name and annotations and
      gets the rewritten body. */
  predicate RewrittenMethod(allowList: seq<string>, m: Method, m': Method, fileName: string)
  {
    if m.body.None? then m' == m
    else m' == Method(m.name, m.annotations, Some(MethodBodyStep(allowList, m.body.value, fileName, m.name).value))
  }

  /** Each method is rewritten on its own: its body, if any, is the method
      body step of its old body. */
  lemma {:induction false} MethodsStepPointwise(allowList: seq<string>, methods: seq<Method>, fileName: string)
    ensures var r := MethodsStep(allowList, methods, fileName).value;
            forall i :: 0 <= i < |methods| ==> RewrittenMethod(allowList, methods[i], r[i], fileName)
  {
    if methods != [] {
      var n := |methods| - 1;
      MethodsStepPointwise(allowList, methods[..n], fileName);
      MethodsStepLast(allowList, methods, fileName);
      var front := MethodsStep(allowList, methods[..n], fileName).value;
      var r := MethodsStep(allowList, methods, fileName).value;
      forall i | 0 <= i < |methods|
        ensures RewrittenMethod(allowList, methods[i], r[i], fileName)
      {
        if i < n {
          assert RewrittenMethod(allowList, methods[..n][i], front[i], fileName);
          assert methods[i] == methods[..n][i];
          assert r[i] == r[..n][i] == front[i];
        } else {
          assert i == n;
        }
      }
    }
  }

  /** The last method of a non-empty list is rewritten after the others. */
  lemma MethodsStepLast(allowList: seq<string>, methods: seq<Method>, fileName: string)
    requires methods != []
    ensures var n := |methods| - 1;
            var r := MethodsStep(allowList, methods, fileName).value;
            r[..n] == MethodsStep(allowList, methods[..n], fileName).value &&
            RewrittenMethod(allowList, methods[n], r[n], fileName)
  {
  }

  /** `c'` is what the batch action makes of the class `c`: the same name,
      each field replaced on its own when it carries `@Mock` and kept
      otherwise, and each method rewritten on its own. */
  predicate RewrittenClass(allowList: seq<string>, c: Class, c': Class, fileName: string)
  {
    && c'.name == c.name
    && |c'.fields| == |c.fields|
    && (forall i :: 0 <= i < |c.fields| ==>
          c'.fields[i] == (if HasMockAnnotation(c.fields[i]) then ReplaceMockField(allowList, c.fields[i], fileName).value
                           else c.fields[i]))
    && |c'.methods| == |c.methods|
    && (forall j :: 0 <= j < |c.methods| ==> RewrittenMethod(allowList, c.methods[j], c'.methods[j], fileName))
  }

  /** The definition of ClassesStep at a non-empty sequence, as an equation. */
  lemma ClassesStepLast(allowList: seq<string>, cs: seq<Class>, fileName: string)
    requires cs != []
    ensures var f := ClassesStep(allowList, cs[..|cs| - 1], fileName);
            var x := ClassStep(allowList, cs[|cs| - 1], fileName);
            ClassesStep(allowList, cs, fileName) == Out(f.value + [x.value], f.rows + x.rows)
  {
  }

  lemma ClassesStepSingle(allowList: seq<string>, c: Class, fileName: string)
    ensures var x := ClassStep(allowList, c, fileName);
            ClassesStep(allowList, [c], fileName) == Out([x.value], x.rows)
  {
    var x := ClassStep(allowList, c, fileName);
    ClassesStepLast(allowList, [c], fileName);
    assert [c][..0] == [] && [c][0] == c;
    assert ClassesStep(allowList, [], fileName) == Out([], []);
    assert [] + [x.value] == [x.value] && [] + x.rows == x.rows;
  }

  lemma {:induction false} ClassesStepConcat(allowList: seq<string>, a: seq<Class>, b: seq<Class>, fileName: string)
    ensures var wa := ClassesStep(allowList, a, fileName);
            var wb := ClassesStep(allowList, b, fileName);
            ClassesStep(allowList, a + b, fileName) == Out(wa.value + wb.value, wa.rows + wb.rows)
    decreases |b|
  {
    if b == [] {
      var wa := ClassesStep(allowList, a, fileName);
      assert a + b == a;
      assert wa.value + [] == wa.value && wa.rows + [] == wa.rows;
    } else {
      var n := |b| - 1;
      var wa := ClassesStep(allowList, a, fileName);
      var wf := ClassesStep(allowList, b[..n], fileName);
      var last := ClassStep(allowList, b[n], fileName);
      ClassesStepConcat(allowList, a, b[..n], fileName);
      ConcatSplitLast(a, b);
      ClassesStepLast(allowList, a + b, fileName);
      ClassesStepLast(allowList, b, fileName);
      AppendAssoc(wa.value, wf.value, [last.value]);
      AppendAssoc(wa.rows, wf.rows, last.rows);
    }
  }

  /** The classes of a file are rewritten one by one, in order: at every
      position, the classes before it, then that class's `ClassStep`, then the
      classes after it, values and rows concatenated in that order. */
  lemma ClassesStepAt(allowList: seq<string>, cs: seq<Class>, i: nat, fileName: string)
    requires i < |cs|
    ensures var f := ClassesStep(allowList, cs[..i], fileName);
            var x := ClassStep(allowList, cs[i], fileName);
            var b := ClassesStep(allowList, cs[i + 1..], fileName);
            ClassesStep(allowList, cs, fileName) == Out(f.value + [x.value] + b.value, f.rows + x.rows + b.rows)
  {
    var f := ClassesStep(allowList, cs[..i], fileName);
    var x := ClassStep(allowList, cs[i], fileName);
    var b := ClassesStep(allowList, cs[i + 1..], fileName);
    var mid := [cs[i]] + cs[i + 1..];
    SplitAt(cs, i);
    ClassesStepSingle(allowList, cs[i], fileName);
    ClassesStepConcat(allowList, [cs[i]], cs[i + 1..], fileName);
    assert ClassesStep(allowList, mid, fileName) == Out([x.value] + b.value, x.rows + b.rows);
    ClassesStepConcat(allowList, cs[..i], mid, fileName);
    AppendAssoc(f.value, [x.value], b.value);
    AppendAssoc(f.rows, x.rows, b.rows);
  }

  /** Each class is rewritten on its own: the i-th class of the result is the
      `ClassStep` of the i-th class, so it is `RewrittenClass` of it. */
  lemma ClassesStepPointwise(allowList: seq<string>, cs: seq<Class>, fileName: string)
    ensures var r := ClassesStep(allowList, cs, fileName).value;
            forall i :: 0 <= i < |cs| ==>
              r[i] == ClassStep(allowList, cs[i], fileName).value && RewrittenClass(allowList, cs[i], r[i], fileName)
  {
    var r := ClassesStep(allowList, cs, fileName).value;
    forall i | 0 <= i < |cs|
      ensures r[i] == ClassStep(allowList, cs[i], fileName).value
    {
      ClassesStepAt(allowList, cs, i, fileName);
      var f := ClassesStep(allowList, cs[..i], fileName).value;
      var x := ClassStep(allowList, cs[i], fileName).value;
      assert |f| == i;
      assert (f + [x] + ClassesStep(allowList, cs[i + 1..], fileName).value)[i] == x;
    }
  }

  // What each element of a sequence becomes, and where its rows go. Every
  // step over a sequence is a concatenation: the result of `a + b` is the
  // result of `a` followed by the result of `b`, values and rows alike.

  /** The definition of LocalsStep at a non-empty sequence, as an equation. */
  lemma LocalsStepLast(allowList: seq<string>, es: seq<Node>, fileName: string, methodName: string, attached: bool)
    requires es != []
    ensures var f := LocalsStep(allowList, es[..|es| - 1], fileName, methodName, attached);
            var x := DeclaredStep(allowList, es[|es| - 1], fileName, methodName, attached);
            LocalsStep(allowList, es, fileName, methodName, attached) == Out(f.value + [x.value], f.rows + x.rows)
  {
  }

  lemma {:induction false} LocalsStepConcat(allowList: seq<string>, a: seq<Node>, b: seq<Node>, fileName: string,
                                            methodName: string, attached: bool)
    ensures var wa := LocalsStep(allowList, a, fileName, methodName, attached);
            var wb := LocalsStep(allowList, b, fileName, methodName, attached);
            LocalsStep(allowList, a + b, fileName, methodName, attached) == Out(wa.value + wb.value, wa.rows + wb.rows)
    decreases |b|
  {
    if b == [] {
      var wa := LocalsStep(allowList, a, fileName, methodName, attached);
      assert a + b == a;
      assert wa.value + [] == wa.value && wa.rows + [] == wa.rows;
    } else {
      var n := |b| - 1;
      var wa := LocalsStep(allowList, a, fileName, methodName, attached);
      var wf := LocalsStep(allowList, b[..n], fileName, methodName, attached);
      var last := DeclaredStep(allowList, b[n], fileName, methodName, attached);
      LocalsStepConcat(allowList, a, b[..n], fileName, methodName, attached);
      ConcatSplitLast(a, b);
      LocalsStepLast(allowList, a + b, fileName, methodName, attached);
      LocalsStepLast(allowList, b, fileName, methodName, attached);
      AppendAssoc(wa.value, wf.value, [last.value]);
      AppendAssoc(wa.rows, wf.rows, last.rows);
    }
  }

  lemma LocalsStepSingle(allowList: seq<string>, x: Node, fileName: string, methodName: string, attached: bool)
    ensures var d := DeclaredStep(allowList, x, fileName, methodName, attached);
            LocalsStep(allowList, [x], fileName, methodName, attached) == Out([d.value], d.rows)
  {
    assert [x][..0] == [];
  }

  /** Each declared element goes through the declared-element step, in
      order: the `i`-th element of the result is its step's value, and its
      rows sit between the rows of the elements before and after it. */
  lemma LocalsStepAt(allowList: seq<string>, es: seq<Node>, i: nat, fileName: string, methodName: string, attached: bool)
    requires i < |es|
    ensures var f := LocalsStep(allowList, es[..i], fileName, methodName, attached);
            var x := DeclaredStep(allowList, es[i], fileName, methodName, attached);
            var b := LocalsStep(allowList, es[i + 1..], fileName, methodName, attached);
            LocalsStep(allowList, es, fileName, methodName, attached) == Out(f.value + [x.value] + b.value, f.rows + x.rows + b.rows)
  {
    var f := LocalsStep(allowList, es[..i], fileName, methodName, attached);
    var x := DeclaredStep(allowList, es[i], fileName, methodName, attached);
    var b := LocalsStep(allowList, es[i + 1..], fileName, methodName, attached);
    var mid := [es[i]] + es[i + 1..];
    SplitAt(es, i);
    LocalsStepSingle(allowList, es[i], fileName, methodName, attached);
    LocalsStepConcat(allowList, [es[i]], es[i + 1..], fileName, methodName, attached);
    assert LocalsStep(allowList, mid, fileName, methodName, attached) == Out([x.value] + b.value, x.rows + b.rows);
    LocalsStepConcat(allowList, es[..i], mid, fileName, methodName, attached);
    AppendAssoc(f.value, [x.value], b.value);
    AppendAssoc(f.rows, x.rows, b.rows);
  }

  lemma ProcessSeqLast(allowList: seq<string>, cs: seq<Node>, fileName: string, methodName: string, attached: bool)
    requires cs != []
    ensures var f := ProcessSeq(allowList, cs[..|cs| - 1], fileName, methodName, attached);
            var x := Process(allowList, cs[|cs| - 1], fileName, methodName, attached);
            ProcessSeq(allowList, cs, fileName, methodName, attached) == Out(f.value + [x.value], f.rows + x.rows)
  {
  }

  lemma ProcessSeqSingle(allowList: seq<string>, c: Node, fileName: string, methodName: string, attached: bool)
    ensures var x := Process(allowList, c, fileName, methodName, attached);
            ProcessSeq(allowList, [c], fileName, methodName, attached) == Out([x.value], x.rows)
  {
    var x := Process(allowList, c, fileName, methodName, attached);
    ProcessSeqLast(allowList, [c], fileName, methodName, attached);
    assert [c][..0] == [] && [c][0] == c;
    assert ProcessSeq(allowList, [], fileName, methodName, attached) == Out([], []);
    assert [] + [x.value] == [x.value] && [] + x.rows == x.rows;
  }

  lemma {:induction false} ProcessSeqConcat(allowList: seq<string>, a: seq<Node>, b: seq<Node>, fileName: string,
                                            methodName: string, attached: bool)
    ensures var wa := ProcessSeq(allowList, a, fileName, methodName, attached);
            var wb := ProcessSeq(allowList, b, fileName, methodName, attached);
            ProcessSeq(allowList, a + b, fileName, methodName, attached) == Out(wa.value + wb.value, wa.rows + wb.rows)
    decreases |b|
  {
    var wa := ProcessSeq(allowList, a, fileName, methodName, attached);
    if b == [] {
      assert a + b == a;
      assert wa.value + [] == wa.value && wa.rows + [] == wa.rows;
    } else {
      var n := |b| - 1;
      var wf := ProcessSeq(allowList, b[..n], fileName, methodName, attached);
      var last := Process(allowList, b[n], fileName, methodName, attached);
      ProcessSeqConcat(allowList, a, b[..n], fileName, methodName, attached);
      ConcatSplitLast(a, b);
      ProcessSeqLast(allowList, a + b, fileName, methodName, attached);
      ProcessSeqLast(allowList, b, fileName, methodName, attached);
      AppendAssoc(wa.value, wf.value, [last.value]);
      AppendAssoc(wa.rows, wf.rows, last.rows);
    }
  }

  /** Every child is walked, in order: the `i`-th result is the walk of the
      `i`-th child, and that walk's rows sit between the rows of the children
      before and after it. */
  lemma ProcessSeqAt(allowList: seq<string>, cs: seq<Node>, i: nat, fileName: string, methodName: string, attached: bool)
    requires i < |cs|
    ensures var f := ProcessSeq(allowList, cs[..i], fileName, methodName, attached);
            var x := Process(allowList, cs[i], fileName, methodName, attached);
            var b := ProcessSeq(allowList, cs[i + 1..], fileName, methodName, attached);
            ProcessSeq(allowList, cs, fileName, methodName, attached) == Out(f.value + [x.value] + b.value, f.rows + x.rows + b.rows)
  {
    var f := ProcessSeq(allowList, cs[..i], fileName, methodName, attached);
    var x := Process(allowList, cs[i], fileName, methodName, attached);
    var b := ProcessSeq(allowList, cs[i + 1..], fileName, methodName, attached);
    var mid := [cs[i]] + cs[i + 1..];
    SplitAt(cs, i);
    ProcessSeqSingle(allowList, cs[i], fileName, methodName, attached);
    ProcessSeqConcat(allowList, [cs[i]], cs[i + 1..], fileName, methodName, attached);
    assert ProcessSeq(allowList, mid, fileName, methodName, attached) == Out([x.value] + b.value, x.rows + b.rows);
    ProcessSeqConcat(allowList, cs[..i], mid, fileName, methodName, attached);
    AppendAssoc(f.value, [x.value], b.value);
    AppendAssoc(f.rows, x.rows, b.rows);
  }

  /** The rows of one body statement: a statement the pruner deletes is
      walked detached, any other is pruned and walked in the tree. */
  function StatementStep(allowList: seq<string>, c: Node, fileName: string, methodName: string): Out<seq<Node>>
  {
    if Doomed(c) then Out([], Process(allowList, c, fileName, methodName, false).rows)
    else
      var w := Process(allowList, Prune(c), fileName, methodName, true);
      Out([w.value], w.rows)
  }

  lemma MethodBodyStepLast(allowList: seq<string>, body: seq<Node>, fileName: string, methodName: string)
    requires body != []
    ensures var f := MethodBodyStep(allowList, body[..|body| - 1], fileName, methodName);
            var x := StatementStep(allowList, body[|body| - 1], fileName, methodName);
            MethodBodyStep(allowList, body, fileName, methodName) == Out(f.value + x.value, f.rows + x.rows)
  {
    var f := MethodBodyStep(allowList, body[..|body| - 1], fileName, methodName);
    assert f.value + [] == f.value;
  }

  lemma MethodBodyStepSingle(allowList: seq<string>, c: Node, fileName: string, methodName: string)
    ensures MethodBodyStep(allowList, [c], fileName, methodName) == StatementStep(allowList, c, fileName, methodName)
  {
    var x := StatementStep(allowList, c, fileName, methodName);
    MethodBodyStepLast(allowList, [c], fileName, methodName);
    assert [c][..0] == [] && [c][0] == c;
    assert MethodBodyStep(allowList, [], fileName, methodName) == Out([], []);
    assert [] + x.value == x.value && [] + x.rows == x.rows;
  }

  lemma {:induction false} MethodBodyStepConcat(allowList: seq<string>, a: seq<Node>, b: seq<Node>, fileName: string,
                                                methodName: string)
    ensures var wa := MethodBodyStep(allowList, a, fileName, methodName);
            var wb := MethodBodyStep(allowList, b, fileName, methodName);
            MethodBodyStep(allowList, a + b, fileName, methodName) == Out(wa.value + wb.value, wa.rows + wb.rows)
    decreases |b|
  {
    var wa := MethodBodyStep(allowList, a, fileName, methodName);
    if b == [] {
      assert a + b == a;
      assert wa.value + [] == wa.value && wa.rows + [] == wa.rows;
    } else {
      var n := |b| - 1;
      var wf := MethodBodyStep(allowList, b[..n], fileName, methodName);
      var last := StatementStep(allowList, b[n], fileName, methodName);
      MethodBodyStepConcat(allowList, a, b[..n], fileName, methodName);
      ConcatSplitLast(a, b);
      MethodBodyStepLast(allowList, a + b, fileName, methodName);
      MethodBodyStepLast(allowList, b, fileName, methodName);
      AppendAssoc(wa.value, wf.value, last.value);
      AppendAssoc(wa.rows, wf.rows, last.rows);
    }
  }

  /** The body is rewritten statement by statement, in order: each statement
      contributes what its own step gives (nothing kept when the pruner
      deletes it, its pruned walk otherwise) and its rows, deleted statements
      included, between those of the statements before and after it. */
  lemma MethodBodyStepAt(allowList: seq<string>, body: seq<Node>, i: nat, fileName: string, methodName: string)
    requires i < |body|
    ensures var f := MethodBodyStep(allowList, body[..i], fileName, methodName);
            var x := StatementStep(allowList, body[i], fileName, methodName);
            var b := MethodBodyStep(allowList, body[i + 1..], fileName, methodName);
            MethodBodyStep(allowList, body, fileName, methodName) == Out(f.value + x.value + b.value, f.rows + x.rows + b.rows)
  {
    var f := MethodBodyStep(allowList, body[..i], fileName, methodName);
    var x := StatementStep(allowList, body[i], fileName, methodName);
    var b := MethodBodyStep(allowList, body[i + 1..], fileName, methodName);
    var mid := [body[i]] + body[i + 1..];
    SplitAt(body, i);
    MethodBodyStepSingle(allowList, body[i], fileName, methodName);
    MethodBodyStepConcat(allowList, [body[i]], body[i + 1..], fileName, methodName);
    assert MethodBodyStep(allowList, mid, fileName, methodName) == Out(x.value + b.value, x.rows + b.rows);
    MethodBodyStepConcat(allowList, body[..i], mid, fileName, methodName);
    AppendAssoc(f.value, x.value, b.value);
    AppendAssoc(f.rows, x.rows, b.rows);
  }

  /** The statements a body keeps are the pruner's result, each walked in the
      tree, in order: the non-deleted statements, pruned, then walked. */
  lemma {:induction false} MethodBodyWalksPrunedStatements(allowList: seq<string>, body: seq<Node>, fileName: string, methodName: string)
    ensures MethodBodyStep(allowList, body, fileName, methodName).value ==
              ProcessSeq(allowList, PruneList(body), fileName, methodName, true).value
  {
    if body != [] {
      var n := |body| - 1;
      var c := body[n];
      var front := MethodBodyStep(allowList, body[..n], fileName, methodName);
      var kept := PruneList(body[..n]);
      MethodBodyWalksPrunedStatements(allowList, body[..n], fileName, methodName);
      MethodBodyStepLast(allowList, body, fileName, methodName);
      if Doomed(c) {
        assert PruneList(body) == kept + [];
        assert kept + [] == kept && front.value + [] == front.value;
      } else {
        var k := Prune(c);
        assert PruneList(body) == kept + [k];
        AppendLast(kept, k);
        ProcessSeqLast(allowList, kept + [k], fileName, methodName, true);
      }
    }
  }

  // Completeness of the walk: it reaches every element below the one it
  // starts from, as long as no step on the way rewrote the element the path
  // goes through.

  /** Following `p` from `n`, each element's own step leaves the next element
      on the path as it was, so the walk descends into it unchanged. */
  predicate WalkReaches(allowList: seq<string>, n: Node, p: seq<nat>, fileName: string, methodName: string, attached: bool)
    decreases |p|
  {
    p == [] ||
    (p[0] < |Children(n)| &&
     var s := Step(allowList, n, fileName, methodName, attached).value;
     p[0] < |Children(s)| && Children(s)[p[0]] == Children(n)[p[0]] &&
     WalkReaches(allowList, Children(n)[p[0]], p[1..], fileName, methodName, attached))
  }

  /** The walk of an element descends into each child its own step left:
      the child's walk stands at the child's place, and the child's rows are
      among the element's rows. */
  lemma ProcessChild(allowList: seq<string>, n: Node, i: nat, fileName: string, methodName: string, attached: bool)
    requires var s := Step(allowList, n, fileName, methodName, attached).value;
             i < |Children(s)|
    ensures var s := Step(allowList, n, fileName, methodName, attached).value;
            var w := Process(allowList, n, fileName, methodName, attached);
            var x := Process(allowList, Children(s)[i], fileName, methodName, attached);
            i < |Children(w.value)| && Children(w.value)[i] == x.value &&
            multiset(Step(allowList, n, fileName, methodName, attached).rows) + multiset(x.rows) <= multiset(w.rows)
  {
    var s := Step(allowList, n, fileName, methodName, attached);
    var cs := Children(s.value);
    ChildrenSize(s.value);
    var k := ProcessSeq(allowList, cs, fileName, methodName, attached);
    ProcessSeqAt(allowList, cs, i, fileName, methodName, attached);
    var f := ProcessSeq(allowList, cs[..i], fileName, methodName, attached);
    var b := ProcessSeq(allowList, cs[i + 1..], fileName, methodName, attached);
    var x := Process(allowList, cs[i], fileName, methodName, attached);
    assert k.value[i] == x.value;
    assert multiset(k.rows) == multiset(f.rows) + multiset(x.rows) + multiset(b.rows);
  }

  /** The walk's rows come in pre-order: the element's own step first, then
      the walks of the children before the i-th, then the i-th child's walk,
      then the walks of the children after it. */
  lemma ProcessChildRowsInOrder(allowList: seq<string>, n: Node, i: nat, fileName: string, methodName: string,
                                attached: bool)
    requires var s := Step(allowList, n, fileName, methodName, attached).value;
             i < |Children(s)|
    ensures var s := Step(allowList, n, fileName, methodName, attached);
            var cs := Children(s.value);
            var f := ProcessSeq(allowList, cs[..i], fileName, methodName, attached);
            var x := Process(allowList, cs[i], fileName, methodName, attached);
            var b := ProcessSeq(allowList, cs[i + 1..], fileName, methodName, attached);
            Process(allowList, n, fileName, methodName, attached).rows == s.rows + f.rows + x.rows + b.rows
  {
    var s := Step(allowList, n, fileName, methodName, attached);
    var cs := Children(s.value);
    ChildrenSize(s.value);
    var k := ProcessSeq(allowList, cs, fileName, methodName, attached);
    ProcessSeqAt(allowList, cs, i, fileName, methodName, attached);
    var f := ProcessSeq(allowList, cs[..i], fileName, methodName, attached);
    var x := Process(allowList, cs[i], fileName, methodName, attached);
    var b := ProcessSeq(allowList, cs[i + 1..], fileName, methodName, attached);
    assert Process(allowList, n, fileName, methodName, attached).rows == s.rows + k.rows;
    assert k.rows == f.rows + x.rows + b.rows;
    AppendAssoc(s.rows, f.rows + x.rows, b.rows);
    AppendAssoc(s.rows, f.rows, x.rows);
  }

  /** The walk of `n`, at position `p`, holds the walk of the element that
      was there, and every row that element's own step records is among the
      rows of the walk of `n`. */
  lemma {:induction false} WalkReachesNested(allowList: seq<string>, n: Node, p: seq<nat>, fileName: string, methodName: string,
                                             attached: bool)
    requires WalkReaches(allowList, n, p, fileName, methodName, attached) && SubtreeAt(n, p).Some?
    ensures var t := SubtreeAt(n, p).value;
            var w := Process(allowList, n, fileName, methodName, attached);
            SubtreeAt(w.value, p) == Some(Process(allowList, t, fileName, methodName, attached).value) &&
            multiset(Step(allowList, t, fileName, methodName, attached).rows) <= multiset(w.rows)
    decreases |p|
  {
    if p == [] {
      var s := Step(allowList, n, fileName, methodName, attached);
      ChildrenSize(s.value);
      var k := ProcessSeq(allowList, Children(s.value), fileName, methodName, attached);
      assert Process(allowList, n, fileName, methodName, attached).rows == s.rows + k.rows;
    } else {
      var c := Children(n)[p[0]];
      WalkReachesNested(allowList, c, p[1..], fileName, methodName, attached);
      ProcessChild(allowList, n, p[0], fileName, methodName, attached);
    }
  }

  /** A string literal has nothing to walk. */
  lemma ProcessLiteral(allowList: seq<string>, n: Node, fileName: string, methodName: string, attached: bool)
    requires n.StrLit?
    ensures Process(allowList, n, fileName, methodName, attached) == Out(n, [])
  {
    assert Children(n) == [];
    assert ProcessSeq(allowList, [], fileName, methodName, attached) == Out([], []);
  }

  /** A local variable whose initializer is already a placeholder literal is
      walked without change. */
  lemma ProcessReplacedLocal(allowList: seq<string>, ty: JType, x: string, body: string, fileName: string, methodName: string,
                             attached: bool)
    ensures var v := Local(ty, x, Some(StrLit(body)));
            Process(allowList, v, fileName, methodName, attached) == Out(v, [])
  {
    var v := Local(ty, x, Some(StrLit(body)));
    assert Children(v) == [StrLit(body)];
    ProcessLiteral(allowList, StrLit(body), fileName, methodName, attached);
    ProcessSeqSingle(allowList, StrLit(body), fileName, methodName, attached);
  }

  /** An assignment whose right side the step replaced keeps the placeholder
      after the walk; only its left side is walked further. */
  lemma ProcessReplacedAssignment(allowList: seq<string>, t: string, l: Node, r: Node, fileName: string, methodName: string,
                                  attached: bool)
    requires HandleInstantiation(allowList, r, fileName, methodName, attached).value.StrLit?
    ensures var h := HandleInstantiation(allowList, r, fileName, methodName, attached);
            Process(allowList, Assign(t, l, Some(r)), fileName, methodName, attached).value ==
              Assign(t, Process(allowList, l, fileName, methodName, attached).value, Some(h.value))
  {
    var h := HandleInstantiation(allowList, r, fileName, methodName, attached);
    var s := Assign(t, l, Some(h.value));
    var pl := Process(allowList, l, fileName, methodName, attached);
    assert Step(allowList, Assign(t, l, Some(r)), fileName, methodName, attached).value == s;
    assert Children(s) == [l, h.value];
    ProcessSeqLiteralPair(allowList, l, h.value, fileName, methodName, attached);
    assert WithChildren(s, [pl.value, h.value]) == Assign(t, pl.value, Some(h.value));
  }

  /** Walking a node and a literal after it: the literal is kept as it is. */
  lemma ProcessSeqLiteralPair(allowList: seq<string>, a: Node, b: Node, fileName: string, methodName: string,
                              attached: bool)
    requires b.StrLit?
    ensures ProcessSeq(allowList, [a, b], fileName, methodName, attached).value ==
              [Process(allowList, a, fileName, methodName, attached).value, b]
  {
    ProcessLiteral(allowList, b, fileName, methodName, attached);
    ProcessSeqLast(allowList, [a, b], fileName, methodName, attached);
    assert [a, b][..1] == [a];
    ProcessSeqSingle(allowList, a, fileName, methodName, attached);
  }

  /** Every assignment the walk reaches with an instantiation site of a
      non-basic class on its right records that site's row; when the element
      is in the tree and the factory accepts the placeholder, the walked tree
      holds the placeholder at that assignment. */
  lemma NestedAssignmentRecorded(allowList: seq<string>, n: Node, p: seq<nat>, fileName: string, methodName: string,
                                 attached: bool)
    requires WalkReaches(allowList, n, p, fileName, methodName, attached)
    requires var a := SubtreeAt(n, p);
             a.Some? && a.value.Assign? && a.value.rhs.Some? &&
             var site := InstantiationSite(a.value.rhs.value);
             site.Some? && !IsBasicName(allowList, site.value.className)
    ensures var a := SubtreeAt(n, p).value;
            var site := InstantiationSite(a.rhs.value).value;
            var w := Process(allowList, n, fileName, methodName, attached);
            Row(fileName, methodName, site.className, BoolText(site.mocked)) in w.rows &&
            (attached && LexesAsLiteralBody(InstantiateBody(site.className)) ==>
               SubtreeAt(w.value, p) ==
                 Some(Assign(a.text, Process(allowList, a.lhs, fileName, methodName, attached).value,
                             Some(StrLit(InstantiateBody(site.className))))))
  {
    var a := SubtreeAt(n, p).value;
    var site := InstantiationSite(a.rhs.value).value;
    var row := Row(fileName, methodName, site.className, BoolText(site.mocked));
    var w := Process(allowList, n, fileName, methodName, attached);
    WalkReachesNested(allowList, n, p, fileName, methodName, attached);
    AssignmentSiteRecords(allowList, a.rhs.value, fileName, methodName, attached);
    assert Step(allowList, a, fileName, methodName, attached).rows == [row];
    assert multiset([row])[row] == 1;
    assert row in multiset(w.rows);
    if attached && LexesAsLiteralBody(InstantiateBody(site.className)) {
      ProcessReplacedAssignment(allowList, a.text, a.lhs, a.rhs.value, fileName, methodName, attached);
    }
  }

  /** Every declaration statement the walk reaches in the tree records a row
      for each local variable it declares with an initializer and a non-basic
      type, and the walked tree holds that variable with the placeholder of
      its cleaned-up presentable type. */
  lemma NestedLocalRecorded(allowList: seq<string>, n: Node, p: seq<nat>, k: nat, fileName: string, methodName: string)
    requires WalkReaches(allowList, n, p, fileName, methodName, true)
    requires var d := SubtreeAt(n, p);
             d.Some? && d.value.Decl? && k < |d.value.elems| &&
             var v := d.value.elems[k];
             v.Local? && v.init.Some? && !IsBasicType(allowList, Some(v.ty))
    ensures var v := SubtreeAt(n, p).value.elems[k];
            var w := Process(allowList, n, fileName, methodName, true);
            Row(fileName, methodName, v.ty.canonical, BoolText(IsMockFactoryText(Text(v.init.value)))) in w.rows &&
            var d' := SubtreeAt(w.value, p);
            d'.Some? && k < |Children(d'.value)| &&
            Children(d'.value)[k] == Local(v.ty, v.name, Some(StrLit(InstantiateBody(SanitizedTypeText(v.ty.presentable)))))
  {
    var d := SubtreeAt(n, p).value;
    var v := d.elems[k];
    var row := Row(fileName, methodName, v.ty.canonical, BoolText(IsMockFactoryText(Text(v.init.value))));
    var w := Process(allowList, n, fileName, methodName, true);
    var lv := LocalStep(allowList, v, fileName, methodName, true);
    WalkReachesNested(allowList, n, p, fileName, methodName, true);
    LocalsStepAt(allowList, d.elems, k, fileName, methodName, true);
    var ls := LocalsStep(allowList, d.elems, fileName, methodName, true);
    var f := LocalsStep(allowList, d.elems[..k], fileName, methodName, true);
    var b := LocalsStep(allowList, d.elems[k + 1..], fileName, methodName, true);
    assert lv.rows == [row];
    assert multiset(ls.rows) == multiset(f.rows) + multiset([row]) + multiset(b.rows);
    assert multiset([row])[row] == 1;
    assert row in multiset(w.rows);
    var placeholder := Local(v.ty, v.name, Some(StrLit(InstantiateBody(SanitizedTypeText(v.ty.presentable)))));
    assert lv.value == placeholder;
    assert ls.value[k] == placeholder;
    ProcessChild(allowList, d, k, fileName, methodName, true);
    ProcessReplacedLocal(allowList, v.ty, v.name, InstantiateBody(SanitizedTypeText(v.ty.presentable)), fileName, methodName, true);
  }

  /** The same across a whole method body: whatever the walk of one
      statement reaches records its rows in the body's rows. A statement the
      pruner deleted is walked detached, any other after pruning. */
  lemma BodyRecordsNested(allowList: seq<string>, body: seq<Node>, i: nat, p: seq<nat>, fileName: string, methodName: string)
    requires i < |body|
    requires var c := if Doomed(body[i]) then body[i] else Prune(body[i]);
             WalkReaches(allowList, c, p, fileName, methodName, !Doomed(body[i])) && SubtreeAt(c, p).Some?
    ensures var c := if Doomed(body[i]) then body[i] else Prune(body[i]);
            var t := SubtreeAt(c, p).value;
            multiset(Step(allowList, t, fileName, methodName, !Doomed(body[i])).rows) <=
              multiset(MethodBodyStep(allowList, body, fileName, methodName).rows)
  {
    var c := if Doomed(body[i]) then body[i] else Prune(body[i]);
    WalkReachesNested(allowList, c, p, fileName, methodName, !Doomed(body[i]));
    MethodBodyStepAt(allowList, body, i, fileName, methodName);
    var f := MethodBodyStep(allowList, body[..i], fileName, methodName);
    var x := StatementStep(allowList, body[i], fileName, methodName);
    var b := MethodBodyStep(allowList, body[i + 1..], fileName, methodName);
    assert x.rows == Process(allowList, c, fileName, methodName, !Doomed(body[i])).rows;
    assert multiset(f.rows + x.rows + b.rows) == multiset(f.rows) + multiset(x.rows) + multiset(b.rows);
  }
}
