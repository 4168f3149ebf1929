/** The batch action: for every Java file of the project that holds a JUnit
    test, a manifest row pairing it with its class under test, a rewritten copy
    saved under the same name, and the rows of the instantiation sheet. The
    action object keeps the sheet's rows in a list field that its methods
    append to; each method is proved to produce what the functions of
    Instantiation describe. */
module ModifyAllTestFiles {
  import opened Syntax
  import opened Strings
  import opened TypeClassifier
  import opened Placeholder
  import opened MockitoPruner
  import opened Instantiation
  import opened TestFiles
  import opened Seqs

  /** A file of the open project: name, path, its text and, when the IDE
      parses it as a Java file, its syntax tree. */
  datatype SourceFile = SourceFile(name: string, path: string, text: string, java: Option<JavaFile>)

  datatype Project = Project(files: seq<SourceFile>)

  /** A rewritten copy, written to the results directory under the test file's name. */
  datatype SavedFile = SavedFile(name: string, content: Content)

  predicate IsTestFile(f: SourceFile)
  {
    f.java.Some? && HasTestMethod(f.java.value)
  }

  /** The file-name index the class under test is looked up in, taken to list
      same-named files in the order of the file-type listing. */
  function Index(files: seq<SourceFile>): (r: seq<ProjectFile>)
    ensures |r| == |files|
    ensures forall i :: 0 <= i < |files| ==> r[i] == ProjectFile(files[i].name, files[i].path)
  {
    if files == [] then [] else Index(files[..|files| - 1]) + [ProjectFile(files[|files| - 1].name, files[|files| - 1].path)]
  }

  /** The rewrite of one test file. Its copy is parsed from the file's own
      text, which gives the tree the IDE already holds for it. */
  function Rewrite(allowList: seq<string>, f: SourceFile): Out<Content>
  {
    ModifiedContent(allowList, f.name, f.text, f.java)
  }

  /** The manifest rows of one run, one per test file, in the order visited. */
  function ManifestOf(files: seq<SourceFile>, index: seq<ProjectFile>): (r: seq<ManifestRow>)
    ensures |r| == |TestFilesOf(files)|
  {
    if files == [] then []
    else
      var f := files[|files| - 1];
      ManifestOf(files[..|files| - 1], index) + (if IsTestFile(f) then [RecordTestFile(f.name, f.path, index)] else [])
  }

  /** The rewritten copies of one run. */
  function SavedOf(allowList: seq<string>, files: seq<SourceFile>): (r: seq<SavedFile>)
    ensures |r| == |TestFilesOf(files)|
  {
    if files == [] then []
    else
      var f := files[|files| - 1];
      SavedOf(allowList, files[..|files| - 1]) + (if IsTestFile(f) then [SavedFile(f.name, Rewrite(allowList, f).value)] else [])
  }

  /** The sheet rows one run records, after its header. */
  function RowsOf(allowList: seq<string>, files: seq<SourceFile>): seq<Row>
  {
    if files == [] then []
    else
      var f := files[|files| - 1];
      RowsOf(allowList, files[..|files| - 1]) + (if IsTestFile(f) then Rewrite(allowList, f).rows else [])
  }

  function TestFilesOf(files: seq<SourceFile>): (r: seq<SourceFile>)
    ensures forall i :: 0 <= i < |r| ==> IsTestFile(r[i])
  {
    if files == [] then []
    else
      var f := files[|files| - 1];
      TestFilesOf(files[..|files| - 1]) + (if IsTestFile(f) then [f] else [])
  }

  /** The row was recorded for one of the project's test files. */
  predicate FromTestFile(allowList: seq<string>, row: Row, files: seq<SourceFile>)
  {
    exists k :: 0 <= k < |files| && IsTestFile(files[k]) && IsFileRow(allowList, row, files[k].name)
  }

  /** Every sheet row a run records belongs to a test file of the project,
      names a type outside the allow-list, and says "true" or "false". */
  lemma {:induction false} RowsOfAreFileRows(allowList: seq<string>, files: seq<SourceFile>)
    ensures forall i :: 0 <= i < |RowsOf(allowList, files)| ==> FromTestFile(allowList, RowsOf(allowList, files)[i], files)
  {
    if files != [] {
      var front := files[..|files| - 1];
      var f := files[|files| - 1];
      RowsOfAreFileRows(allowList, front);
      ModifiedContentRows(allowList, f.name, f.text, f.java);
      var prior := RowsOf(allowList, front);
      var last := if IsTestFile(f) then Rewrite(allowList, f).rows else [];
      var r := RowsOf(allowList, files);
      assert r == prior + last;
      forall i | 0 <= i < |r|
        ensures FromTestFile(allowList, r[i], files)
      {
        if i < |prior| {
          assert r[i] == prior[i];
          assert FromTestFile(allowList, prior[i], front);
          var k :| 0 <= k < |front| && IsTestFile(front[k]) && IsFileRow(allowList, prior[i], front[k].name);
          assert files[k] == front[k];
        } else {
          assert r[i] == last[i - |prior|];
          assert IsFileRow(allowList, r[i], files[|files| - 1].name);
        }
      }
    }
  }

  /** The sheet after a run: the rows already held, the header, then this run's rows. */
  function SheetAfterRun(allowList: seq<string>, prior: seq<Row>, p: Project): (r: seq<Row>)
    ensures |r| == |prior| + 1 + |RowsOf(allowList, p.files)|
    ensures r[|prior|] == Header
  {
    prior + [Header] + RowsOf(allowList, p.files)
  }

  function CountHeaders(rows: seq<Row>): nat
  {
    if rows == [] then 0 else CountHeaders(rows[..|rows| - 1]) + (if rows[|rows| - 1] == Header then 1 else 0)
  }

  lemma {:induction false} CountHeadersConcat(a: seq<Row>, b: seq<Row>)
    ensures CountHeaders(a + b) == CountHeaders(a) + CountHeaders(b)
    decreases |b|
  {
    if b == [] {
      assert a + b == a;
    } else {
      assert (a + b)[..|a + b| - 1] == a + b[..|b| - 1];
      CountHeadersConcat(a, b[..|b| - 1]);
    }
  }

  /** No recorded row can be mistaken for the header: the header's last column
      reads "Mocked", a recorded row's "true" or "false". */
  lemma {:induction false} NoHeaderAmongRows(allowList: seq<string>, files: seq<SourceFile>)
    ensures CountHeaders(RowsOf(allowList, files)) == 0
  {
    RowsOfAreFileRows(allowList, files);
    forall i | 0 <= i < |RowsOf(allowList, files)|
      ensures RowsOf(allowList, files)[i].mocked == "true" || RowsOf(allowList, files)[i].mocked == "false"
    {
      assert FromTestFile(allowList, RowsOf(allowList, files)[i], files);
    }
    NoHeaderAmong(RowsOf(allowList, files));
  }

  lemma {:induction false} NoHeaderAmong(rows: seq<Row>)
    requires forall i :: 0 <= i < |rows| ==> rows[i].mocked == "true" || rows[i].mocked == "false"
    ensures CountHeaders(rows) == 0
    decreases |rows|
  {
    if rows != [] {
      NoHeaderAmong(rows[..|rows| - 1]);
    }
  }

  /** A sheet built from nothing holds exactly one header, in its first row. */
  lemma FreshSheetHasOneHeader(allowList: seq<string>, p: Project)
    ensures SheetAfterRun(allowList, [], p)[0] == Header
    ensures CountHeaders(SheetAfterRun(allowList, [], p)) == 1
  {
    NoHeaderAmongRows(allowList, p.files);
    CountHeadersConcat([Header], RowsOf(allowList, p.files));
    assert [] + [Header] + RowsOf(allowList, p.files) == [Header] + RowsOf(allowList, p.files);
  }

  /** With the list kept across runs, the second run's sheet repeats the header
      and every row of the first run. */
  lemma SecondRunRepeatsHeader(allowList: seq<string>, p: Project)
    ensures var first := SheetAfterRun(allowList, [], p);
            var second := SheetAfterRun(allowList, first, p);
            CountHeaders(second) == 2 && second[..|first|] == first && second != first
  {
    var first := SheetAfterRun(allowList, [], p);
    FreshSheetHasOneHeader(allowList, p);
    CountHeadersConcat(first, [Header]);
    CountHeadersConcat(first + [Header], RowsOf(allowList, p.files));
    NoHeaderAmongRows(allowList, p.files);
    var second := SheetAfterRun(allowList, first, p);
    assert second[..|first|] == first;
  }

  // The loops below keep, as invariant, that what they built so far is what
  // the step function gives for the prefix visited. Each lemma here carries
  // that invariant over one more element.

  lemma LocalsLoopStep(allowList: seq<string>, es: seq<Node>, i: nat, fileName: string, methodName: string, attached: bool,
                       r: seq<Node>, base: seq<Row>, rows: seq<Row>)
    requires i < |es|
    requires var w := LocalsStep(allowList, es[..i], fileName, methodName, attached);
             r == w.value && rows == base + w.rows
    ensures var last := DeclaredStep(allowList, es[i], fileName, methodName, attached);
            var w := LocalsStep(allowList, es[..i + 1], fileName, methodName, attached);
            r + [last.value] == w.value && rows + last.rows == base + w.rows
  {
    var front := LocalsStep(allowList, es[..i], fileName, methodName, attached);
    PrefixExtend(es, i);
    var last := DeclaredStep(allowList, es[i], fileName, methodName, attached);
    AppendAssoc(base, front.rows, last.rows);
  }

  lemma ChildrenLoopStep(allowList: seq<string>, cs: seq<Node>, i: nat, fileName: string, methodName: string, attached: bool,
                         r: seq<Node>, base: seq<Row>, rows: seq<Row>)
    requires i < |cs|
    requires var w := ProcessSeq(allowList, cs[..i], fileName, methodName, attached);
             r == w.value && rows == base + w.rows
    ensures var last := Process(allowList, cs[i], fileName, methodName, attached);
            var w := ProcessSeq(allowList, cs[..i + 1], fileName, methodName, attached);
            r + [last.value] == w.value && rows + last.rows == base + w.rows
  {
    var front := ProcessSeq(allowList, cs[..i], fileName, methodName, attached);
    PrefixExtend(cs, i);
    AppendAssoc(base, front.rows, Process(allowList, cs[i], fileName, methodName, attached).rows);
  }

  /** The walk of an element is its step followed by the walk of the children. */
  lemma ProcessFromParts(allowList: seq<string>, n: Node, fileName: string, methodName: string, attached: bool,
                         base: seq<Row>, mid: seq<Row>, out: seq<Node>, rows: seq<Row>)
    requires mid == base + Step(allowList, n, fileName, methodName, attached).rows
    requires var k := ProcessSeq(allowList, Children(Step(allowList, n, fileName, methodName, attached).value), fileName, methodName, attached);
             out == k.value && rows == mid + k.rows
    ensures var w := Process(allowList, n, fileName, methodName, attached);
            w.value == WithChildren(Step(allowList, n, fileName, methodName, attached).value, out) && rows == base + w.rows
  {
    var s := Step(allowList, n, fileName, methodName, attached);
    AppendAssoc(base, s.rows, ProcessSeq(allowList, Children(s.value), fileName, methodName, attached).rows);
  }

  lemma BodyLoopStep(allowList: seq<string>, body: seq<Node>, i: nat, fileName: string, methodName: string,
                     r: seq<Node>, base: seq<Row>, rows: seq<Row>)
    requires i < |body|
    requires var w := MethodBodyStep(allowList, body[..i], fileName, methodName);
             r == w.value && rows == base + w.rows
    ensures var w := MethodBodyStep(allowList, body[..i + 1], fileName, methodName);
            var d := Process(allowList, body[i], fileName, methodName, false);
            var k := Process(allowList, Prune(body[i]), fileName, methodName, true);
            (Doomed(body[i]) ==> r == w.value && rows + d.rows == base + w.rows) &&
            (!Doomed(body[i]) ==> r + [k.value] == w.value && rows + k.rows == base + w.rows)
  {
    var front := MethodBodyStep(allowList, body[..i], fileName, methodName);
    PrefixExtend(body, i);
    if Doomed(body[i]) {
      AppendAssoc(base, front.rows, Process(allowList, body[i], fileName, methodName, false).rows);
    } else {
      AppendAssoc(base, front.rows, Process(allowList, Prune(body[i]), fileName, methodName, true).rows);
    }
  }

  lemma FieldsLoopStep(allowList: seq<string>, fields: seq<Field>, i: nat, fileName: string,
                       r: seq<Field>, base: seq<Row>, rows: seq<Row>)
    requires i < |fields|
    requires var w := MockFieldsStep(allowList, fields[..i], fileName);
             r == w.value && rows == base + w.rows
    ensures var last := if HasMockAnnotation(fields[i]) then ReplaceMockField(allowList, fields[i], fileName) else Out(fields[i], []);
            var w := MockFieldsStep(allowList, fields[..i + 1], fileName);
            r + [last.value] == w.value && rows + last.rows == base + w.rows
  {
    var front := MockFieldsStep(allowList, fields[..i], fileName);
    PrefixExtend(fields, i);
    var last := if HasMockAnnotation(fields[i]) then ReplaceMockField(allowList, fields[i], fileName) else Out(fields[i], []);
    AppendAssoc(base, front.rows, last.rows);
  }

  lemma MethodsLoopStep(allowList: seq<string>, methods: seq<Method>, j: nat, fileName: string,
                        r: seq<Method>, base: seq<Row>, rows: seq<Row>)
    requires j < |methods|
    requires var w := MethodsStep(allowList, methods[..j], fileName);
             r == w.value && rows == base + w.rows
    ensures var m := methods[j];
            var w := MethodsStep(allowList, methods[..j + 1], fileName);
            (m.body.None? ==> r + [m] == w.value && rows == base + w.rows) &&
            (m.body.Some? ==>
               var b := MethodBodyStep(allowList, m.body.value, fileName, m.name);
               r + [Method(m.name, m.annotations, Some(b.value))] == w.value && rows + b.rows == base + w.rows)
  {
    var front := MethodsStep(allowList, methods[..j], fileName);
    var m := methods[j];
    PrefixExtend(methods, j);
    if m.body.None? {
      AppendAssoc(base, front.rows, []);
    } else {
      AppendAssoc(base, front.rows, MethodBodyStep(allowList, m.body.value, fileName, m.name).rows);
    }
  }

  lemma ClassesLoopStep(allowList: seq<string>, classes: seq<Class>, i: nat, fileName: string,
                        r: seq<Class>, base: seq<Row>, rows: seq<Row>)
    requires i < |classes|
    requires var w := ClassesStep(allowList, classes[..i], fileName);
             r == w.value && rows == base + w.rows
    ensures var k := classes[i];
            var f := MockFieldsStep(allowList, k.fields, fileName);
            var m := MethodsStep(allowList, k.methods, fileName);
            var w := ClassesStep(allowList, classes[..i + 1], fileName);
            r + [Class(k.name, f.value, m.value)] == w.value && rows + f.rows + m.rows == base + w.rows
  {
    var front := ClassesStep(allowList, classes[..i], fileName);
    var k := classes[i];
    var f := MockFieldsStep(allowList, k.fields, fileName);
    var m := MethodsStep(allowList, k.methods, fileName);
    PrefixExtend(classes, i);
    AppendAssoc(base, front.rows, f.rows);
    AppendAssoc(base + front.rows + f.rows, m.rows, []);
    AppendAssoc(front.rows, f.rows, m.rows);
    AppendAssoc(base, front.rows + f.rows, m.rows);
  }

  lemma FilesLoopStep(allowList: seq<string>, files: seq<SourceFile>, i: nat, index: seq<ProjectFile>,
                      manifest: seq<ManifestRow>, saved: seq<SavedFile>, base: seq<Row>, rows: seq<Row>)
    requires i < |files|
    requires manifest == [ManifestHeader] + ManifestOf(files[..i], index)
    requires saved == SavedOf(allowList, files[..i])
    requires rows == base + RowsOf(allowList, files[..i])
    ensures var f := files[i];
            (IsTestFile(f) ==>
               manifest + [RecordTestFile(f.name, f.path, index)] == [ManifestHeader] + ManifestOf(files[..i + 1], index) &&
               saved + [SavedFile(f.name, Rewrite(allowList, f).value)] == SavedOf(allowList, files[..i + 1]) &&
               rows + Rewrite(allowList, f).rows == base + RowsOf(allowList, files[..i + 1])) &&
            (!IsTestFile(f) ==>
               manifest == [ManifestHeader] + ManifestOf(files[..i + 1], index) &&
               saved == SavedOf(allowList, files[..i + 1]) &&
               rows == base + RowsOf(allowList, files[..i + 1]))
  {
    PrefixExtend(files, i);
    var f := files[i];
    if IsTestFile(f) {
      AppendAssoc(base, RowsOf(allowList, files[..i]), Rewrite(allowList, f).rows);
      AppendAssoc([ManifestHeader], ManifestOf(files[..i], index), [RecordTestFile(f.name, f.path, index)]);
    } else {
      AppendAssoc(base, RowsOf(allowList, files[..i]), []);
    }
  }

  class ModifyAllTestFilesAction {
    /** The rows of the instantiation sheet, the header included. */
    var records: seq<Row>
    /** The allow-list of basic types the rewriter leaves alone. */
    const basicTypes: seq<string>

    constructor ()
      ensures records == [] && basicTypes == BasicTypeList
    {
      records := [];
      basicTypes := BasicTypeList;
    }

    /** Records one instantiation, unless its class is basic, then tries the
        replacement by the placeholder. */
    method RecordAndReplaceExpression(e: Node, fileName: string, methodName: string, className: string,
                                      isMocked: bool, attached: bool) returns (r: Node)
      modifies this
      ensures var w := RecordAndReplace(basicTypes, e, fileName, methodName, className, isMocked, attached);
              r == w.value && records == old(records) + w.rows
    {
      if IsBasicType(basicTypes, Some(TypeByName(className))) {
        return e;
      }
      records := records + [Row(fileName, methodName, className, BoolText(isMocked))];
      r := e;
      var body := InstantiateBody(className);
      if attached && LexesAsLiteralBody(body) {
        r := StrLit(body);
      }
    }

    method HandleInstantiationExpression(e: Node, fileName: string, methodName: string, attached: bool) returns (r: Node)
      modifies this
      ensures var w := HandleInstantiation(basicTypes, e, fileName, methodName, attached);
              r == w.value && records == old(records) + w.rows
    {
      r := e;
      match e
      case New(_, Some(c), _) =>
        r := RecordAndReplaceExpression(e, fileName, methodName, c, false, attached);
      case Call(_, _, _, xs) =>
        if IsMockedMethodCall(e) && |xs| == 1 && xs[0].ClassLit? {
          r := RecordAndReplaceExpression(e, fileName, methodName, xs[0].operand.canonical, true, attached);
        }
      case _ =>
    }

    /** The local-variable initializer rewrite. The cleaned-up type text holds
        only `[a-zA-Z0-9_.]`, so the factory always accepts the placeholder and
        the failure branch of the source never runs. */
    method ReplaceWithPseudoCode(v: Node) returns (r: Node)
      requires v.Local? && v.init.Some?
      ensures LexesAsLiteralBody(InstantiateBody(SanitizedTypeText(v.ty.presentable)))
      ensures r == Local(v.ty, v.name, Some(StrLit(InstantiateBody(SanitizedTypeText(v.ty.presentable)))))
    {
      var sanitizedType := Trim(Sanitize(v.ty.presentable));
      SanitizedPlaceholderLexes(v.ty.presentable);
      r := Local(v.ty, v.name, Some(StrLit(InstantiateBody(sanitizedType))));
    }

    method ProcessLocalVariable(v: Node, fileName: string, methodName: string, attached: bool) returns (r: Node)
      requires v.Local?
      modifies this
      ensures var w := LocalStep(basicTypes, v, fileName, methodName, attached);
              r == w.value && records == old(records) + w.rows
    {
      r := v;
      if !attached || v.init.None? {
        return;
      }
      if IsBasicType(basicTypes, Some(v.ty)) {
        return;
      }
      var className := v.ty.canonical;
      var initText := Text(v.init.value);
      var isMocked := StartsWith(initText, "Mockito.mock(") || StartsWith(initText, "mock(");
      records := records + [Row(fileName, methodName, className, BoolText(isMocked))];
      r := ReplaceWithPseudoCode(v);
    }

    /** One declared element: a local variable is processed, anything else
        is kept as it is. */
    method ProcessDeclaredElement(x: Node, fileName: string, methodName: string, attached: bool)
      returns (r: Node)
      modifies this
      ensures var w := DeclaredStep(basicTypes, x, fileName, methodName, attached);
              r == w.value && records == old(records) + w.rows
    {
      r := x;
      if x.Local? {
        r := ProcessLocalVariable(x, fileName, methodName, attached);
      }
    }

    /** The declared elements of a declaration statement, in order. */
    method ProcessDeclaredElements(es: seq<Node>, fileName: string, methodName: string, attached: bool)
      returns (r: seq<Node>)
      modifies this
      ensures var w := LocalsStep(basicTypes, es, fileName, methodName, attached);
              r == w.value && records == old(records) + w.rows
    {
      r := [];
      var i := 0;
      while i < |es|
        invariant 0 <= i <= |es|
        invariant var w := LocalsStep(basicTypes, es[..i], fileName, methodName, attached);
                  r == w.value && records == old(records) + w.rows
      {
        LocalsLoopStep(basicTypes, es, i, fileName, methodName, attached, r, old(records), records);
        var x := ProcessDeclaredElement(es[i], fileName, methodName, attached);
        r := r + [x];
        i := i + 1;
      }
      assert es[..|es|] == es;
    }

    /** The element's own step: a declaration statement has its locals
        processed, an assignment its right-hand side. */
    method ProcessOwnStep(n: Node, fileName: string, methodName: string, attached: bool) returns (s: Node)
      modifies this
      ensures var w := Step(basicTypes, n, fileName, methodName, attached);
              s == w.value && records == old(records) + w.rows
    {
      s := n;
      match n {
        case Decl(es) =>
          var es' := ProcessDeclaredElements(es, fileName, methodName, attached);
          s := Decl(es');
        case Assign(t, l, Some(x)) =>
          var x' := HandleInstantiationExpression(x, fileName, methodName, attached);
          s := Assign(t, l, Some(x'));
        case _ =>
      }
    }

    /** The pre-order walk: the element's own step, then each of its children
        as the step left them. */
    method ProcessPsiElement(n: Node, fileName: string, methodName: string, attached: bool) returns (r: Node)
      modifies this
      ensures var w := Process(basicTypes, n, fileName, methodName, attached);
              r == w.value && records == old(records) + w.rows
      decreases Size(n), 0
    {
      var s := ProcessOwnStep(n, fileName, methodName, attached);
      ghost var afterStep := records;
      ChildrenSize(s);
      var out := ProcessChildren(Children(s), fileName, methodName, attached);
      ProcessFromParts(basicTypes, n, fileName, methodName, attached, old(records), afterStep, out, records);
      r := WithChildren(s, out);
    }

    /** The walk of each child in turn. */
    method ProcessChildren(cs: seq<Node>, fileName: string, methodName: string, attached: bool)
      returns (out: seq<Node>)
      modifies this
      ensures var w := ProcessSeq(basicTypes, cs, fileName, methodName, attached);
              out == w.value && records == old(records) + w.rows
      decreases SizeSeq(cs), 1
    {
      out := [];
      var i := 0;
      while i < |cs|
        invariant 0 <= i <= |cs|
        invariant var w := ProcessSeq(basicTypes, cs[..i], fileName, methodName, attached);
                  out == w.value && records == old(records) + w.rows
      {
        ElementSize(cs, i);
        ChildrenLoopStep(basicTypes, cs, i, fileName, methodName, attached, out, old(records), records);
        var c := ProcessPsiElement(cs[i], fileName, methodName, attached);
        out := out + [c];
        i := i + 1;
      }
      assert cs[..|cs|] == cs;
    }

    /** One child of a method body: first the Mockito pruner, then the walk.
        A child the pruner deleted is walked all the same, outside the tree. */
    method ModifyBodyChild(child: Node, fileName: string, methodName: string) returns (kept: Option<Node>)
      modifies this
      ensures Doomed(child) ==>
                kept.None? && records == old(records) + Process(basicTypes, child, fileName, methodName, false).rows
      ensures !Doomed(child) ==>
                var w := Process(basicTypes, Prune(child), fileName, methodName, true);
                kept == Some(w.value) && records == old(records) + w.rows
    {
      var pruned := FindAndRemoveMockitoCalls(child);
      if pruned.None? {
        var detached := ProcessPsiElement(child, fileName, methodName, false);
        kept := None;
      } else {
        var c := ProcessPsiElement(pruned.value, fileName, methodName, true);
        kept := Some(c);
      }
    }

    /** The statements of a method body, in order. */
    method ModifyMethodBody(body: seq<Node>, fileName: string, methodName: string) returns (r: seq<Node>)
      modifies this
      ensures var w := MethodBodyStep(basicTypes, body, fileName, methodName);
              r == w.value && records == old(records) + w.rows
    {
      r := [];
      var i := 0;
      while i < |body|
        invariant 0 <= i <= |body|
        invariant var w := MethodBodyStep(basicTypes, body[..i], fileName, methodName);
                  r == w.value && records == old(records) + w.rows
      {
        BodyLoopStep(basicTypes, body, i, fileName, methodName, r, old(records), records);
        var kept := ModifyBodyChild(body[i], fileName, methodName);
        if kept.Some? {
          r := r + [kept.value];
        }
        i := i + 1;
      }
      assert body[..|body|] == body;
    }

    method ReplaceMockFieldWithPseudoCode(f: Field, fileName: string) returns (r: Field)
      modifies this
      ensures var w := ReplaceMockField(basicTypes, f, fileName);
              r == w.value && records == old(records) + w.rows
    {
      r := f;
      if IsBasicType(basicTypes, Some(f.ty)) {
        return;
      }
      var className := f.ty.canonical;
      var body := InstantiateBody(className);
      if LexesAsLiteralBody(body) {
        r := Field([], [], f.ty, f.name, Some(StrLit(body)));
        records := records + [Row(fileName, ClassLevel, className, "true")];
      }
    }

    method ModifyMockFields(fields: seq<Field>, fileName: string) returns (r: seq<Field>)
      modifies this
      ensures var w := MockFieldsStep(basicTypes, fields, fileName);
              r == w.value && records == old(records) + w.rows
    {
      r := [];
      var i := 0;
      while i < |fields|
        invariant 0 <= i <= |fields|
        invariant var w := MockFieldsStep(basicTypes, fields[..i], fileName);
                  r == w.value && records == old(records) + w.rows
      {
        var f := fields[i];
        FieldsLoopStep(basicTypes, fields, i, fileName, r, old(records), records);
        var mock := CheckMockAnnotation(f);
        if mock {
          f := ReplaceMockFieldWithPseudoCode(f, fileName);
        }
        r := r + [f];
        i := i + 1;
      }
      assert fields[..|fields|] == fields;
    }

    /** The scan over a field's annotations for `@org.mockito.Mock`, stopping
        at the first one. */
    method CheckMockAnnotation(f: Field) returns (b: bool)
      ensures b <==> HasMockAnnotation(f)
    {
      var k := 0;
      while k < |f.annotations|
        invariant 0 <= k <= |f.annotations|
        invariant forall k' :: 0 <= k' < k ==> f.annotations[k'] != "org.mockito.Mock"
      {
        if f.annotations[k] == "org.mockito.Mock" {
          return true;
        }
        k := k + 1;
      }
      return false;
    }

    /** Every method of a class that has a body, in order. */
    method ModifyMethods(methods: seq<Method>, fileName: string) returns (r: seq<Method>)
      modifies this
      ensures var w := MethodsStep(basicTypes, methods, fileName);
              r == w.value && records == old(records) + w.rows
    {
      r := [];
      var j := 0;
      while j < |methods|
        invariant 0 <= j <= |methods|
        invariant var w := MethodsStep(basicTypes, methods[..j], fileName);
                  r == w.value && records == old(records) + w.rows
      {
        var m := methods[j];
        MethodsLoopStep(basicTypes, methods, j, fileName, r, old(records), records);
        if m.body.Some? {
          var b := ModifyMethodBody(m.body.value, fileName, m.name);
          m := Method(m.name, m.annotations, Some(b));
        }
        r := r + [m];
        j := j + 1;
      }
      assert methods[..|methods|] == methods;
    }

    /** The copy of a test file, rewritten class by class: `@Mock` fields
        first, then method bodies. A copy that is not a Java file is handed
        back as the original text. */
    method CreateModifiedContent(fileName: string, original: string, reparsed: Option<JavaFile>) returns (c: Content)
      modifies this
      ensures var w := ModifiedContent(basicTypes, fileName, original, reparsed);
              c == w.value && records == old(records) + w.rows
    {
      if reparsed.None? {
        return Original(original);
      }
      var classes := reparsed.value.classes;
      var out: seq<Class> := [];
      var i := 0;
      while i < |classes|
        invariant 0 <= i <= |classes|
        invariant var w := ClassesStep(basicTypes, classes[..i], fileName);
                  out == w.value && records == old(records) + w.rows
      {
        var k := classes[i];
        ClassesLoopStep(basicTypes, classes, i, fileName, out, old(records), records);
        var fields := ModifyMockFields(k.fields, fileName);
        var methods := ModifyMethods(k.methods, fileName);
        out := out + [Class(k.name, fields, methods)];
        i := i + 1;
      }
      assert classes[..|classes|] == classes;
      c := Rewritten(JavaFile(out));
    }

    /** One run of the action as written: the list of rows belongs to the
        action object and is never emptied, so a second run on the same object
        appends a second header after the first run's rows. Returns the
        manifest (header first), the rewritten copies and the saved sheet. */
    method ActionPerformedAsWritten(project: Option<Project>)
      returns (manifest: seq<ManifestRow>, saved: seq<SavedFile>, sheet: seq<Row>)
      modifies this
      ensures project.None? ==> records == old(records) && manifest == [] && saved == [] && sheet == []
      ensures project.Some? ==>
                records == SheetAfterRun(basicTypes, old(records), project.value) && sheet == records &&
                manifest == [ManifestHeader] + ManifestOf(project.value.files, Index(project.value.files)) &&
                saved == SavedOf(basicTypes, project.value.files)
    {
      if project.None? {
        return [], [], [];
      }
      records := records + [Header];
      manifest, saved := RunFiles(project.value);
      sheet := records;
    }

    /** One run that starts its sheet from nothing, as a list per run would:
        the sheet holds one header and only this run's rows. */
    method ActionPerformed(project: Option<Project>)
      returns (manifest: seq<ManifestRow>, saved: seq<SavedFile>, sheet: seq<Row>)
      modifies this
      ensures project.None? ==> records == old(records) && manifest == [] && saved == [] && sheet == []
      ensures project.Some? ==>
                records == SheetAfterRun(basicTypes, [], project.value) && sheet == records &&
                manifest == [ManifestHeader] + ManifestOf(project.value.files, Index(project.value.files)) &&
                saved == SavedOf(basicTypes, project.value.files)
    {
      if project.None? {
        return [], [], [];
      }
      records := [Header];
      manifest, saved := RunFiles(project.value);
      sheet := records;
    }

    /** The loop over the project's files shared by both runs: each Java file
        with a test gets its manifest row and its rewritten copy. */
    method RunFiles(p: Project) returns (manifest: seq<ManifestRow>, saved: seq<SavedFile>)
      modifies this
      ensures records == old(records) + RowsOf(basicTypes, p.files)
      ensures manifest == [ManifestHeader] + ManifestOf(p.files, Index(p.files))
      ensures saved == SavedOf(basicTypes, p.files)
    {
      var files := p.files;
      var index := Index(files);
      manifest := [ManifestHeader];
      saved := [];
      var i := 0;
      while i < |files|
        invariant 0 <= i <= |files|
        invariant records == old(records) + RowsOf(basicTypes, files[..i])
        invariant manifest == [ManifestHeader] + ManifestOf(files[..i], index)
        invariant saved == SavedOf(basicTypes, files[..i])
      {
        var f := files[i];
        FilesLoopStep(basicTypes, files, i, index, manifest, saved, old(records), records);
        if f.java.Some? {
          var isTest := ContainsTestAnnotation(f.java.value);
          if isTest {
            manifest := manifest + [RecordTestFile(f.name, f.path, index)];
            var content := CreateModifiedContent(f.name, f.text, f.java);
            saved := saved + [SavedFile(f.name, content)];
          }
        }
        i := i + 1;
      }
      assert files[..|files|] == files;
    }
  }
}
