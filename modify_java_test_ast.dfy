/** The single-file action: a copy of the selected Java file in which every
    local variable declared by a declaration statement directly in a method
    body gets the placeholder literal `"<Instantiate T>"` as its initializer,
    T being the variable's presentable type text exactly as the IDE renders
    it. There is no allow-list, no Mockito pruning and no sheet of rows. */
module ModifyJavaTestAst {
  import opened Syntax
  import opened Strings
  import opened Seqs
  import opened Placeholder
  import Instantiation
  import TypeClassifier

  // All-or-nothing rewriting of a sequence: the element factory throws on a
  // placeholder it rejects, nothing catches the exception, and the action
  // ends without writing anything. A rewrite that can fail therefore gives
  // an Option, and a sequence is rewritten only if every element is.

  function MapAll<T, U>(f: T -> Option<U>, xs: seq<T>): (r: Option<seq<U>>)
    ensures r.Some? ==> |r.value| == |xs|
  {
    if xs == [] then Some([])
    else
      var front := MapAll(f, xs[..|xs| - 1]);
      var last := f(xs[|xs| - 1]);
      if front.Some? && last.Some? then Some(front.value + [last.value]) else None
  }

  /** A completed rewrite is the element-wise rewrite. */
  lemma {:induction false} MapAllSome<T, U>(f: T -> Option<U>, xs: seq<T>)
    ensures MapAll(f, xs).Some? ==> forall i :: 0 <= i < |xs| ==> f(xs[i]) == Some(MapAll(f, xs).value[i])
  {
    if xs != [] {
      MapAllSome(f, xs[..|xs| - 1]);
    }
  }

  /** The rewrite fails exactly when some element's rewrite fails. */
  lemma {:induction false} MapAllNone<T, U>(f: T -> Option<U>, xs: seq<T>)
    ensures MapAll(f, xs).None? <==> exists i :: 0 <= i < |xs| && f(xs[i]).None?
  {
    if xs != [] {
      var front := xs[..|xs| - 1];
      MapAllNone(f, front);
      if exists i :: 0 <= i < |front| && f(front[i]).None? {
        var i :| 0 <= i < |front| && f(front[i]).None?;
        assert xs[i] == front[i];
      }
      if exists i :: 0 <= i < |xs| && f(xs[i]).None? {
        var i :| 0 <= i < |xs| && f(xs[i]).None?;
        if i < |front| {
          assert xs[i] == front[i];
        }
      }
    }
  }

  /** Carries a loop over `xs` that has rewritten `xs[..i]` into `acc` over
      one more element. */
  lemma MapAllStep<T, U>(f: T -> Option<U>, xs: seq<T>, i: nat, acc: seq<U>)
    requires i < |xs| && MapAll(f, xs[..i]) == Some(acc)
    ensures f(xs[i]).Some? ==> MapAll(f, xs[..i + 1]) == Some(acc + [f(xs[i]).value])
    ensures f(xs[i]).None? ==> MapAll(f, xs) == None
  {
    PrefixExtend(xs, i);
    if f(xs[i]).None? {
      MapAllNone(f, xs);
    }
  }

  // What the action does to one element, statement, method and class.

  /** The placeholder a local variable's initializer is replaced by, or None
      when the factory rejects it. */
  function PlaceholderFor(t: JType): (r: Option<Node>)
    ensures r.Some? <==> LexesAsLiteralBody(InstantiateBody(t.presentable))
    ensures r.Some? ==> r.value.StrLit? && TypeTextOf(r.value.value) == Some(t.presentable)
  {
    PlaceholderRoundTrip(t.presentable);
    var body := InstantiateBody(t.presentable);
    if LexesAsLiteralBody(body) then Some(StrLit(body)) else None
  }

  /** A declared element: a local variable with an initializer gets the
      placeholder, keeping its type and name; anything else is kept. */
  function RewriteElement(x: Node): (r: Option<Node>)
    ensures !(x.Local? && x.init.Some?) ==> r == Some(x)
    ensures r.None? <==> Rejected(x)
    ensures r.Some? ==> ElementRewritten(x, r.value)
  {
    if x.Local? && x.init.Some? then
      var p := PlaceholderFor(x.ty);
      if p.Some? then Some(Local(x.ty, x.name, p)) else None
    else Some(x)
  }

  /** A direct child of a method body: only a declaration statement is
      rewritten, and only its own declared elements. Any other statement is
      kept whole, declarations nested inside it included. */
  function RewriteStatement(s: Node): Option<Node>
  {
    if s.Decl? then
      var es := MapAll(RewriteElement, s.elems);
      if es.Some? then Some(Decl(es.value)) else None
    else Some(s)
  }

  function RewriteBody(body: seq<Node>): (r: Option<seq<Node>>)
    ensures r.Some? ==> |r.value| == |body|
  {
    MapAll(RewriteStatement, body)
  }

  function RewriteMethod(m: Method): (r: Option<Method>)
    ensures r.None? <==> BodyAborts(m)
    ensures r.Some? ==> MethodRewritten(m, r.value)
  {
    if m.body.None? then Some(m)
    else
      var b := RewriteBody(m.body.value);
      if b.Some? then Some(Method(m.name, m.annotations, b)) else None
  }

  function RewriteClass(c: Class): (r: Option<Class>)
    ensures r.None? <==> exists j :: 0 <= j < |c.methods| && BodyAborts(c.methods[j])
    ensures r.Some? ==> ClassRewritten(c, r.value)
  {
    MapAllSome(RewriteMethod, c.methods);
    MapAllNone(RewriteMethod, c.methods);
    var ms := MapAll(RewriteMethod, c.methods);
    if ms.Some? then Some(Class(c.name, c.fields, ms.value)) else None
  }

  /** The content of the copy: the original text when the copy does not
      parse as a Java file; otherwise the rewritten tree, or None when a
      replacement aborted the action. */
  function ModifiedContent(original: string, reparsed: Option<JavaFile>): (r: Option<Content>)
    ensures reparsed.None? ==> r == Some(Original(original))
    ensures r.Some? && reparsed.Some? ==> r.value.Rewritten? && |r.value.file.classes| == |reparsed.value.classes|
    ensures r.Some? && reparsed.Some? ==>
              forall i :: 0 <= i < |reparsed.value.classes| ==>
                RewriteClass(reparsed.value.classes[i]) == Some(r.value.file.classes[i])
    ensures r.None? <==>
              reparsed.Some? && exists i :: 0 <= i < |reparsed.value.classes| && RewriteClass(reparsed.value.classes[i]).None?
  {
    if reparsed.None? then Some(Original(original))
    else
      MapAllSome(RewriteClass, reparsed.value.classes);
      MapAllNone(RewriteClass, reparsed.value.classes);
      var cs := MapAll(RewriteClass, reparsed.value.classes);
      if cs.Some? then Some(Rewritten(JavaFile(cs.value))) else None
  }

  // What the rewrite promises.

  /** How one declared element ends up after a completed rewrite. */
  predicate ElementRewritten(x: Node, y: Node)
  {
    if x.Local? && x.init.Some? then y == Local(x.ty, x.name, Some(StrLit(InstantiateBody(x.ty.presentable))))
    else y == x
  }

  /** A method whose body the action cannot complete. */
  predicate BodyAborts(m: Method)
  {
    m.body.Some? && RewriteBody(m.body.value).None?
  }

  /** `m'` is what a completed rewrite makes of `m`: name and annotations
      kept, no body stays no body, and a body becomes its `RewriteBody`. */
  predicate MethodRewritten(m: Method, m': Method)
  {
    && m'.name == m.name
    && m'.annotations == m.annotations
    && (m.body.None? ==> m'.body.None?)
    && (m.body.Some? ==> m'.body.Some? && RewriteBody(m.body.value) == Some(m'.body.value))
  }

  /** `c'` is what a completed rewrite makes of `c`: name and fields kept, and
      each method rewritten on its own. */
  predicate ClassRewritten(c: Class, c': Class)
  {
    && c'.name == c.name
    && c'.fields == c.fields
    && |c'.methods| == |c.methods|
    && forall j :: 0 <= j < |c.methods| ==> MethodRewritten(c.methods[j], c'.methods[j])
  }

  /** A completed rewrite of a parsed copy changes each method of each class
      on its own, its body becoming `RewriteBody` of the old body; the
      action aborts exactly when some method of some class has a body whose
      rewrite aborts. */
  lemma ModifiedContentPointwise(original: string, reparsed: Option<JavaFile>)
    ensures var r := ModifiedContent(original, reparsed);
            reparsed.Some? && r.Some? ==>
              forall i :: 0 <= i < |reparsed.value.classes| ==>
                ClassRewritten(reparsed.value.classes[i], r.value.file.classes[i])
    ensures var r := ModifiedContent(original, reparsed);
            var cs := if reparsed.Some? then reparsed.value.classes else [];
            r.None? <==>
              reparsed.Some? && exists i, j :: 0 <= i < |cs| && 0 <= j < |cs[i].methods| && BodyAborts(cs[i].methods[j])
  {
    if reparsed.Some? {
      var cs := reparsed.value.classes;
      var r := ModifiedContent(original, reparsed);
      if r.None? {
        var i :| 0 <= i < |cs| && RewriteClass(cs[i]).None?;
        var j :| 0 <= j < |cs[i].methods| && BodyAborts(cs[i].methods[j]);
      } else {
        forall i, j | 0 <= i < |cs| && 0 <= j < |cs[i].methods|
          ensures !BodyAborts(cs[i].methods[j])
        {
          assert RewriteClass(cs[i]).Some?;
        }
      }
    }
  }

  /** The placeholder of a local whose replacement the factory rejects. */
  predicate Rejected(x: Node)
  {
    x.Local? && x.init.Some? && !LexesAsLiteralBody(InstantiateBody(x.ty.presentable))
  }

  /** After a completed rewrite of a body: every statement other than a
      declaration statement is untouched, and in each declaration statement
      every local with an initializer holds the placeholder for its
      presentable type text, type and name kept, and every other element is
      untouched. No type is exempt. */
  lemma BodyRewritePointwise(body: seq<Node>)
    ensures var r := RewriteBody(body);
            r.Some? ==>
              |r.value| == |body| &&
              (forall i :: 0 <= i < |body| && !body[i].Decl? ==> r.value[i] == body[i]) &&
              (forall i :: 0 <= i < |body| && body[i].Decl? ==>
                 r.value[i].Decl? && |r.value[i].elems| == |body[i].elems| &&
                 forall j :: 0 <= j < |body[i].elems| ==> ElementRewritten(body[i].elems[j], r.value[i].elems[j]))
  {
    var r := RewriteBody(body);
    MapAllSome(RewriteStatement, body);
    if r.Some? {
      forall i | 0 <= i < |body| && body[i].Decl?
        ensures r.value[i].Decl? && |r.value[i].elems| == |body[i].elems| &&
                forall j :: 0 <= j < |body[i].elems| ==> ElementRewritten(body[i].elems[j], r.value[i].elems[j])
      {
        assert RewriteStatement(body[i]) == Some(r.value[i]);
        MapAllSome(RewriteElement, body[i].elems);
      }
    }
  }

  /** The action aborts on a body exactly when some local declared directly
      in it has an initializer and a presentable type text the factory
      cannot put in a string literal. */
  lemma BodyAbortsIffRejected(body: seq<Node>)
    ensures RewriteBody(body).None? <==>
            exists i, j :: 0 <= i < |body| && body[i].Decl? && 0 <= j < |body[i].elems| && Rejected(body[i].elems[j])
  {
    MapAllNone(RewriteStatement, body);
    forall i | 0 <= i < |body|
      ensures RewriteStatement(body[i]).None? <==>
              body[i].Decl? && exists j :: 0 <= j < |body[i].elems| && Rejected(body[i].elems[j])
    {
      if body[i].Decl? {
        MapAllNone(RewriteElement, body[i].elems);
        forall j | 0 <= j < |body[i].elems|
          ensures RewriteElement(body[i].elems[j]).None? <==> Rejected(body[i].elems[j])
        {
        }
      }
    }
  }

  /** A presentable type text without double quotes, backslashes or line
      breaks always gives an accepted placeholder. */
  lemma PlainTypeTextLexes(typeText: string)
    requires NoLiteralBreakers(typeText)
    ensures LexesAsLiteralBody(InstantiateBody(typeText))
  {
    var b := InstantiateBody(typeText);
    forall i | 0 <= i < |b|
      ensures b[i] != '"' && b[i] != '\\' && b[i] != '\n' && b[i] != '\r'
    {
      if |Prefix| <= i < |Prefix| + |typeText| {
        assert b[i] == typeText[i - |Prefix|];
      }
    }
    PlainTextLexes(b);
  }

  /** So a body whose directly declared locals all have plain type texts is
      always rewritten. */
  lemma PlainTypesNeverAbort(body: seq<Node>)
    requires forall i, j :: 0 <= i < |body| && body[i].Decl? && 0 <= j < |body[i].elems| && body[i].elems[j].Local? ==>
               NoLiteralBreakers(body[i].elems[j].ty.presentable)
    ensures RewriteBody(body).Some?
  {
    BodyAbortsIffRejected(body);
    forall i, j | 0 <= i < |body| && body[i].Decl? && 0 <= j < |body[i].elems|
      ensures !Rejected(body[i].elems[j])
    {
      if body[i].elems[j].Local? {
        PlainTypeTextLexes(body[i].elems[j].ty.presentable);
      }
    }
  }

  /** Without the clean-up of the batch action, a directly declared local
      whose type text holds a bare double quote aborts the whole action. */
  lemma QuotedTypeAborts(body: seq<Node>, i: nat, j: nat, k: nat)
    requires i < |body| && body[i].Decl? && j < |body[i].elems|
    requires var x := body[i].elems[j];
             x.Local? && x.init.Some? && k < |x.ty.presentable| && x.ty.presentable[k] == '"' &&
             forall c :: 0 <= c < |x.ty.presentable| ==> x.ty.presentable[c] != '\\'
    ensures RewriteBody(body) == None
  {
    var x := body[i].elems[j];
    QuoteBreaksPlaceholder(x.ty.presentable, k);
    assert Rejected(x);
    BodyAbortsIffRejected(body);
  }

  /** Unlike the batch action, which leaves a primitive or allow-listed local
      as it is, this action replaces its initializer too. */
  lemma NoBasicTypeExemption(x: Node, fileName: string, methodName: string)
    requires x.Local? && x.init.Some? && x.init.value != StrLit(InstantiateBody(x.ty.presentable))
    requires TypeClassifier.IsBasicType(TypeClassifier.BasicTypeList, Some(x.ty)) && NoLiteralBreakers(x.ty.presentable)
    ensures Instantiation.LocalStep(TypeClassifier.BasicTypeList, x, fileName, methodName, true).value == x
    ensures RewriteElement(x).Some? && RewriteElement(x).value != x
  {
    PlainTypeTextLexes(x.ty.presentable);
  }

  // The imperative rewrite, as the action runs it on the parsed copy.

  /** The placeholder initializer for one local variable; None where the
      element factory would throw. */
  method ReplaceWithPseudoCode(v: Node) returns (r: Option<Node>)
    requires v.Local? && v.init.Some?
    ensures r == RewriteElement(v)
    ensures r.Some? ==> ElementRewritten(v, r.value)
    ensures r.None? <==> Rejected(v)
  {
    var body := Prefix + v.ty.presentable + ">";
    if !LexesAsLiteralBody(body) {
      return None;
    }
    r := Some(Local(v.ty, v.name, Some(StrLit(body))));
  }

  /** The loop over the declaration statements that are direct children of
      the body. None when a replacement throws. */
  method ModifyMethodBody(body: seq<Node>) returns (r: Option<seq<Node>>)
    ensures r == RewriteBody(body)
  {
    var out: seq<Node> := [];
    var i := 0;
    while i < |body|
      invariant 0 <= i <= |body|
      invariant MapAll(RewriteStatement, body[..i]) == Some(out)
    {
      var s := body[i];
      MapAllStep(RewriteStatement, body, i, out);
      if s.Decl? {
        var elems := ModifyDeclaredElements(s.elems);
        if elems.None? {
          return None;
        }
        s := Decl(elems.value);
      }
      out := out + [s];
      i := i + 1;
    }
    assert body[..|body|] == body;
    r := Some(out);
  }

  /** The inner loop over one declaration statement's declared elements: each
      local variable with an initializer is replaced. None when a replacement
      throws. */
  method ModifyDeclaredElements(es: seq<Node>) returns (r: Option<seq<Node>>)
    ensures r == MapAll(RewriteElement, es)
  {
    var elems: seq<Node> := [];
    var j := 0;
    while j < |es|
      invariant 0 <= j <= |es|
      invariant MapAll(RewriteElement, es[..j]) == Some(elems)
    {
      var x := es[j];
      MapAllStep(RewriteElement, es, j, elems);
      if x.Local? && x.init.Some? {
        var replaced := ReplaceWithPseudoCode(x);
        if replaced.None? {
          return None;
        }
        x := replaced.value;
      }
      elems := elems + [x];
      j := j + 1;
    }
    assert es[..|es|] == es;
    r := Some(elems);
  }

  /** Every method with a body, of every class of the parsed copy. */
  method CreateModifiedContent(original: string, reparsed: Option<JavaFile>) returns (c: Option<Content>)
    ensures c == ModifiedContent(original, reparsed)
  {
    if reparsed.None? {
      return Some(Original(original));
    }
    var classes := reparsed.value.classes;
    var out: seq<Class> := [];
    var i := 0;
    while i < |classes|
      invariant 0 <= i <= |classes|
      invariant MapAll(RewriteClass, classes[..i]) == Some(out)
    {
      var k := classes[i];
      MapAllStep(RewriteClass, classes, i, out);
      var methods: seq<Method> := [];
      var j := 0;
      while j < |k.methods|
        invariant 0 <= j <= |k.methods|
        invariant MapAll(RewriteMethod, k.methods[..j]) == Some(methods)
      {
        var m := k.methods[j];
        MapAllStep(RewriteMethod, k.methods, j, methods);
        if m.body.Some? {
          var b := ModifyMethodBody(m.body.value);
          if b.None? {
            return None;
          }
          m := Method(m.name, m.annotations, b);
        }
        methods := methods + [m];
        j := j + 1;
      }
      assert k.methods[..|k.methods|] == k.methods;
      out := out + [Class(k.name, k.fields, methods)];
      i := i + 1;
    }
    assert classes[..|classes|] == classes;
    c := Some(Rewritten(JavaFile(out)));
  }

  // The action around the rewrite.

  /** The selected file: the path of its directory and its name. */
  datatype VirtualFile = VirtualFile(parentPath: string, name: string)

  /** The file the action writes: where, and what. */
  datatype OutputFile = OutputFile(path: string, content: Content)

  /** The IDE's file extension: the text after the last '.', None when the
      name has no '.'. */
  function Extension(name: string): (r: Option<string>)
    ensures r.None? <==> forall i :: 0 <= i < |name| ==> name[i] != '.'
    ensures r.Some? ==> |r.value| < |name| && name[|name| - |r.value| - 1] == '.' &&
                        name[|name| - |r.value|..] == r.value &&
                        forall i :: 0 <= i < |r.value| ==> r.value[i] != '.'
  {
    if name == [] then None
    else
      var c := name[|name| - 1];
      var front := name[..|name| - 1];
      if c == '.' then Some([])
      else
        var e := Extension(front);
        if e.None? then
          assert forall i :: 0 <= i < |front| ==> name[i] == front[i];
          None
        else
          assert name[|name| - |e.value| - 2] == front[|front| - |e.value| - 1];
          assert name[|name| - |e.value| - 1..] == front[|front| - |e.value|..] + [c];
          Some(e.value + [c])
  }

  /** Any name of the form `X.java` passes the extension check, whatever X is. */
  lemma JavaNamesPass(x: string)
    ensures Extension(x + ".java") == Some("java")
  {
    var name := x + ".java";
    assert name[|x|] == '.';
    assert name[|name| - 4..] == "java";
  }

  /** The check is case-sensitive: an upper-case extension is not Java. */
  lemma UpperCaseExtensionFails(x: string)
    ensures Extension(x + ".JAVA") != Some("java")
  {
    assert (x + ".JAVA")[|x| + 1..] == "JAVA";
  }

  /** Where the copy goes: beside the original, named `Modified_` + its name. */
  function ModifiedPath(f: VirtualFile): (p: string)
    ensures StartsWith(p, f.parentPath + "/Modified_") && EndsWith(p, f.name)
    ensures |p| == |f.parentPath| + |"/Modified_"| + |f.name|
  {
    var p := f.parentPath + "/Modified_" + f.name;
    assert p[..|f.parentPath + "/Modified_"|] == f.parentPath + "/Modified_";
    assert p[|p| - |f.name|..] == f.name;
    p
  }

  /** One run: no project, no selected file, a selected file whose extension
      is not exactly "java", or no syntax tree for it, and nothing is
      written; likewise when a replacement aborts. Otherwise the copy is
      written beside the original. `psiText` is the text of the file's tree,
      `reparsed` what the IDE parses that text into. */
  method ActionPerformed(projectOpen: bool, file: Option<VirtualFile>, psiText: Option<string>,
                         reparsed: Option<JavaFile>) returns (written: Option<OutputFile>)
    ensures written.Some? <==>
              projectOpen && file.Some? && Extension(file.value.name) == Some("java") && psiText.Some? &&
              ModifiedContent(psiText.value, reparsed).Some?
    ensures written.Some? ==>
              written.value == OutputFile(ModifiedPath(file.value), ModifiedContent(psiText.value, reparsed).value)
  {
    if !projectOpen {
      return None;
    }
    if file.None? || Extension(file.value.name) != Some("java") {
      return None;
    }
    if psiText.None? {
      return None;
    }
    var content := CreateModifiedContent(psiText.value, reparsed);
    if content.None? {
      return None;
    }
    written := Some(OutputFile(ModifiedPath(file.value), content.value));
  }
}
