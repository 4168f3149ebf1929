/** The part of a Java syntax tree that the test-file rewriters look at.
    The IDE hands over an already-parsed tree; its node kinds that matter to the
    rewriters get a constructor of their own and every other element (blocks,
    loops, lambdas, references, tokens) is an `Other` node with its children.
    Expression nodes carry the source text the IDE reports for them. */
module Syntax {

  datatype Option<T> = None | Some(value: T)

  /** A resolved Java type as the IDE renders it: the canonical (fully qualified,
      with generic arguments) text, the presentable (unqualified) text, and
      whether it is one of the primitive types. */
  datatype JType = JType(canonical: string, presentable: string, primitive: bool)

  datatype Node =
    | Decl(elems: seq<Node>)                                   // declaration statement
    | Local(ty: JType, name: string, init: Option<Node>)       // local variable
    | ExprStmt(expr: Node)                                     // expression statement
    | Assign(text: string, lhs: Node, rhs: Option<Node>)       // assignment expression
    | New(text: string, classRef: Option<string>, args: seq<Node>)  // `new` expression, qualified class name
    | Call(text: string, qualifier: Option<Node>, name: string, args: seq<Node>)  // method call
    | ClassLit(text: string, operand: JType)                   // `X.class`
    | StrLit(value: string)                                    // string literal, without its quotes
    | Other(text: string, children: seq<Node>)

  datatype Field = Field(annotations: seq<string>, modifiers: seq<string>, ty: JType, name: string, init: Option<Node>)
  datatype Method = Method(name: string, annotations: seq<string>, body: Option<seq<Node>>)
  datatype Class = Class(name: string, fields: seq<Field>, methods: seq<Method>)
  datatype JavaFile = JavaFile(classes: seq<Class>)

  /** What a rewriter hands back for a file: the original text when the copy
      did not parse as a Java file, otherwise the rewritten tree (its printing
      back to text is not modelled). */
  datatype Content = Original(text: string) | Rewritten(file: JavaFile)

  /** The source text of an expression. Declarations and statements never stand
      where the rewriters read text (an initializer or a call qualifier). */
  function Text(n: Node): string
  {
    match n
    case Assign(t, _, _) => t
    case New(t, _, _) => t
    case Call(t, _, _, _) => t
    case ClassLit(t, _) => t
    case StrLit(v) => "\"" + v + "\""
    case Other(t, _) => t
    case _ => ""
  }

  function OptSeq(o: Option<Node>): (r: seq<Node>)
    ensures |r| <= 1
  {
    if o.Some? then [o.value] else []
  }

  /** The child elements in source order, as the IDE's getChildren lists the
      elements that can hold further nodes. */
  function Children(n: Node): seq<Node>
  {
    match n
    case Decl(es) => es
    case Local(_, _, i) => OptSeq(i)
    case ExprStmt(e) => [e]
    case Assign(_, l, r) => [l] + OptSeq(r)
    case New(_, _, xs) => xs
    case Call(_, q, _, xs) => OptSeq(q) + xs
    case ClassLit(_, _) => []
    case StrLit(_) => []
    case Other(_, cs) => cs
  }

  /** The node with its children replaced position by position. */
  function WithChildren(n: Node, cs: seq<Node>): (r: Node)
    requires |cs| == |Children(n)|
    ensures Children(r) == cs
    ensures r.Local? ==> n.Local? && r.ty == n.ty && r.name == n.name
  {
    match n
    case Decl(_) => Decl(cs)
    case Local(t, x, i) => Local(t, x, if i.Some? then Some(cs[0]) else None)
    case ExprStmt(_) => ExprStmt(cs[0])
    case Assign(t, _, r) =>
      if r.Some? then
        assert cs == [cs[0]] + [cs[1]];
        Assign(t, cs[0], Some(cs[1]))
      else Assign(t, cs[0], None)
    case New(t, c, _) => New(t, c, cs)
    case Call(t, q, m, _) =>
      if q.Some? then
        assert cs == [cs[0]] + cs[1..];
        Call(t, Some(cs[0]), m, cs[1..])
      else Call(t, None, m, cs)
    case ClassLit(_, _) => n
    case StrLit(_) => n
    case Other(t, _) => Other(t, cs)
  }

  lemma WithOwnChildren(n: Node)
    ensures WithChildren(n, Children(n)) == n
  {
    match n
    case Call(t, q, m, xs) =>
      if q.Some? { assert Children(n)[1..] == xs; }
    case _ =>
  }

  /** The element reached from `n` by following the child indices in `p`, or
      None when an index is out of range. */
  function SubtreeAt(n: Node, p: seq<nat>): Option<Node>
    decreases |p|
  {
    if p == [] then Some(n)
    else if p[0] < |Children(n)| then SubtreeAt(Children(n)[p[0]], p[1..])
    else None
  }

  // Sizes, used to show that the recursive walks terminate.

  function Size(n: Node): (s: nat)
    ensures s >= 1
  {
    match n
    case Decl(es) => 1 + SizeSeq(es)
    case Local(_, _, i) => 1 + SizeOpt(i)
    case ExprStmt(e) => 1 + Size(e)
    case Assign(_, l, r) => 1 + Size(l) + SizeOpt(r)
    case New(_, _, xs) => 1 + SizeSeq(xs)
    case Call(_, q, _, xs) => 1 + SizeOpt(q) + SizeSeq(xs)
    case ClassLit(_, _) => 1
    case StrLit(_) => 1
    case Other(_, cs) => 1 + SizeSeq(cs)
  }

  function SizeOpt(o: Option<Node>): nat
  {
    match o
    case None => 0
    case Some(x) => Size(x)
  }

  function SizeSeq(cs: seq<Node>): nat
  {
    if cs == [] then 0 else SizeSeq(cs[..|cs| - 1]) + Size(cs[|cs| - 1])
  }

  lemma {:induction false} SizeSeqConcat(a: seq<Node>, b: seq<Node>)
    ensures SizeSeq(a + b) == SizeSeq(a) + SizeSeq(b)
    decreases |b|
  {
    if b == [] {
      assert a + b == a;
    } else {
      var ab := a + b;
      assert ab[..|ab| - 1] == a + b[..|b| - 1];
      assert ab[|ab| - 1] == b[|b| - 1];
      SizeSeqConcat(a, b[..|b| - 1]);
    }
  }

  lemma SizeOptSeq(o: Option<Node>)
    ensures SizeSeq(OptSeq(o)) == SizeOpt(o)
  {
    if o.Some? {
      assert OptSeq(o)[..0] == [];
    }
  }

  lemma ChildrenSize(n: Node)
    ensures SizeSeq(Children(n)) == Size(n) - 1
  {
    match n
    case Local(_, _, i) => SizeOptSeq(i);
    case ExprStmt(e) => SizeOptSeq(Some(e));
    case Assign(_, l, r) =>
      SizeOptSeq(Some(l)); SizeOptSeq(r); SizeSeqConcat([l], OptSeq(r));
    case Call(_, q, _, xs) =>
      SizeOptSeq(q); SizeSeqConcat(OptSeq(q), xs);
    case _ =>
  }

  lemma {:induction false} ElementSize(cs: seq<Node>, k: nat)
    requires k < |cs|
    ensures Size(cs[k]) <= SizeSeq(cs)
    decreases |cs|
  {
    if k < |cs| - 1 {
      ElementSize(cs[..|cs| - 1], k);
    }
  }

  /** Every child is strictly smaller than its parent. */
  lemma ChildSmaller(n: Node, k: nat)
    requires k < |Children(n)|
    ensures Size(Children(n)[k]) < Size(n)
  {
    ChildrenSize(n);
    ElementSize(Children(n), k);
  }
}
