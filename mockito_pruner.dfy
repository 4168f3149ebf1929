/** The Mockito-call pruner: deletes every expression statement whose call is
    a stubbing (`when…`) or verification (`verify…`) call, searching the tree
    from the top but never looking inside a call. */
module MockitoPruner {
  import opened Syntax
  import opened Strings
  import opened Seqs

  /** A stubbing name is `when` or `Mockito.when` followed by anything. */
  predicate IsMockitoStubbing(fullMethodName: string): (b: bool)
    ensures b <==> (exists t :: fullMethodName == "Mockito.when" + t) || (exists t :: fullMethodName == "when" + t)
  {
    StartsWithIsPrefix(fullMethodName, "Mockito.when");
    StartsWithIsPrefix(fullMethodName, "when");
    StartsWith(fullMethodName, "Mockito.when") || StartsWith(fullMethodName, "when")
  }

  /** A verification name is `verify` or `Mockito.verify` followed by anything. */
  predicate IsMockitoAsserting(fullMethodName: string): (b: bool)
    ensures b <==> (exists t :: fullMethodName == "Mockito.verify" + t) || (exists t :: fullMethodName == "verify" + t)
  {
    StartsWithIsPrefix(fullMethodName, "Mockito.verify");
    StartsWithIsPrefix(fullMethodName, "verify");
    StartsWith(fullMethodName, "Mockito.verify") || StartsWith(fullMethodName, "verify")
  }

  /** The tests are bare prefix tests: a name that merely starts like a
      stubbing or a verification, such as `whenever` or `verifyAll`, counts. */
  lemma PrefixTestsMatchLongerNames(suffix: string)
    ensures IsMockitoStubbing("when" + suffix) && IsMockitoStubbing("Mockito.when" + suffix)
    ensures IsMockitoAsserting("verify" + suffix) && IsMockitoAsserting("Mockito.verify" + suffix)
  {
    assert ("when" + suffix)[..4] == "when";
    assert ("Mockito.when" + suffix)[..12] == "Mockito.when";
    assert ("verify" + suffix)[..6] == "verify";
    assert ("Mockito.verify" + suffix)[..14] == "Mockito.verify";
  }

  /** The qualifier's source text, a dot and the method name; the name alone
      for an unqualified call. */
  function FullMethodName(call: Node): string
    requires call.Call?
  {
    if call.qualifier.Some? then Text(call.qualifier.value) + "." + call.name else call.name
  }

  predicate IsMockitoCall(n: Node)
  {
    n.Call? && (IsMockitoStubbing(FullMethodName(n)) || IsMockitoAsserting(FullMethodName(n)))
  }

  /** An expression statement made of a stubbing or verification call: the
      pruner deletes it from the element that holds it. */
  predicate Doomed(n: Node)
  {
    n.ExprStmt? && IsMockitoCall(n.expr)
  }

  /** The pruned element, or None when the element itself was deleted. */
  function PruneElement(n: Node): Option<Node>
    decreases n, 1
  {
    if Doomed(n) then None else Some(Prune(n))
  }

  /** The pruned tree. A call is left as it is, matched or not. A statement in
      a list (or in an optional slot) is removed when doomed. The mandatory
      slots (the expression of an expression statement, the target of an
      assignment) cannot hold a statement in Java, so they are only descended into. */
  function Prune(n: Node): Node
    decreases n, 0
  {
    match n
    case Call(_, _, _, _) => n
    case Decl(es) => Decl(PruneList(es))
    case Local(t, x, i) => Local(t, x, PruneOpt(i))
    case ExprStmt(e) => ExprStmt(Prune(e))
    case Assign(t, l, r) => Assign(t, Prune(l), PruneOpt(r))
    case New(t, c, xs) => New(t, c, PruneList(xs))
    case ClassLit(_, _) => n
    case StrLit(_) => n
    case Other(t, cs) => Other(t, PruneList(cs))
  }

  function PruneOpt(o: Option<Node>): Option<Node>
    decreases o, 2
  {
    match o
    case None => None
    case Some(x) => PruneElement(x)
  }

  function PruneList(cs: seq<Node>): (r: seq<Node>)
    ensures |r| <= |cs|
    decreases cs, 3
  {
    if cs == [] then []
    else
      var last := PruneElement(cs[|cs| - 1]);
      PruneList(cs[..|cs| - 1]) + (if last.Some? then [last.value] else [])
  }

  /** No doomed statement is left anywhere the pruner looks. */
  predicate Clean(n: Node)
  {
    match n
    case Call(_, _, _, _) => true
    case Decl(es) => CleanList(es)
    case Local(_, _, i) => CleanOpt(i)
    case ExprStmt(e) => Clean(e)
    case Assign(_, l, r) => Clean(l) && CleanOpt(r)
    case New(_, _, xs) => CleanList(xs)
    case ClassLit(_, _) => true
    case StrLit(_) => true
    case Other(_, cs) => CleanList(cs)
  }

  predicate CleanOpt(o: Option<Node>)
  {
    match o
    case None => true
    case Some(x) => !Doomed(x) && Clean(x)
  }

  predicate CleanList(cs: seq<Node>)
  {
    cs == [] || (CleanList(cs[..|cs| - 1]) && !Doomed(cs[|cs| - 1]) && Clean(cs[|cs| - 1]))
  }

  /** Mockito statements vanish: the pruned tree holds no doomed statement
      outside calls. */
  lemma {:induction false} PruneIsClean(n: Node)
    ensures Clean(Prune(n))
  {
    match n
    case Call(_, _, _, _) =>
    case Decl(es) => PruneListIsClean(es);
    case Local(_, _, i) => PruneOptIsClean(i);
    case ExprStmt(e) => PruneIsClean(e);
    case Assign(_, l, r) => PruneIsClean(l); PruneOptIsClean(r);
    case New(_, _, xs) => PruneListIsClean(xs);
    case ClassLit(_, _) =>
    case StrLit(_) =>
    case Other(_, cs) => PruneListIsClean(cs);
  }

  lemma {:induction false} PruneOptIsClean(o: Option<Node>)
    ensures CleanOpt(PruneOpt(o))
  {
    if o.Some? && !Doomed(o.value) {
      PruneIsClean(o.value);
      PruneNeverDooms(o.value);
    }
  }

  lemma {:induction false} PruneListIsClean(cs: seq<Node>)
    ensures CleanList(PruneList(cs))
    decreases cs
  {
    if cs != [] {
      var front := cs[..|cs| - 1];
      var x := cs[|cs| - 1];
      PruneListIsClean(front);
      if !Doomed(x) {
        PruneIsClean(x);
        PruneNeverDooms(x);
        var r := PruneList(cs);
        assert PruneElement(x) == Some(Prune(x));
        assert r == PruneList(front) + [Prune(x)];
        assert r[..|r| - 1] == PruneList(front);
      } else {
        assert PruneList(cs) == PruneList(front);
      }
    }
  }

  /** Pruning never turns a kept statement into a doomed one. */
  lemma PruneNeverDooms(n: Node)
    requires !Doomed(n)
    ensures !Doomed(Prune(n))
  {
  }

  /** A tree with nothing to delete is left exactly as it was. */
  lemma {:induction false} CleanIsFixed(n: Node)
    requires Clean(n)
    ensures Prune(n) == n
  {
    match n
    case Call(_, _, _, _) =>
    case Decl(es) => CleanListIsFixed(es);
    case Local(_, _, i) => CleanOptIsFixed(i);
    case ExprStmt(e) => CleanIsFixed(e);
    case Assign(_, l, r) => CleanIsFixed(l); CleanOptIsFixed(r);
    case New(_, _, xs) => CleanListIsFixed(xs);
    case ClassLit(_, _) =>
    case StrLit(_) =>
    case Other(_, cs) => CleanListIsFixed(cs);
  }

  lemma {:induction false} CleanOptIsFixed(o: Option<Node>)
    requires CleanOpt(o)
    ensures PruneOpt(o) == o
  {
    if o.Some? {
      CleanIsFixed(o.value);
    }
  }

  lemma {:induction false} CleanListIsFixed(cs: seq<Node>)
    requires CleanList(cs)
    ensures PruneList(cs) == cs
    decreases cs
  {
    if cs != [] {
      CleanListIsFixed(cs[..|cs| - 1]);
      CleanIsFixed(cs[|cs| - 1]);
    }
  }

  /** The pruner changes a tree exactly when a doomed statement is reachable. */
  lemma PruneChangesIffUnclean(n: Node)
    ensures Prune(n) == n <==> Clean(n)
  {
    PruneIsClean(n);
    if Clean(n) {
      CleanIsFixed(n);
    }
  }

  /** Pruning twice deletes nothing more. */
  lemma PruneIdempotent(n: Node)
    ensures Prune(Prune(n)) == Prune(n)
  {
    PruneIsClean(n);
    CleanIsFixed(Prune(n));
  }

  /** Exactly the doomed statements leave a list: the pruned list is shorter by
      their number, and a list without one is pruned element by element
      (PruneListAt places each survivor). */
  lemma {:induction false} PruneListKeepsOthers(cs: seq<Node>)
    ensures |PruneList(cs)| == |cs| - CountDoomed(cs)
    ensures (forall i :: 0 <= i < |cs| ==> !Doomed(cs[i])) ==>
              PruneList(cs) == seq(|cs|, i requires 0 <= i < |cs| => Prune(cs[i]))
    decreases cs
  {
    if cs != [] {
      PruneListKeepsOthers(cs[..|cs| - 1]);
    }
  }

  /** Every statement that is not deleted survives pruned, in order: the one
      at index i lands at i less the number of deleted statements before it. */
  lemma PruneListAt(cs: seq<Node>, i: nat)
    requires i < |cs| && !Doomed(cs[i])
    ensures var j := i - CountDoomed(cs[..i]);
            0 <= j < |PruneList(cs)| && PruneList(cs)[j] == Prune(cs[i])
  {
    var f := PruneList(cs[..i]);
    var b := PruneList(cs[i + 1..]);
    var mid := [cs[i]] + cs[i + 1..];
    SplitAt(cs, i);
    PruneListSingle(cs[i]);
    PruneListConcat([cs[i]], cs[i + 1..]);
    PruneListConcat(cs[..i], mid);
    PruneListKeepsOthers(cs[..i]);
    assert PruneList(cs) == f + ([Prune(cs[i])] + b);
    assert (f + ([Prune(cs[i])] + b))[|f|] == Prune(cs[i]);
  }

  /** Pruning a concatenation prunes each part. */
  lemma {:induction false} PruneListConcat(a: seq<Node>, b: seq<Node>)
    ensures PruneList(a + b) == PruneList(a) + PruneList(b)
    decreases |b|
  {
    if b == [] {
      assert a + b == a;
    } else {
      var n := |b| - 1;
      var tail := if Doomed(b[n]) then [] else [Prune(b[n])];
      PruneListConcat(a, b[..n]);
      ConcatSplitLast(a, b);
      PruneListLast(a + b);
      PruneListLast(b);
      AppendAssoc(PruneList(a), PruneList(b[..n]), tail);
    }
  }

  lemma PruneListSingle(x: Node)
    requires !Doomed(x)
    ensures PruneList([x]) == [Prune(x)]
  {
    assert [x][..0] == [];
  }

  /** The definition of PruneList at a non-empty list, as an equation. */
  lemma PruneListLast(cs: seq<Node>)
    requires cs != []
    ensures var n := |cs| - 1;
            PruneList(cs) == PruneList(cs[..n]) + (if Doomed(cs[n]) then [] else [Prune(cs[n])])
  {
  }

  /** A chained stubbing `when(x).thenReturn(y);` is deleted too: the name
      tested is the qualifier's text, a dot and `thenReturn`, and that text
      starts with "when". */
  lemma ChainedStubbingIsDoomed(whenCall: Node, text: string, args: seq<Node>)
    requires whenCall.Call? && StartsWith(whenCall.text, "when")
    ensures Doomed(ExprStmt(Call(text, Some(whenCall), "thenReturn", args)))
    ensures PruneElement(ExprStmt(Call(text, Some(whenCall), "thenReturn", args))).None?
  {
    var name := whenCall.text + "." + "thenReturn";
    assert name[..4] == whenCall.text[..4];
  }

  /** A matching call that is not itself an expression statement (the
      initializer of a local, say) is kept, and so is any statement inside a
      call's arguments: the pruner never enters a call. */
  lemma CallsAreNeverEntered(t: JType, x: string, c: Node)
    requires c.Call?
    ensures Prune(Local(t, x, Some(c))) == Local(t, x, Some(c))
    ensures !IsMockitoCall(c) ==> PruneElement(ExprStmt(c)) == Some(ExprStmt(c))
  {
    assert Prune(c) == c;
    assert PruneElement(c) == Some(c);
    assert Prune(ExprStmt(c)) == ExprStmt(c);
  }

  function CountDoomed(cs: seq<Node>): (k: nat)
    ensures k <= |cs|
  {
    if cs == [] then 0 else CountDoomed(cs[..|cs| - 1]) + (if Doomed(cs[|cs| - 1]) then 1 else 0)
  }

  /** The prune of one element, as the IDE walk does it: a call is not entered;
      any other element has its children pruned one by one, and a child that
      is a doomed statement is deleted (None: the element itself was deleted). */
  method FindAndRemoveMockitoCalls(n: Node) returns (r: Option<Node>)
    ensures r == PruneElement(n)
  {
    if Doomed(n) {
      return None;
    }
    match n
    case Call(_, _, _, _) =>
      r := Some(n);
    case Decl(es) =>
      var es' := PruneChildren(es);
      r := Some(Decl(es'));
    case Local(t, x, i) =>
      var i' := PruneSlot(i);
      r := Some(Local(t, x, i'));
    case ExprStmt(e) =>
      var e' := FindAndRemoveMockitoCalls(e);
      assert Doomed(e) ==> Prune(e) == e;
      r := Some(ExprStmt(if e'.Some? then e'.value else e));
    case Assign(t, l, rhs) =>
      var l' := FindAndRemoveMockitoCalls(l);
      assert Doomed(l) ==> Prune(l) == l;
      var rhs' := PruneSlot(rhs);
      r := Some(Assign(t, if l'.Some? then l'.value else l, rhs'));
    case New(t, c, xs) =>
      var xs' := PruneChildren(xs);
      r := Some(New(t, c, xs'));
    case ClassLit(_, _) =>
      r := Some(n);
    case StrLit(_) =>
      r := Some(n);
    case Other(t, cs) =>
      var cs' := PruneChildren(cs);
      r := Some(Other(t, cs'));
  }

  method PruneSlot(o: Option<Node>) returns (r: Option<Node>)
    ensures r == PruneOpt(o)
    decreases o
  {
    if o.None? {
      return None;
    }
    r := FindAndRemoveMockitoCalls(o.value);
  }

  /** Prunes a list of children in order, dropping the deleted ones. */
  method PruneChildren(cs: seq<Node>) returns (r: seq<Node>)
    ensures r == PruneList(cs)
    decreases cs
  {
    r := [];
    var i := 0;
    while i < |cs|
      invariant 0 <= i <= |cs|
      invariant r == PruneList(cs[..i])
    {
      var c := FindAndRemoveMockitoCalls(cs[i]);
      PrefixExtend(cs, i);
      if c.Some? {
        r := r + [c.value];
      }
      i := i + 1;
    }
    assert cs[..|cs|] == cs;
  }
}
