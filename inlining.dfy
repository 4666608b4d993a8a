/**
 * The inverse of the expression breaker: substitute each synthesised
 * declaration `let v := x` back into the statement it precedes. The pass is
 * proved to be undone by this (see BreakerProperties), which pins down both
 * where each extracted call went and which identifier replaced it.
 */
module Inlining {
  import opened Yul

  /** Replace every occurrence of identifier `v` in `e` by `x`. */
  function Subst(e: Expression, v: string, x: Expression): Expression {
    match e
    case Literal(_) => e
    case Identifier(n) => if n == v then x else e
    case Call(f, args) => Call(f, SubstArgs(args, v, x))
  }

  function SubstArgs(args: seq<Expression>, v: string, x: Expression): (r: seq<Expression>)
    ensures |r| == |args|
  {
    if args == [] then [] else [Subst(args[0], v, x)] + SubstArgs(args[1..], v, x)
  }

  /** Substitute the bindings of `decls`, last one first, into `e`. A later
      declaration may refer to an earlier one, so after the last binding
      has been substituted the earlier ones are substituted into the result. */
  function InlineExpr(e: Expression, decls: seq<Statement>): Expression
    decreases decls
  {
    if decls == [] then e
    else
      var d := decls[|decls| - 1];
      var e' := if IsBinding(d) then Subst(e, BoundName(d), d.init.value) else e;
      InlineExpr(e', decls[..|decls| - 1])
  }

  function InlineArgs(args: seq<Expression>, decls: seq<Statement>): (r: seq<Expression>)
    ensures |r| == |args|
  {
    if args == [] then [] else [InlineExpr(args[0], decls)] + InlineArgs(args[1..], decls)
  }

  /** The names bound by the bindings among `decls`. */
  function BoundNames(decls: seq<Statement>): set<string> {
    if decls == [] then {}
    else
      var d := decls[|decls| - 1];
      BoundNames(decls[..|decls| - 1]) + if IsBinding(d) then {BoundName(d)} else {}
  }

  // ---------------------------------------------------------------------
  // Algebra of substitution and inlining.

  lemma {:induction false} SubstUnused(e: Expression, v: string, x: Expression)
    requires v !in Idents(e)
    ensures Subst(e, v, x) == e
  {
    match e
    case Literal(_) =>
    case Identifier(_) =>
    case Call(f, args) => SubstArgsUnused(args, v, x);
  }

  lemma {:induction false} SubstArgsUnused(args: seq<Expression>, v: string, x: Expression)
    requires v !in IdentsOfArgs(args)
    ensures SubstArgs(args, v, x) == args
  {
    if args != [] {
      SubstUnused(args[0], v, x);
      SubstArgsUnused(args[1..], v, x);
    }
  }

  /** Bindings whose names do not occur in `e` leave it unchanged. */
  lemma {:induction false} InlineUnused(e: Expression, decls: seq<Statement>)
    requires Idents(e) !! BoundNames(decls)
    ensures InlineExpr(e, decls) == e
  {
    if decls != [] {
      var d := decls[|decls| - 1];
      if IsBinding(d) {
        SubstUnused(e, BoundName(d), d.init.value);
      }
      InlineUnused(e, decls[..|decls| - 1]);
    }
  }

  lemma {:induction false} InlineArgsUnused(args: seq<Expression>, decls: seq<Statement>)
    requires IdentsOfArgs(args) !! BoundNames(decls)
    ensures InlineArgs(args, decls) == args
  {
    if args != [] {
      InlineUnused(args[0], decls);
      InlineArgsUnused(args[1..], decls);
    }
  }

  /** Inlining into a call inlines into each of its arguments. */
  lemma {:induction false} InlineCall(f: string, args: seq<Expression>, decls: seq<Statement>)
    ensures InlineExpr(Call(f, args), decls) == Call(f, InlineArgs(args, decls))
    decreases decls
  {
    if decls == [] {
      InlineArgsEmpty(args);
    } else {
      var d := decls[|decls| - 1];
      var init := decls[..|decls| - 1];
      if IsBinding(d) {
        var args' := SubstArgs(args, BoundName(d), d.init.value);
        InlineCall(f, args', init);
        InlineArgsStep(args, decls);
      } else {
        InlineCall(f, args, init);
        InlineArgsSkip(args, decls);
      }
    }
  }

  lemma {:induction false} InlineArgsEmpty(args: seq<Expression>)
    ensures InlineArgs(args, []) == args
  {
    if args != [] {
      InlineArgsEmpty(args[1..]);
    }
  }

  lemma {:induction false} InlineArgsStep(args: seq<Expression>, decls: seq<Statement>)
    requires decls != [] && IsBinding(decls[|decls| - 1])
    ensures var d := decls[|decls| - 1];
      InlineArgs(args, decls) == InlineArgs(SubstArgs(args, BoundName(d), d.init.value), decls[..|decls| - 1])
  {
    if args != [] {
      InlineArgsStep(args[1..], decls);
    }
  }

  lemma {:induction false} InlineArgsSkip(args: seq<Expression>, decls: seq<Statement>)
    requires decls != [] && !IsBinding(decls[|decls| - 1])
    ensures InlineArgs(args, decls) == InlineArgs(args, decls[..|decls| - 1])
  {
    if args != [] {
      InlineArgsSkip(args[1..], decls);
    }
  }

  /** Inlining `a + b` inlines `b` first, then `a`. */
  lemma {:induction false} InlineAppend(e: Expression, a: seq<Statement>, b: seq<Statement>)
    ensures InlineExpr(e, a + b) == InlineExpr(InlineExpr(e, b), a)
    decreases b
  {
    if b == [] {
      assert a + b == a;
    } else {
      var d := b[|b| - 1];
      assert (a + b)[..|a + b| - 1] == a + b[..|b| - 1];
      var e' := if IsBinding(d) then Subst(e, BoundName(d), d.init.value) else e;
      InlineAppend(e', a, b[..|b| - 1]);
    }
  }

  lemma {:induction false} InlineArgsAppend(args: seq<Expression>, a: seq<Statement>, b: seq<Statement>)
    ensures InlineArgs(args, a + b) == InlineArgs(InlineArgs(args, b), a)
  {
    if args != [] {
      InlineAppend(args[0], a, b);
      InlineArgsAppend(args[1..], a, b);
    }
  }

  /** The identifier bound by the last declaration is replaced by its value. */
  lemma InlineLast(v: string, x: Expression, decls: seq<Statement>)
    ensures InlineExpr(Identifier(v), decls + [Let(v, x)]) == InlineExpr(x, decls)
  {
    assert (decls + [Let(v, x)])[..|decls|] == decls;
  }

  lemma {:induction false} BoundNamesAppend(a: seq<Statement>, b: seq<Statement>)
    ensures BoundNames(a + b) == BoundNames(a) + BoundNames(b)
  {
    if b == [] {
      assert a + b == a;
    } else {
      assert (a + b)[..|a + b| - 1] == a + b[..|b| - 1];
      BoundNamesAppend(a, b[..|b| - 1]);
    }
  }

  // ---------------------------------------------------------------------
  // Undoing the pass on a whole block.

  /** A declaration the pass synthesised, recognised by its fresh name. */
  predicate IsFreshBinding(s: Statement, newNames: set<string>) {
    IsBinding(s) && BoundName(s) in newNames
  }

  /** Rebuild a statement from its broken form and the fresh declarations
      that were placed in front of it. */
  function Restore(s: Statement, decls: seq<Statement>, newNames: set<string>): Statement {
    match s
    case ExprStmt(e) => ExprStmt(InlineExpr(e, decls))
    case VarDecl(names, init) =>
      VarDecl(names, if init.Some? then Some(InlineExpr(init.value, decls)) else None)
    case Assign(targets, e) => Assign(targets, InlineExpr(e, decls))
    case If(c, body) => If(InlineExpr(c, decls), UnbreakFrom(body, newNames, []))
    case ForLoop(pre, c, post, body) =>
      ForLoop(UnbreakFrom(pre, newNames, []), c, UnbreakFrom(post, newNames, []), UnbreakFrom(body, newNames, []))
    case Block(ss) => Block(UnbreakFrom(ss, newNames, []))
  }

  /** Walk a block collecting fresh declarations in `pending` and folding
      them into the next statement that is not one. */
  function UnbreakFrom(ss: seq<Statement>, newNames: set<string>, pending: seq<Statement>): seq<Statement> {
    if ss == [] then []
    else if IsFreshBinding(ss[0], newNames) then UnbreakFrom(ss[1..], newNames, pending + [ss[0]])
    else [Restore(ss[0], pending, newNames)] + UnbreakFrom(ss[1..], newNames, [])
  }

  function Unbreak(ss: seq<Statement>, newNames: set<string>): seq<Statement> {
    UnbreakFrom(ss, newNames, [])
  }

  /** Fresh declarations followed by one other statement fold into it. */
  lemma {:induction false} UnbreakPiece(decls: seq<Statement>, s: Statement, newNames: set<string>, pending: seq<Statement>)
    requires forall i :: 0 <= i < |decls| ==> IsFreshBinding(decls[i], newNames)
    requires !IsFreshBinding(s, newNames)
    ensures UnbreakFrom(decls + [s], newNames, pending) == [Restore(s, pending + decls, newNames)]
  {
    if decls == [] {
      assert [s][1..] == [];
      assert pending + decls == pending;
    } else {
      assert (decls + [s])[1..] == decls[1..] + [s];
      UnbreakPiece(decls[1..], s, newNames, pending + [decls[0]]);
      assert pending + [decls[0]] + decls[1..] == pending + decls;
    }
  }

  /** A block that ends in a statement which is not a newNames declaration can
      be undone separately from what follows it. */
  lemma {:induction false} UnbreakSplit(xs: seq<Statement>, ys: seq<Statement>, newNames: set<string>, pending: seq<Statement>)
    requires xs != [] && !IsFreshBinding(xs[|xs| - 1], newNames)
    ensures UnbreakFrom(xs + ys, newNames, pending) == UnbreakFrom(xs, newNames, pending) + UnbreakFrom(ys, newNames, [])
  {
    assert (xs + ys)[0] == xs[0];
    assert (xs + ys)[1..] == xs[1..] + ys;
    if |xs| == 1 {
      assert xs[1..] == [];
    } else if IsFreshBinding(xs[0], newNames) {
      UnbreakSplit(xs[1..], ys, newNames, pending + [xs[0]]);
    } else {
      UnbreakSplit(xs[1..], ys, newNames, []);
    }
  }
}
