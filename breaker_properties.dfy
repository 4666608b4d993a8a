/**
 * What the expression breaker guarantees, proved about its reference
 * semantics: arguments become identifiers or literals, synthesised
 * declarations bind fresh and distinct names to flat calls, loop conditions
 * and scopes are respected, an already flat program is left alone, and
 * inlining the synthesised declarations back gives the original program.
 */
module BreakerProperties {
  import opened Yul
  import opened Names
  import opened Inlining
  import opened BreakerSpec

  /** Declarations as the pass synthesises them: each binds one name, not
      in `before`, to a call whose arguments are identifiers or literals, and
      no two bind the same name. */
  predicate FreshBindings(decls: seq<Statement>, before: set<string>) {
    && (forall i :: 0 <= i < |decls| ==>
          IsBinding(decls[i]) && decls[i].init.value.Call? && FlatExpr(decls[i].init.value)
          && BoundName(decls[i]) !in before)
    && (forall i, j :: 0 <= i < j < |decls| ==> BoundName(decls[i]) != BoundName(decls[j]))
  }

  // ---------------------------------------------------------------------
  // Helpers about declaration lists.

  lemma {:induction false} BoundNamesMember(decls: seq<Statement>, i: nat)
    requires i < |decls| && IsBinding(decls[i])
    ensures BoundName(decls[i]) in BoundNames(decls)
  {
    if i < |decls| - 1 {
      BoundNamesMember(decls[..|decls| - 1], i);
    }
  }

  lemma FreshBindingsAppend(a: seq<Statement>, b: seq<Statement>, u0: set<string>, u1: set<string>)
    requires FreshBindings(a, u0) && FreshBindings(b, u1)
    requires u0 + BoundNames(a) <= u1
    ensures FreshBindings(a + b, u0)
  {
    forall i | 0 <= i < |a| ensures BoundName(a[i]) in u1 {
      BoundNamesMember(a, i);
    }
    var ab := a + b;
    forall i, j | 0 <= i < j < |ab| ensures BoundName(ab[i]) != BoundName(ab[j]) {
      if j >= |a| && i < |a| {
        assert ab[i] == a[i] && ab[j] == b[j - |a|];
      }
    }
  }

  lemma FreshBindingsFlat(decls: seq<Statement>, before: set<string>)
    requires FreshBindings(decls, before)
    ensures FlatBlock(decls)
  {
    forall i | 0 <= i < |decls| ensures FlatStmt(decls[i]) {
      assert decls[i].VarDecl?;
    }
  }

  lemma FlatBlockAppend(a: seq<Statement>, b: seq<Statement>)
    requires FlatBlock(a) && FlatBlock(b)
    ensures FlatBlock(a + b)
  {
    forall i | 0 <= i < |a + b| ensures FlatStmt((a + b)[i]) {
      if i >= |a| { assert (a + b)[i] == b[i - |a|]; }
    }
  }

  // ---------------------------------------------------------------------
  // Breaking an argument list.

  /** After breaking, no argument is a call: identifiers and literals stay in
      place, each call argument becomes an identifier bound by one of the new
      declarations. The declarations are fresh, distinct bindings of flat
      calls, and exactly their names are added to the used set. */
  lemma {:induction false} BreakArgsFacts(args: seq<Expression>, used: set<string>)
    ensures var r := BreakArgs(args, used);
      && |r.args| == |args|
      && (forall i :: 0 <= i < |args| ==> !r.args[i].Call?)
      && (forall i :: 0 <= i < |args| && !args[i].Call? ==> r.args[i] == args[i])
      && (forall i :: 0 <= i < |args| && args[i].Call? ==>
            r.args[i].Identifier? && r.args[i].name in BoundNames(r.decls))
      && FreshBindings(r.decls, used)
      && r.used == used + BoundNames(r.decls)
      && IdentsOfArgs(r.args) <= IdentsOfArgs(args) + BoundNames(r.decls)
  {
    if args != [] {
      var r := BreakArgs(args, used);
      var rest := BreakArgs(args[1..], used);
      BreakArgsFacts(args[1..], used);
      var a := args[0];
      assert IdentsOfArgs(r.args) == Idents(r.args[0]) + IdentsOfArgs(rest.args) by {
        assert r.args[1..] == rest.args;
      }
      if a.Call? {
        var inner := VisitExpr(a, rest.used);
        VisitExprFacts(a, rest.used);
        var v := Fresh(inner.used);
        var d := Let(v, inner.expr);
        assert r.decls == rest.decls + inner.decls + [d];
        assert BoundNames(r.decls) == BoundNames(rest.decls) + BoundNames(inner.decls) + {v} by {
          BoundNamesAppend(rest.decls, inner.decls);
          BoundNamesAppend(rest.decls + inner.decls, [d]);
          assert [d][..0] == [];
        }
        assert FreshBindings(r.decls, used) by {
          assert FreshBindings([d], inner.used);
          FreshBindingsAppend(rest.decls, inner.decls, used, rest.used);
          BoundNamesAppend(rest.decls, inner.decls);
          FreshBindingsAppend(rest.decls + inner.decls, [d], used, inner.used);
        }
      }
    }
  }

  /** Visiting an expression leaves it flat; a call stays a call to the same
      function with as many arguments; an identifier or literal is untouched
      and produces nothing. */
  lemma {:induction false} VisitExprFacts(e: Expression, used: set<string>)
    ensures var r := VisitExpr(e, used);
      && FlatExpr(r.expr)
      && (e.Call? ==> r.expr.Call? && r.expr.fn == e.fn && |r.expr.args| == |e.args|)
      && (!e.Call? ==> r == ExprResult(e, [], used))
      && FreshBindings(r.decls, used)
      && r.used == used + BoundNames(r.decls)
      && Idents(r.expr) <= Idents(e) + BoundNames(r.decls)
  {
    match e
    case Call(f, args) => BreakArgsFacts(args, used);
    case _ =>
  }

  /** Arguments are visited from the last to the first: when every argument
      is a call with simple arguments, the declaration for argument `j` is
      the `j`-th from the end, binding the identifier that now stands at
      position `j` to the call that stood there. */
  lemma {:induction false} BreakArgsReverseOrder(args: seq<Expression>, used: set<string>)
    requires forall i :: 0 <= i < |args| ==> args[i].Call? && FlatExpr(args[i])
    ensures var r := BreakArgs(args, used);
      && |r.decls| == |r.args| == |args|
      && forall j :: 0 <= j < |args| ==>
           r.args[j].Identifier? && r.decls[|args| - 1 - j] == Let(r.args[j].name, args[j])
  {
    if args != [] {
      var r := BreakArgs(args, used);
      var rest := BreakArgs(args[1..], used);
      BreakArgsReverseOrder(args[1..], used);
      FlatExprUnchanged(args[0], rest.used);
      forall j | 0 <= j < |args|
        ensures r.args[j].Identifier? && r.decls[|args| - 1 - j] == Let(r.args[j].name, args[j])
      {
        if j > 0 {
          assert r.args[j] == rest.args[j - 1];
          assert r.decls[|args| - 1 - j] == rest.decls[|args| - 1 - j];
        }
      }
    }
  }

  /** An argument list whose only call is a flat one, at position `k`, gets
      exactly one declaration, binding the next fresh name to that call,
      which the name then replaces. */
  lemma {:induction false} BreakOneCall(args: seq<Expression>, k: nat, used: set<string>)
    requires k < |args| && args[k].Call? && FlatExpr(args[k])
    requires forall i :: 0 <= i < |args| && i != k ==> !args[i].Call?
    ensures var v := Fresh(used);
      BreakArgs(args, used) == ArgsResult(args[k := Identifier(v)], [Let(v, args[k])], used + {v})
  {
    var v := Fresh(used);
    var rest := BreakArgs(args[1..], used);
    if k == 0 {
      BreakSimpleArgs(args[1..], used);
      FlatExprUnchanged(args[0], used);
      assert rest.decls + [] + [Let(v, args[0])] == [Let(v, args[0])];
      assert [Identifier(v)] + args[1..] == args[0 := Identifier(v)];
    } else {
      BreakOneCall(args[1..], k - 1, used);
      assert [args[0]] + args[1..][k - 1 := Identifier(v)] == args[k := Identifier(v)];
    }
  }

  // ---------------------------------------------------------------------
  // Flat input is a fixed point.

  lemma {:induction false} BreakSimpleArgs(args: seq<Expression>, used: set<string>)
    requires forall i :: 0 <= i < |args| ==> !args[i].Call?
    ensures BreakArgs(args, used) == ArgsResult(args, [], used)
  {
    if args != [] {
      BreakSimpleArgs(args[1..], used);
    }
  }

  /** A flat expression is left as it is and produces no declaration. */
  lemma FlatExprUnchanged(e: Expression, used: set<string>)
    requires FlatExpr(e)
    ensures VisitExpr(e, used) == ExprResult(e, [], used)
  {
    if e.Call? {
      BreakSimpleArgs(e.args, used);
    }
  }

  lemma {:induction false} FlatStmtUnchanged(s: Statement, used: set<string>)
    requires FlatStmt(s)
    ensures VisitStmt(s, used) == StmtResult(s, [], used)
  {
    match s
    case ExprStmt(e) => FlatExprUnchanged(e, used);
    case VarDecl(_, init) =>
      if init.Some? { FlatExprUnchanged(init.value, used); }
    case Assign(_, e) => FlatExprUnchanged(e, used);
    case If(c, body) =>
      FlatExprUnchanged(c, used);
      FlatBlockUnchanged(body, used);
    case ForLoop(pre, _, post, body) =>
      FlatBlockUnchanged(pre, used);
      FlatBlockUnchanged(post, used);
      FlatBlockUnchanged(body, used);
    case Block(ss) => FlatBlockUnchanged(ss, used);
  }

  /** The visit of the `i`-th statement of a block, made with the used set
      the statements before it left behind. */
  function VisitAt(ss: seq<Statement>, i: nat, used: set<string>): StmtResult
    requires i < |ss|
  {
    VisitStmt(ss[i], VisitBlock(ss[..i], used).used)
  }

  /** When no statement's visit hands a declaration to the block, the block
      is not rebuilt: it keeps one statement per original statement, each
      the visited original, though nested blocks may still draw names. */
  lemma {:induction false} NothingPendingNotRebuilt(ss: seq<Statement>, used: set<string>)
    requires forall i :: 0 <= i < |ss| ==> VisitAt(ss, i, used).decls == []
    ensures var r := VisitBlock(ss, used);
      && |r.stmts| == |ss|
      && forall i :: 0 <= i < |ss| ==> r.stmts[i] == VisitAt(ss, i, used).stmt
  {
    if ss != [] {
      var n := |ss| - 1;
      var prefix := ss[..n];
      forall i | 0 <= i < |prefix| ensures VisitAt(prefix, i, used) == VisitAt(ss, i, used) {
        assert prefix[..i] == ss[..i] && prefix[i] == ss[i];
      }
      NothingPendingNotRebuilt(prefix, used);
      var init := VisitBlock(prefix, used);
      var last := VisitAt(ss, n, used);
      assert last == VisitStmt(ss[n], init.used);
      assert VisitBlock(ss, used).stmts == init.stmts + [last.stmt];
    }
  }

  /** A block in which no call has a call argument (outside loop conditions)
      is left exactly as it is, and no name is drawn. */
  lemma {:induction false} FlatBlockUnchanged(ss: seq<Statement>, used: set<string>)
    requires FlatBlock(ss)
    ensures VisitBlock(ss, used) == BlockResult(ss, used)
  {
    if ss != [] {
      var init := ss[..|ss| - 1];
      assert FlatBlock(init) by {
        forall i | 0 <= i < |init| ensures FlatStmt(init[i]) { assert init[i] == ss[i]; }
      }
      FlatBlockUnchanged(init, used);
      FlatStmtUnchanged(ss[|ss| - 1], used);
      assert init + [ss[|ss| - 1]] == ss;
    }
  }

  // ---------------------------------------------------------------------
  // The pass flattens, respects scopes and draws fresh names.

  /** A visited statement is flat. The declarations it hands to the enclosing
      block are fresh, distinct bindings of flat calls, and their names are
      among those now in use. A loop or a block hands nothing up, and a loop
      keeps its condition. */
  lemma {:induction false} VisitStmtFacts(s: Statement, used: set<string>)
    ensures var r := VisitStmt(s, used);
      && FlatStmt(r.stmt)
      && FreshBindings(r.decls, used)
      && used + BoundNames(r.decls) <= r.used
      && (s.ForLoop? ==> r.decls == [] && r.stmt.ForLoop? && r.stmt.cond == s.cond)
      && (s.Block? ==> r.decls == [])
  {
    match s
    case ExprStmt(e) => VisitExprFacts(e, used);
    case VarDecl(_, init) =>
      if init.Some? { VisitExprFacts(init.value, used); }
    case Assign(_, e) => VisitExprFacts(e, used);
    case If(c, body) =>
      VisitExprFacts(c, used);
      VisitBlockFacts(body, VisitExpr(c, used).used);
    case ForLoop(pre, _, post, body) =>
      var r1 := VisitBlock(pre, used);
      var r2 := VisitBlock(post, r1.used);
      VisitBlockFacts(pre, used);
      VisitBlockFacts(post, r1.used);
      VisitBlockFacts(body, r2.used);
    case Block(ss) => VisitBlockFacts(ss, used);
  }

  /** After the pass no call in the block, in any nested block, has a call
      as a direct argument, except inside for-loop conditions; and names are
      only ever added to the used set. */
  lemma {:induction false} VisitBlockFacts(ss: seq<Statement>, used: set<string>)
    ensures var r := VisitBlock(ss, used);
      FlatBlock(r.stmts) && used <= r.used
  {
    if ss != [] {
      var init := VisitBlock(ss[..|ss| - 1], used);
      var last := VisitStmt(ss[|ss| - 1], init.used);
      VisitBlockFacts(ss[..|ss| - 1], used);
      VisitStmtFacts(ss[|ss| - 1], init.used);
      FreshBindingsFlat(last.decls, init.used);
      FlatBlockAppend(init.stmts, last.decls);
      FlatBlockAppend(init.stmts + last.decls, [last.stmt]);
    }
  }

  /** Running the pass on its own output changes nothing. */
  lemma Idempotent(ss: seq<Statement>, used: set<string>, used': set<string>)
    ensures var r := VisitBlock(ss, used);
      VisitBlock(r.stmts, used') == BlockResult(r.stmts, used')
  {
    VisitBlockFacts(ss, used);
    FlatBlockUnchanged(VisitBlock(ss, used).stmts, used');
  }

  // ---------------------------------------------------------------------
  // Inlining the synthesised declarations undoes the pass.

  lemma {:induction false} ArgsRoundTrip(args: seq<Expression>, used: set<string>)
    requires IdentsOfArgs(args) <= used
    ensures var r := BreakArgs(args, used);
      InlineArgs(r.args, r.decls) == args
  {
    if args != [] {
      var r := BreakArgs(args, used);
      var rest := BreakArgs(args[1..], used);
      BreakArgsFacts(args[1..], used);
      ArgsRoundTrip(args[1..], used);
      var a := args[0];
      var d0 := r.decls[|rest.decls|..];
      assert r.decls == rest.decls + d0;
      assert r.args == [r.args[0]] + rest.args;
      // The declarations made for `a` bind names absent from the other
      // arguments, and those made for the other arguments do not occur in `a`.
      assert InlineExpr(r.args[0], d0) == a by {
        if a.Call? {
          var inner := VisitExpr(a, rest.used);
          VisitExprFacts(a, rest.used);
          ExprRoundTrip(a, rest.used);
          var v := Fresh(inner.used);
          assert d0 == inner.decls + [Let(v, inner.expr)];
          InlineLast(v, inner.expr, inner.decls);
        } else {
          assert d0 == [];
        }
      }
      assert IdentsOfArgs(rest.args) !! BoundNames(d0) by {
        BreakArgsFacts(args, used);
        BoundNamesAppend(rest.decls, d0);
        FreshBindingsSuffix(r.decls, |rest.decls|, used, rest.used);
      }
      InlineArgsUnused(rest.args, d0);
      assert Idents(a) <= used;
      FreshBindingsDisjoint(rest.decls, used);
      InlineUnused(a, rest.decls);
      InlineAppend(r.args[0], rest.decls, d0);
      InlineArgsAppend(rest.args, rest.decls, d0);
      calc {
        InlineArgs(r.args, r.decls);
        [InlineExpr(r.args[0], rest.decls + d0)] + InlineArgs(rest.args, rest.decls + d0);
        [InlineExpr(a, rest.decls)] + InlineArgs(rest.args, rest.decls);
        [a] + args[1..];
        args;
      }
    }
  }

  /** The names bound by a suffix of a fresh list are absent from the used
      set reached by its prefix. */
  lemma FreshBindingsSuffix(decls: seq<Statement>, k: nat, used: set<string>, mid: set<string>)
    requires k <= |decls| && FreshBindings(decls, used)
    requires mid == used + BoundNames(decls[..k])
    ensures mid !! BoundNames(decls[k..])
  {
    var pre, suf := decls[..k], decls[k..];
    forall n | n in BoundNames(suf) ensures n !in mid {
      var j := BoundNameIndex(suf, n);
      assert suf[j] == decls[k + j];
      forall i | 0 <= i < |pre| ensures IsBinding(pre[i]) && BoundName(pre[i]) != n {
        assert pre[i] == decls[i];
      }
      NotBound(pre, n);
    }
  }

  /** The names bound by a fresh list are not in the set it is fresh for. */
  lemma FreshBindingsDisjoint(decls: seq<Statement>, before: set<string>)
    requires FreshBindings(decls, before)
    ensures before !! BoundNames(decls)
  {
    forall n | n in BoundNames(decls) ensures n !in before {
      var j := BoundNameIndex(decls, n);
    }
  }

  lemma {:induction false} NotBound(decls: seq<Statement>, n: string)
    requires forall i :: 0 <= i < |decls| ==> IsBinding(decls[i]) && BoundName(decls[i]) != n
    ensures n !in BoundNames(decls)
  {
    if decls != [] {
      NotBound(decls[..|decls| - 1], n);
    }
  }

  /** A bound name is bound by some declaration of the list. */
  lemma {:induction false} BoundNameIndex(decls: seq<Statement>, n: string) returns (i: nat)
    requires n in BoundNames(decls)
    ensures i < |decls| && IsBinding(decls[i]) && BoundName(decls[i]) == n
  {
    var d := decls[|decls| - 1];
    if IsBinding(d) && BoundName(d) == n {
      i := |decls| - 1;
    } else {
      i := BoundNameIndex(decls[..|decls| - 1], n);
    }
  }

  /** Substituting the declarations an expression's visit produced into the
      visited expression gives back the original expression. */
  lemma {:induction false} ExprRoundTrip(e: Expression, used: set<string>)
    requires Idents(e) <= used
    ensures var r := VisitExpr(e, used);
      InlineExpr(r.expr, r.decls) == e
  {
    match e
    case Call(f, args) =>
      var r := BreakArgs(args, used);
      ArgsRoundTrip(args, used);
      InlineCall(f, r.args, r.decls);
    case _ =>
  }

  lemma {:induction false} StmtRoundTrip(s: Statement, used: set<string>, newNames: set<string>)
    requires NamesOfStmt(s) <= used && newNames !! NamesOfStmt(s)
    requires VisitStmt(s, used).used - used <= newNames
    ensures var r := VisitStmt(s, used);
      && Restore(r.stmt, r.decls, newNames) == s
      && (forall i :: 0 <= i < |r.decls| ==> IsFreshBinding(r.decls[i], newNames))
      && !IsFreshBinding(r.stmt, newNames)
  {
    var r := VisitStmt(s, used);
    VisitStmtFacts(s, used);
    forall i | 0 <= i < |r.decls| ensures IsFreshBinding(r.decls[i], newNames) {
      BoundNamesMember(r.decls, i);
    }
    match s
    case ExprStmt(e) => ExprRoundTrip(e, used);
    case VarDecl(names, init) =>
      if init.Some? { ExprRoundTrip(init.value, used); }
      if |names| == 1 { assert names[0] in NamesOfStmt(s); }
    case Assign(_, e) => ExprRoundTrip(e, used);
    case If(c, body) =>
      var rc := VisitExpr(c, used);
      VisitExprFacts(c, used);
      ExprRoundTrip(c, used);
      BlockRoundTrip(body, rc.used, newNames);
    case ForLoop(pre, _, post, body) =>
      var r1 := VisitBlock(pre, used);
      var r2 := VisitBlock(post, r1.used);
      VisitBlockFacts(pre, used);
      VisitBlockFacts(post, r1.used);
      VisitBlockFacts(body, r2.used);
      BlockRoundTrip(pre, used, newNames);
      BlockRoundTrip(post, r1.used, newNames);
      BlockRoundTrip(body, r2.used, newNames);
    case Block(ss) => BlockRoundTrip(ss, used, newNames);
  }

  /** Folding the fresh declarations of a visited block back into the
      statements that follow them gives back the original block, so the
      original statements keep their order. */
  lemma {:induction false} BlockRoundTrip(ss: seq<Statement>, used: set<string>, newNames: set<string>)
    requires NamesOfBlock(ss) <= used && newNames !! NamesOfBlock(ss)
    requires VisitBlock(ss, used).used - used <= newNames
    ensures var r := VisitBlock(ss, used);
      && Unbreak(r.stmts, newNames) == ss
      && (r.stmts != [] ==> !IsFreshBinding(r.stmts[|r.stmts| - 1], newNames))
  {
    if ss != [] {
      var prefix, s := ss[..|ss| - 1], ss[|ss| - 1];
      var init := VisitBlock(prefix, used);
      var last := VisitStmt(s, init.used);
      assert NamesOfBlock(ss) == NamesOfBlock(prefix) + NamesOfStmt(s);
      VisitBlockGrows(prefix, used);
      VisitStmtGrows(s, init.used);
      BlockRoundTrip(prefix, used, newNames);
      StmtRoundTrip(s, init.used, newNames);
      UnbreakSnoc(init.stmts, last.decls, last.stmt, newNames);
      assert prefix + [s] == ss;
    }
  }

  lemma VisitBlockGrows(ss: seq<Statement>, used: set<string>)
    ensures used <= VisitBlock(ss, used).used
  {
    VisitBlockFacts(ss, used);
  }

  lemma VisitStmtGrows(s: Statement, used: set<string>)
    ensures used <= VisitStmt(s, used).used
  {
    VisitStmtFacts(s, used);
  }

  /** Undoing a block that ends in fresh declarations and the statement they
      precede. */
  lemma UnbreakSnoc(xs: seq<Statement>, decls: seq<Statement>, s: Statement, newNames: set<string>)
    requires xs != [] ==> !IsFreshBinding(xs[|xs| - 1], newNames)
    requires forall i :: 0 <= i < |decls| ==> IsFreshBinding(decls[i], newNames)
    requires !IsFreshBinding(s, newNames)
    ensures Unbreak(xs + decls + [s], newNames) == Unbreak(xs, newNames) + [Restore(s, decls, newNames)]
  {
    var piece := decls + [s];
    assert Unbreak(piece, newNames) == [Restore(s, decls, newNames)] by {
      UnbreakPiece(decls, s, newNames, []);
      assert [] + decls == decls;
    }
    if xs == [] {
      assert xs + decls + [s] == piece;
    } else {
      assert xs + decls + [s] == xs + piece;
      UnbreakSplit(xs, piece, newNames, []);
    }
  }

  /** The pass is undone by inlining, with its fresh names recognised as
      those it added to the used set. */
  lemma PassUndone(ss: seq<Statement>, used: set<string>)
    requires NamesOfBlock(ss) <= used
    ensures var r := VisitBlock(ss, used);
      Unbreak(r.stmts, r.used - used) == ss
  {
    BlockRoundTrip(ss, used, VisitBlock(ss, used).used - used);
  }

  // ---------------------------------------------------------------------
  // One declaration per extracted call, each one referenced.

  /** The number of call arguments in an argument list, counting those
      nested inside other call arguments. */
  function NestedCalls(args: seq<Expression>): nat {
    if args == [] then 0
    else (if args[0].Call? then 1 + NestedCalls(args[0].args) else 0) + NestedCalls(args[1..])
  }

  /** Breaking an argument list makes exactly one declaration per call
      argument, at any depth. */
  lemma {:induction false} BreakArgsCount(args: seq<Expression>, used: set<string>)
    ensures |BreakArgs(args, used).decls| == NestedCalls(args)
  {
    if args != [] {
      BreakArgsCount(args[1..], used);
      if args[0].Call? {
        BreakArgsCount(args[0].args, BreakArgs(args[1..], used).used);
      }
    }
  }

  /** Some declaration after position `i` mentions `n` in its initial value. */
  predicate UsedLater(decls: seq<Statement>, i: nat, n: string) {
    exists j :: i < j < |decls| && decls[j].VarDecl? && decls[j].init.Some? && n in Idents(decls[j].init.value)
  }

  /** Each declaration is a binding whose name `tail` or a later declaration
      refers to. */
  predicate AllReferenced(decls: seq<Statement>, tail: set<string>) {
    forall i :: 0 <= i < |decls| ==> ReferencedAt(decls, i, tail)
  }

  predicate ReferencedAt(decls: seq<Statement>, i: nat, tail: set<string>)
    requires i < |decls|
  {
    IsBinding(decls[i]) && (BoundName(decls[i]) in tail || UsedLater(decls, i, BoundName(decls[i])))
  }

  /** No declaration is dead: each new name is an argument of the broken
      list or occurs in the value of a declaration made after it. */
  lemma {:induction false} BreakArgsReferenced(args: seq<Expression>, used: set<string>)
    ensures var r := BreakArgs(args, used);
      AllReferenced(r.decls, IdentsOfArgs(r.args))
  {
    if args != [] {
      var r := BreakArgs(args, used);
      var rest := BreakArgs(args[1..], used);
      assert IdentsOfArgs(r.args) == Idents(r.args[0]) + IdentsOfArgs(rest.args) by {
        assert r.args[1..] == rest.args;
      }
      assert AllReferenced(rest.decls, IdentsOfArgs(r.args)) by {
        BreakArgsReferenced(args[1..], used);
        ReferencedWider(rest.decls, IdentsOfArgs(rest.args), IdentsOfArgs(r.args));
      }
      var a := args[0];
      if a.Call? {
        var inner := VisitExpr(a, rest.used);
        var v := Fresh(inner.used);
        assert r.decls == rest.decls + inner.decls + [Let(v, inner.expr)];
        assert AllReferenced(inner.decls, Idents(inner.expr)) by {
          BreakArgsReferenced(a.args, rest.used);
        }
        assert v in IdentsOfArgs(r.args) by {
          assert r.args[0] == Identifier(v);
        }
        ReferencedSnoc(rest.decls, inner.decls, v, inner.expr, IdentsOfArgs(r.args));
      }
    }
  }

  lemma ReferencedWider(decls: seq<Statement>, tail: set<string>, tail': set<string>)
    requires AllReferenced(decls, tail) && tail <= tail'
    ensures AllReferenced(decls, tail')
  {
    forall i | 0 <= i < |decls| ensures ReferencedAt(decls, i, tail') {
      assert ReferencedAt(decls, i, tail);
    }
  }

  /** Declarations referenced by `tail`, then those referenced by `x`, then
      `let v := x` with `v` in `tail`: all are referenced by `tail`. */
  lemma ReferencedSnoc(xs: seq<Statement>, ys: seq<Statement>, v: string, x: Expression, tail: set<string>)
    requires AllReferenced(xs, tail) && AllReferenced(ys, Idents(x)) && v in tail
    ensures AllReferenced(xs + ys + [Let(v, x)], tail)
  {
    var ds := xs + ys + [Let(v, x)];
    forall i | 0 <= i < |ds| ensures ReferencedAt(ds, i, tail) {
      if i < |xs| {
        ReferencedInPrefix(xs, ys + [Let(v, x)], i, tail);
        assert xs + (ys + [Let(v, x)]) == ds;
      } else if i < |xs| + |ys| {
        ReferencedInMiddle(xs, ys, v, x, i - |xs|, tail);
      } else {
        assert ds[i] == Let(v, x);
      }
    }
  }

  lemma ReferencedInPrefix(xs: seq<Statement>, zs: seq<Statement>, i: nat, tail: set<string>)
    requires i < |xs| && ReferencedAt(xs, i, tail)
    ensures ReferencedAt(xs + zs, i, tail)
  {
    var ds := xs + zs;
    assert ds[i] == xs[i];
    var n := BoundName(xs[i]);
    if n !in tail {
      var j :| i < j < |xs| && xs[j].VarDecl? && xs[j].init.Some? && n in Idents(xs[j].init.value);
      assert ds[j] == xs[j];
    }
  }

  lemma ReferencedInMiddle(xs: seq<Statement>, ys: seq<Statement>, v: string, x: Expression, k: nat, tail: set<string>)
    requires k < |ys| && ReferencedAt(ys, k, Idents(x))
    ensures ReferencedAt(xs + ys + [Let(v, x)], |xs| + k, tail)
  {
    var ds := xs + ys + [Let(v, x)];
    assert ds[|xs| + k] == ys[k];
    var n := BoundName(ys[k]);
    if n in Idents(x) {
      assert ds[|ds| - 1] == Let(v, x);
    } else {
      var j :| k < j < |ys| && ys[j].VarDecl? && ys[j].init.Some? && n in Idents(ys[j].init.value);
      assert ds[|xs| + j] == ys[j];
    }
  }

  lemma VisitExprReferenced(e: Expression, used: set<string>)
    ensures var r := VisitExpr(e, used);
      AllReferenced(r.decls, Idents(r.expr))
  {
    if e.Call? {
      BreakArgsReferenced(e.args, used);
    }
  }

  /** The identifiers of the expression a statement's own visit breaks: the
      value or condition; none for loops and blocks. */
  function OwnIdents(s: Statement): set<string> {
    match s
    case ExprStmt(e) => Idents(e)
    case VarDecl(_, init) => if init.Some? then Idents(init.value) else {}
    case Assign(_, e) => Idents(e)
    case If(c, _) => Idents(c)
    case _ => {}
  }

  /** Each declaration a statement hands to its block is referenced by the
      statement's value or condition, or by a declaration after it. */
  lemma VisitStmtReferenced(s: Statement, used: set<string>)
    ensures var r := VisitStmt(s, used);
      AllReferenced(r.decls, OwnIdents(r.stmt))
  {
    match s
    case ExprStmt(e) => VisitExprReferenced(e, used);
    case VarDecl(_, init) =>
      if init.Some? { VisitExprReferenced(init.value, used); }
    case Assign(_, e) => VisitExprReferenced(e, used);
    case If(c, _) => VisitExprReferenced(c, used);
    case ForLoop(_, _, _, _) =>
    case Block(_) =>
  }

  // ---------------------------------------------------------------------
  // Every drawn name is declared exactly once in the whole output.

  predicate Distinct(ns: seq<string>) {
    forall i, j :: 0 <= i < j < |ns| ==> ns[i] != ns[j]
  }

  function Elems(ns: seq<string>): set<string> {
    set n | n in ns
  }

  /** The names bound by the declarations of `ss` whose name is in
      `newNames`, in order, looking into nested blocks. */
  function FreshNames(ss: seq<Statement>, newNames: set<string>): seq<string> {
    if ss == [] then []
    else FreshNames(ss[..|ss| - 1], newNames) + FreshNamesOfStmt(ss[|ss| - 1], newNames)
  }

  function FreshNamesOfStmt(s: Statement, newNames: set<string>): seq<string> {
    (if IsFreshBinding(s, newNames) then [BoundName(s)] else [])
    + match s
      case If(_, body) => FreshNames(body, newNames)
      case ForLoop(pre, _, post, body) =>
        FreshNames(pre, newNames) + FreshNames(post, newNames) + FreshNames(body, newNames)
      case Block(ss) => FreshNames(ss, newNames)
      case _ => []
  }

  lemma DistinctAppend(a: seq<string>, b: seq<string>)
    requires Distinct(a) && Distinct(b) && Elems(a) !! Elems(b)
    ensures Distinct(a + b) && Elems(a + b) == Elems(a) + Elems(b)
  {
    forall i, j | 0 <= i < j < |a + b| ensures (a + b)[i] != (a + b)[j] {
      if i < |a| && j >= |a| {
        assert (a + b)[i] in Elems(a) && (a + b)[j] == b[j - |a|] && b[j - |a|] in Elems(b);
      }
    }
  }

  /** Three lists of names drawn one after the other from a growing set. */
  lemma DistinctTelescope(a: seq<string>, b: seq<string>, c: seq<string>,
                          u0: set<string>, u1: set<string>, u2: set<string>, u3: set<string>)
    requires u0 <= u1 <= u2 <= u3
    requires Distinct(a) && Elems(a) == u1 - u0
    requires Distinct(b) && Elems(b) == u2 - u1
    requires Distinct(c) && Elems(c) == u3 - u2
    ensures Distinct(a + b + c) && Elems(a + b + c) == u3 - u0
  {
    DistinctAppend(a, b);
    DistinctAppend(a + b, c);
  }

  lemma {:induction false} FreshNamesAppend(a: seq<Statement>, b: seq<Statement>, newNames: set<string>)
    ensures FreshNames(a + b, newNames) == FreshNames(a, newNames) + FreshNames(b, newNames)
  {
    if b == [] {
      assert a + b == a;
    } else {
      assert (a + b)[..|a + b| - 1] == a + b[..|b| - 1];
      FreshNamesAppend(a, b[..|b| - 1], newNames);
    }
  }

  /** The names of synthesised declarations are listed once each. */
  lemma {:induction false} DeclsFreshNames(decls: seq<Statement>, before: set<string>, newNames: set<string>)
    requires FreshBindings(decls, before) && BoundNames(decls) <= newNames
    ensures Distinct(FreshNames(decls, newNames)) && Elems(FreshNames(decls, newNames)) == BoundNames(decls)
  {
    if decls != [] {
      var init, d := decls[..|decls| - 1], decls[|decls| - 1];
      assert FreshBindings(init, before);
      DeclsFreshNames(init, before, newNames);
      assert FreshNamesOfStmt(d, newNames) == [BoundName(d)];
      forall i | 0 <= i < |init| ensures IsBinding(init[i]) && BoundName(init[i]) != BoundName(d) {
        assert init[i] == decls[i];
      }
      NotBound(init, BoundName(d));
      DistinctAppend(FreshNames(init, newNames), [BoundName(d)]);
    }
  }

  /** The names a statement's visit drew are each bound exactly once, in the
      declarations it hands up or in its own nested blocks. */
  lemma {:induction false} StmtFreshNames(s: Statement, used: set<string>, newNames: set<string>)
    requires newNames !! NamesOfStmt(s)
    requires VisitStmt(s, used).used - used <= newNames
    ensures var r := VisitStmt(s, used);
      var ns := FreshNames(r.decls, newNames) + FreshNamesOfStmt(r.stmt, newNames);
      Distinct(ns) && Elems(ns) == r.used - used
    decreases s, 1
  {
    var r := VisitStmt(s, used);
    match s
    case ExprStmt(e) => ExprFreshNames(e, used, newNames);
    case VarDecl(names, init) =>
      if init.Some? {
        ExprFreshNames(init.value, used, newNames);
        if |names| == 1 { assert names[0] in NamesOfStmt(s); }
      }
    case Assign(_, e) => ExprFreshNames(e, used, newNames);
    case If(c, body) => IfFreshNames(s, used, newNames);
    case ForLoop(pre, _, post, body) => LoopFreshNames(s, used, newNames);
    case Block(ss) =>
      BlockFreshNames(ss, used, newNames);
      assert FreshNamesOfStmt(r.stmt, newNames) == FreshNames(VisitBlock(ss, used).stmts, newNames);
  }

  lemma ExprFreshNames(e: Expression, used: set<string>, newNames: set<string>)
    requires VisitExpr(e, used).used - used <= newNames
    ensures var r := VisitExpr(e, used);
      Distinct(FreshNames(r.decls, newNames)) && Elems(FreshNames(r.decls, newNames)) == r.used - used
  {
    var r := VisitExpr(e, used);
    VisitExprFacts(e, used);
    FreshBindingsDisjoint(r.decls, used);
    DeclsFreshNames(r.decls, used, newNames);
  }

  lemma {:induction false} IfFreshNames(s: Statement, used: set<string>, newNames: set<string>)
    requires s.If? && newNames !! NamesOfStmt(s)
    requires VisitStmt(s, used).used - used <= newNames
    ensures var r := VisitStmt(s, used);
      var ns := FreshNames(r.decls, newNames) + FreshNamesOfStmt(r.stmt, newNames);
      Distinct(ns) && Elems(ns) == r.used - used
    decreases s, 0
  {
    var r := VisitStmt(s, used);
    var rc := VisitExpr(s.cond, used);
    var rb := VisitBlock(s.body, rc.used);
    assert r.decls == rc.decls && r.stmt == If(rc.expr, rb.stmts) && r.used == rb.used;
    assert used <= rc.used <= rb.used by {
      VisitExprFacts(s.cond, used);
      VisitBlockGrows(s.body, rc.used);
    }
    var n1, n2 := FreshNames(rc.decls, newNames), FreshNames(rb.stmts, newNames);
    assert Distinct(n1) && Elems(n1) == rc.used - used by {
      ExprFreshNames(s.cond, used, newNames);
    }
    assert Distinct(n2) && Elems(n2) == rb.used - rc.used by {
      BlockFreshNames(s.body, rc.used, newNames);
    }
    assert FreshNamesOfStmt(r.stmt, newNames) == n2;
    DistinctAppend(n1, n2);
  }

  lemma {:induction false} LoopFreshNames(s: Statement, used: set<string>, newNames: set<string>)
    requires s.ForLoop? && newNames !! NamesOfStmt(s)
    requires VisitStmt(s, used).used - used <= newNames
    ensures var r := VisitStmt(s, used);
      var ns := FreshNames(r.decls, newNames) + FreshNamesOfStmt(r.stmt, newNames);
      Distinct(ns) && Elems(ns) == r.used - used
    decreases s, 0
  {
    var r := VisitStmt(s, used);
    var r1 := VisitBlock(s.pre, used);
    var r2 := VisitBlock(s.post, r1.used);
    var r3 := VisitBlock(s.body, r2.used);
    assert r.used == r3.used && r.decls == [];
    assert used <= r1.used <= r2.used <= r3.used by {
      VisitBlockGrows(s.pre, used);
      VisitBlockGrows(s.post, r1.used);
      VisitBlockGrows(s.body, r2.used);
    }
    var n1, n2, n3 := FreshNames(r1.stmts, newNames), FreshNames(r2.stmts, newNames), FreshNames(r3.stmts, newNames);
    assert Distinct(n1) && Elems(n1) == r1.used - used by {
      BlockFreshNames(s.pre, used, newNames);
    }
    assert Distinct(n2) && Elems(n2) == r2.used - r1.used by {
      BlockFreshNames(s.post, r1.used, newNames);
    }
    assert Distinct(n3) && Elems(n3) == r3.used - r2.used by {
      BlockFreshNames(s.body, r2.used, newNames);
    }
    assert FreshNames(r.decls, newNames) + FreshNamesOfStmt(r.stmt, newNames) == n1 + n2 + n3;
    DistinctTelescope(n1, n2, n3, used, r1.used, r2.used, r3.used);
  }

  /** The names a block's visit drew are each bound exactly once in the
      visited block, nested blocks included. */
  lemma {:induction false} BlockFreshNames(ss: seq<Statement>, used: set<string>, newNames: set<string>)
    requires newNames !! NamesOfBlock(ss)
    requires VisitBlock(ss, used).used - used <= newNames
    ensures var r := VisitBlock(ss, used);
      Distinct(FreshNames(r.stmts, newNames)) && Elems(FreshNames(r.stmts, newNames)) == r.used - used
    decreases ss, 2
  {
    if ss != [] {
      var r := VisitBlock(ss, used);
      var prefix, s := ss[..|ss| - 1], ss[|ss| - 1];
      var init := VisitBlock(prefix, used);
      var last := VisitStmt(s, init.used);
      assert r.stmts == init.stmts + last.decls + [last.stmt] && r.used == last.used;
      assert used <= init.used <= last.used by {
        VisitBlockGrows(prefix, used);
        VisitStmtGrows(s, init.used);
      }
      var a := FreshNames(init.stmts, newNames);
      var b := FreshNames(last.decls, newNames) + FreshNamesOfStmt(last.stmt, newNames);
      assert Distinct(a) && Elems(a) == init.used - used by {
        BlockFreshNames(prefix, used, newNames);
      }
      assert Distinct(b) && Elems(b) == last.used - init.used by {
        StmtFreshNames(s, init.used, newNames);
      }
      FreshNamesSnoc(init.stmts, last.decls, last.stmt, newNames);
      DistinctAppend(a, b);
    }
  }

  /** The fresh names of a visited prefix, a statement's declarations and
      the statement itself, in that order. */
  lemma FreshNamesSnoc(xs: seq<Statement>, decls: seq<Statement>, s: Statement, newNames: set<string>)
    ensures FreshNames(xs + decls + [s], newNames)
         == FreshNames(xs, newNames) + (FreshNames(decls, newNames) + FreshNamesOfStmt(s, newNames))
  {
    var a, b, c := FreshNames(xs, newNames), FreshNames(decls, newNames), FreshNamesOfStmt(s, newNames);
    assert FreshNames(xs + decls, newNames) == a + b by {
      FreshNamesAppend(xs, decls, newNames);
    }
    assert FreshNames(xs + decls + [s], newNames) == FreshNames(xs + decls, newNames) + c by {
      FreshNamesAppend(xs + decls, [s], newNames);
      FreshNamesSingle(s, newNames);
    }
    assert a + b + c == a + (b + c);
  }

  lemma FreshNamesSingle(s: Statement, newNames: set<string>)
    ensures FreshNames([s], newNames) == FreshNamesOfStmt(s, newNames)
  {
    assert [s][..0] == [];
  }

  /** Across the whole visited block, nested blocks included, the
      declarations of names the pass drew bind each of those names exactly
      once; none of them was in use before. */
  lemma SynthesisedNames(ss: seq<Statement>, used: set<string>)
    requires NamesOfBlock(ss) <= used
    ensures var r := VisitBlock(ss, used);
      var ns := FreshNames(r.stmts, r.used - used);
      Distinct(ns) && Elems(ns) == r.used - used && Elems(ns) !! used
  {
    BlockFreshNames(ss, used, VisitBlock(ss, used).used - used);
  }
}
