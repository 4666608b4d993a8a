/**
 * Reference semantics of the expression breaker, one function per visitor.
 * Each function takes the set of names in use and returns the rewritten
 * node, the declarations the visit appends to the pending list (in the
 * order it appends them) and the set of names in use afterwards.
 */
module BreakerSpec {
  import opened Yul
  import opened Names

  datatype ExprResult = ExprResult(expr: Expression, decls: seq<Statement>, used: set<string>)
  datatype ArgsResult = ArgsResult(args: seq<Expression>, decls: seq<Statement>, used: set<string>)
  datatype StmtResult = StmtResult(stmt: Statement, decls: seq<Statement>, used: set<string>)
  datatype BlockResult = BlockResult(stmts: seq<Statement>, used: set<string>)

  /** Visiting an expression: a call has its arguments broken (the call
      itself stays where it is); identifiers and literals are untouched. */
  function VisitExpr(e: Expression, used: set<string>): ExprResult {
    match e
    case Call(f, args) =>
      var r := BreakArgs(args, used);
      ExprResult(Call(f, r.args), r.decls, r.used)
    case _ => ExprResult(e, [], used)
  }

  /** Breaking an argument list, last argument first. `args[1..]` is handled
      before `args[0]`; a call argument is visited, bound to a fresh name by a
      declaration appended after those of its own arguments, and replaced by
      that name. */
  function BreakArgs(args: seq<Expression>, used: set<string>): ArgsResult {
    if args == [] then ArgsResult([], [], used)
    else
      var rest := BreakArgs(args[1..], used);
      var a := args[0];
      if a.Call? then
        var inner := VisitExpr(a, rest.used);
        var v := Fresh(inner.used);
        ArgsResult([Identifier(v)] + rest.args, rest.decls + inner.decls + [Let(v, inner.expr)], inner.used + {v})
      else
        ArgsResult([a] + rest.args, rest.decls, rest.used)
  }

  /** Visiting a statement. For a loop only its three blocks are visited,
      never its condition; every other kind visits its expression first and
      then its blocks. Blocks keep their own declarations, so only the
      expression's declarations are handed to the enclosing block. */
  function VisitStmt(s: Statement, used: set<string>): StmtResult {
    match s
    case ExprStmt(e) =>
      var r := VisitExpr(e, used);
      StmtResult(ExprStmt(r.expr), r.decls, r.used)
    case VarDecl(names, init) =>
      if init.None? then StmtResult(s, [], used)
      else
        var r := VisitExpr(init.value, used);
        StmtResult(VarDecl(names, Some(r.expr)), r.decls, r.used)
    case Assign(targets, e) =>
      var r := VisitExpr(e, used);
      StmtResult(Assign(targets, r.expr), r.decls, r.used)
    case If(c, body) =>
      var rc := VisitExpr(c, used);
      var rb := VisitBlock(body, rc.used);
      StmtResult(If(rc.expr, rb.stmts), rc.decls, rb.used)
    case ForLoop(pre, c, post, body) =>
      var r1 := VisitBlock(pre, used);
      var r2 := VisitBlock(post, r1.used);
      var r3 := VisitBlock(body, r2.used);
      StmtResult(ForLoop(r1.stmts, c, r2.stmts, r3.stmts), [], r3.used)
    case Block(ss) =>
      var r := VisitBlock(ss, used);
      StmtResult(Block(r.stmts), [], r.used)
  }

  /** Visiting a block: each statement in turn is visited and the
      declarations its visit produced are placed immediately before it. */
  function VisitBlock(ss: seq<Statement>, used: set<string>): BlockResult {
    if ss == [] then BlockResult([], used)
    else
      var init := VisitBlock(ss[..|ss| - 1], used);
      var last := VisitStmt(ss[|ss| - 1], init.used);
      BlockResult(init.stmts + last.decls + [last.stmt], last.used)
  }
}
