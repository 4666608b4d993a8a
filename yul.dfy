/**
 * The fragment of the Yul (Julia) abstract syntax tree that the expression
 * breaker reads and rewrites, with the predicates used to state what the
 * pass achieves.
 */
module Yul {

  datatype Option<+T> = None | Some(value: T)

  /** An expression. `Call` stands for both a functional instruction and a
      user function call: the pass treats the two identically. */
  datatype Expression =
    | Literal(value: string)
    | Identifier(name: string)
    | Call(fn: string, args: seq<Expression>)

  /** A statement. Fields holding a block hold that block's statements. */
  datatype Statement =
    | ExprStmt(expr: Expression)
    | VarDecl(names: seq<string>, init: Option<Expression>)
    | Assign(targets: seq<string>, value: Expression)
    | If(cond: Expression, body: seq<Statement>)
    | ForLoop(pre: seq<Statement>, cond: Expression, post: seq<Statement>, body: seq<Statement>)
    | Block(stmts: seq<Statement>)

  /** The declaration `let v := x` that the pass synthesises. */
  function Let(v: string, x: Expression): Statement {
    VarDecl([v], Some(x))
  }

  /** A declaration of exactly one variable with an initial value. */
  predicate IsBinding(d: Statement) {
    d.VarDecl? && |d.names| == 1 && d.init.Some?
  }

  function BoundName(d: Statement): string
    requires IsBinding(d)
  {
    d.names[0]
  }

  // ---------------------------------------------------------------------
  // Flatness: no call has a call as a direct argument.

  /** An expression whose arguments, if it is a call, are identifiers or
      literals. Such an expression holds no call below its top node. */
  predicate FlatExpr(e: Expression) {
    e.Call? ==> forall i :: 0 <= i < |e.args| ==> !e.args[i].Call?
  }

  /** Flatness of every expression at statement level, in every nested
      block; a for loop's condition is exempt. */
  predicate FlatStmt(s: Statement) {
    match s
    case ExprStmt(e) => FlatExpr(e)
    case VarDecl(_, init) => init.Some? ==> FlatExpr(init.value)
    case Assign(_, e) => FlatExpr(e)
    case If(c, body) => FlatExpr(c) && FlatBlock(body)
    case ForLoop(pre, _, post, body) => FlatBlock(pre) && FlatBlock(post) && FlatBlock(body)
    case Block(ss) => FlatBlock(ss)
  }

  predicate FlatBlock(ss: seq<Statement>) {
    forall i :: 0 <= i < |ss| ==> FlatStmt(ss[i])
  }

  // ---------------------------------------------------------------------
  // Names occurring in a tree (what a name collector would report).

  function Idents(e: Expression): set<string> {
    match e
    case Literal(_) => {}
    case Identifier(n) => {n}
    case Call(_, args) => IdentsOfArgs(args)
  }

  function IdentsOfArgs(args: seq<Expression>): set<string> {
    if args == [] then {} else Idents(args[0]) + IdentsOfArgs(args[1..])
  }

  /** Every variable name a statement references, assigns or declares. */
  function NamesOfStmt(s: Statement): set<string> {
    match s
    case ExprStmt(e) => Idents(e)
    case VarDecl(names, init) =>
      (set n | n in names) + (if init.Some? then Idents(init.value) else {})
    case Assign(targets, e) => (set n | n in targets) + Idents(e)
    case If(c, body) => Idents(c) + NamesOfBlock(body)
    case ForLoop(pre, c, post, body) =>
      NamesOfBlock(pre) + Idents(c) + NamesOfBlock(post) + NamesOfBlock(body)
    case Block(ss) => NamesOfBlock(ss)
  }

  function NamesOfBlock(ss: seq<Statement>): set<string> {
    if ss == [] then {} else NamesOfBlock(ss[..|ss| - 1]) + NamesOfStmt(ss[|ss| - 1])
  }
}
