/**
 * The expression breaker as the optimiser runs it: a visitor object holding
 * the list of statements to put in front of the statement being visited
 * and a reference to the name dispenser. Each visitor method rewrites the
 * node it is given and is proved to agree with the reference semantics in
 * BreakerSpec, whose properties are proved in BreakerProperties.
 */
module ExpressionBreaker {
  import opened Yul
  import opened Names
  import BreakerSpec

  /** What the destructor's check reports. */
  datatype Outcome = Ok | OptimizerException

  class ExpressionBreaker {
    /** Statements that go in front of the statement currently being visited
        in the nearest enclosing block. */
    var pending: seq<Statement>
    const names: NameDispenser

    constructor (names: NameDispenser)
      ensures this.names == names && pending == []
    {
      this.names := names;
      pending := [];
    }

    /** The destructor's check: the pending list must be empty. */
    method Close() returns (outcome: Outcome)
      ensures outcome == Ok <==> pending == []
    {
      outcome := if pending == [] then Ok else OptimizerException;
    }

    /** Visiting an expression; for a function call or a functional
        instruction this breaks its arguments. */
    method VisitExpression(e: Expression) returns (e': Expression)
      modifies this, names
      ensures var r := BreakerSpec.VisitExpr(e, old(names.used));
        e' == r.expr && pending == old(pending) + r.decls && names.used == r.used
    {
      match e
      case Call(f, args) =>
        var args' := BreakExpression(args);
        e' := Call(f, args');
      case _ =>
        e' := e;
    }

    /** Replace each call argument, from the last to the first, by a fresh
        identifier, appending a declaration of it to the pending list. */
    method BreakExpression(args: seq<Expression>) returns (out: seq<Expression>)
      modifies this, names
      ensures var r := BreakerSpec.BreakArgs(args, old(names.used));
        out == r.args && pending == old(pending) + r.decls && names.used == r.used
    {
      out := args;
      var i: int := |args| - 1;
      while i >= 0
        invariant -1 <= i < |args| && |out| == |args|
        invariant out[..i + 1] == args[..i + 1]
        invariant var r := BreakerSpec.BreakArgs(args[i + 1..], old(names.used));
          out[i + 1..] == r.args && pending == old(pending) + r.decls && names.used == r.used
      {
        var argument := out[i];
        assert argument == args[i] by { assert out[..i + 1][i] == args[..i + 1][i]; }
        assert args[i..][0] == args[i] && args[i..][1..] == args[i + 1..];
        ghost var rest := BreakerSpec.BreakArgs(args[i + 1..], old(names.used));
        ghost var r := BreakerSpec.BreakArgs(args[i..], old(names.used));
        if argument.Call? {
          ghost var inner := BreakerSpec.VisitExpr(argument, rest.used);
          var broken := VisitExpression(argument);
          var v := names.NewName();
          assert r == BreakerSpec.ArgsResult([Identifier(v)] + rest.args, rest.decls + inner.decls + [Let(v, broken)], names.used);
          pending := pending + [Let(v, broken)];
          out := out[i := Identifier(v)];
        } else {
          assert r == BreakerSpec.ArgsResult([argument] + rest.args, rest.decls, rest.used);
        }
        assert out[i..] == [out[i]] + out[i + 1..];
        i := i - 1;
      }
      assert args[0..] == args && out[0..] == out;
    }

    /** Visiting a statement: a loop goes to VisitForLoop, a block to
        VisitBlock; every other kind visits its expression, then its body. */
    method VisitStatement(s: Statement) returns (s': Statement)
      modifies this, names
      ensures var r := BreakerSpec.VisitStmt(s, old(names.used));
        s' == r.stmt && pending == old(pending) + r.decls && names.used == r.used
      decreases s, 1
    {
      match s
      case ExprStmt(e) =>
        var e' := VisitExpression(e);
        s' := ExprStmt(e');
      case VarDecl(vars, init) =>
        if init.Some? {
          var value := VisitExpression(init.value);
          s' := VarDecl(vars, Some(value));
        } else {
          s' := s;
        }
      case Assign(targets, e) =>
        var e' := VisitExpression(e);
        s' := Assign(targets, e');
      case If(c, body) =>
        var c' := VisitExpression(c);
        var body' := VisitBlock(body);
        s' := If(c', body');
      case ForLoop(_, _, _, _) =>
        s' := VisitForLoop(s);
      case Block(ss) =>
        var ss' := VisitBlock(ss);
        s' := Block(ss');
    }

    /** Visiting a loop: its pre, post and body blocks in that order. The
        condition is not visited, as there is no place to put declarations
        that would be evaluated with it. */
    method VisitForLoop(loop: Statement) returns (loop': Statement)
      requires loop.ForLoop?
      modifies this, names
      ensures var r := BreakerSpec.VisitStmt(loop, old(names.used));
        loop' == r.stmt && pending == old(pending) && names.used == r.used
      decreases loop, 0
    {
      var pre := VisitBlock(loop.pre);
      var post := VisitBlock(loop.post);
      var body := VisitBlock(loop.body);
      loop' := ForLoop(pre, loop.cond, post, body);
    }

    /** Visiting a block. The outer pending list is set aside; after each
        statement is visited, the declarations it produced are placed before
        it and the pending list is emptied. The new list of statements is
        only assembled once some statement has produced a declaration. */
    method VisitBlock(ss: seq<Statement>) returns (out: seq<Statement>)
      modifies this, names
      ensures var r := BreakerSpec.VisitBlock(ss, old(names.used));
        out == r.stmts && names.used == r.used
      ensures pending == old(pending)
      decreases ss, 2
    {
      var saved := pending;
      pending := [];
      var stmts := ss;
      var modified: seq<Statement> := [];
      var i := 0;
      while i < |ss|
        invariant 0 <= i <= |ss| && |stmts| == |ss|
        invariant stmts[i..] == ss[i..]
        invariant pending == []
        invariant var r := BreakerSpec.VisitBlock(ss[..i], old(names.used));
          && names.used == r.used
          && (modified == [] ==> stmts[..i] == r.stmts)
          && (modified != [] ==> modified == r.stmts)
      {
        assert stmts[i] == ss[i] by { assert stmts[i..][0] == ss[i..][0]; }
        assert ss[..i + 1][..i] == ss[..i];
        var s := VisitStatement(stmts[i]);
        stmts := stmts[i := s];
        if pending != [] {
          if modified == [] {
            modified := stmts[..i];
          }
          modified := modified + pending;
          pending := [];
        }
        if modified != [] {
          modified := modified + [stmts[i]];
        }
        assert stmts[..i + 1] == stmts[..i] + [s];
        assert stmts[i + 1..] == ss[i + 1..] by { assert stmts[i + 1..] == stmts[i..][1..]; }
        i := i + 1;
      }
      assert ss[..|ss|] == ss && stmts[..|ss|] == stmts;
      if modified != [] {
        out := modified;
      } else {
        out := stmts;
      }
      pending := saved;
    }
  }

  /** One run of the optimiser step: create a breaker over the dispenser,
      visit the top-level block, destroy the breaker. */
  method Run(names: NameDispenser, block: seq<Statement>) returns (out: seq<Statement>, outcome: Outcome)
    modifies names
    ensures var r := BreakerSpec.VisitBlock(block, old(names.used));
      out == r.stmts && names.used == r.used
    ensures outcome == Ok
  {
    var breaker := new ExpressionBreaker(names);
    out := breaker.VisitBlock(block);
    outcome := breaker.Close();
  }
}
