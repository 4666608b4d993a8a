/**
 * The transformations the unit tests and the class documentation show,
 * computed by the reference semantics. Each example is first stated for any
 * set of used names, with the names the dispenser hands out as parameters,
 * and then for the used set a name collector seeds it with (the variable
 * names occurring in the input), where the names are `_1`, `_2`, ...
 */
module BreakerExamples {
  import opened Yul
  import opened Names
  import opened BreakerSpec
  import opened BreakerProperties

  lemma FirstNames()
    ensures Fresh({}) == "_1"
    ensures Fresh({"_1"}) == "_2"
    ensures Fresh({"_1", "_2"}) == "_3"
    ensures Fresh({"x", "y"}) == "_1"
    ensures Fresh({"x", "y", "_1"}) == "_2"
  {
    assert SuffixName(1) == "_1" && SuffixName(2) == "_2" && SuffixName(3) == "_3";
  }

  lemma ControlFlowNames()
    ensures Fresh({"x", "a", "b"}) == "_1"
    ensures Fresh({"x", "a", "b", "_1"}) == "_2"
    ensures Fresh({"x", "a", "b", "_1", "_2"}) == "_3"
    ensures Fresh({"x", "a", "b", "_1", "_2", "_3"}) == "_4"
  {
    assert SuffixName(1) == "_1" && SuffixName(2) == "_2" && SuffixName(3) == "_3" && SuffixName(4) == "_4";
  }

  /** `{ }` is left as `{ }`. */
  lemma SmokeTest(used: set<string>)
    ensures VisitBlock([], used) == BlockResult([], used)
  {
  }

  // ---------------------------------------------------------------------
  // The trivial test and the documented example.

  /** Two call arguments with simple arguments: the last one is bound first. */
  lemma TwoCalls(f: Expression, g: Expression, used: set<string>, n1: string, n2: string)
    requires f.Call? && FlatExpr(f) && g.Call? && FlatExpr(g)
    requires n1 == Fresh(used) && n2 == Fresh(used + {n1})
    ensures BreakArgs([f, g], used) == ArgsResult([Identifier(n2), Identifier(n1)], [Let(n1, g), Let(n2, f)], used + {n1} + {n2})
  {
    var args := [f, g];
    assert args[1..] == [g];
    BreakOneCall([g], 0, used);
    FlatExprUnchanged(f, used + {n1});
  }

  /** `mstore(add(calldataload(2), mload(3)), 8)` binds `mload(3)`, then
      `calldataload(2)`, then the `add` of the two new names. */
  lemma Trivial(used: set<string>, n1: string, n2: string, n3: string)
    requires n1 == Fresh(used) && n2 == Fresh(used + {n1}) && n3 == Fresh(used + {n1} + {n2})
    ensures VisitBlock([ExprStmt(Call("mstore", [Call("add", [Call("calldataload", [Literal("2")]), Call("mload", [Literal("3")])]), Literal("8")]))], used)
         == BlockResult([ Let(n1, Call("mload", [Literal("3")])),
                          Let(n2, Call("calldataload", [Literal("2")])),
                          Let(n3, Call("add", [Identifier(n2), Identifier(n1)])),
                          ExprStmt(Call("mstore", [Identifier(n3), Literal("8")])) ],
                        used + {n1} + {n2} + {n3})
  {
    var load, cdl := Call("mload", [Literal("3")]), Call("calldataload", [Literal("2")]);
    TwoCalls(cdl, load, used, n1, n2);
    var outer := [Call("add", [cdl, load]), Literal("8")];
    assert outer[1..] == [Literal("8")];
    BreakSimpleArgs([Literal("8")], used);
    var rest := BreakArgs(outer[1..], used);
    assert rest == ArgsResult([Literal("8")], [], used);
    var inner := VisitExpr(outer[0], rest.used);
    assert inner == ExprResult(Call("add", [Identifier(n2), Identifier(n1)]), [Let(n1, load), Let(n2, cdl)], used + {n1} + {n2});
    var r := BreakArgs(outer, used);
    assert r == ArgsResult([Identifier(n3)] + rest.args, rest.decls + inner.decls + [Let(n3, inner.expr)], inner.used + {n3});
    assert r.args == [Identifier(n3), Literal("8")];
    assert r.decls == [Let(n1, load), Let(n2, cdl), Let(n3, Call("add", [Identifier(n2), Identifier(n1)]))];
    var s := ExprStmt(Call("mstore", outer));
    assert VisitStmt(s, used) == StmtResult(ExprStmt(Call("mstore", r.args)), r.decls, r.used);
    assert [s][..0] == [];
  }

  /** The trivial test: `{ mstore(add(calldataload(2), mload(3)), 8) }`
      becomes `{ let _1 := mload(3) let _2 := calldataload(2)
      let _3 := add(_2, _1) mstore(_3, 8) }`. */
  lemma TrivialTest()
    ensures VisitBlock([ExprStmt(Call("mstore", [Call("add", [Call("calldataload", [Literal("2")]), Call("mload", [Literal("3")])]), Literal("8")]))], {}).stmts
         == [ Let("_1", Call("mload", [Literal("3")])),
              Let("_2", Call("calldataload", [Literal("2")])),
              Let("_3", Call("add", [Identifier("_2"), Identifier("_1")])),
              ExprStmt(Call("mstore", [Identifier("_3"), Literal("8")])) ]
  {
    FirstNames();
    assert {} + {"_1"} == {"_1"} && {"_1"} + {"_2"} == {"_1", "_2"};
    Trivial({}, "_1", "_2", "_3");
  }

  /** The class documentation's example: `sstore(mul(x, 4), mload(y))`
      becomes `let a1 := mload(y) let a2 := mul(x, 4) sstore(a2, a1)`. */
  lemma DocumentedExample(used: set<string>, n1: string, n2: string)
    requires n1 == Fresh(used) && n2 == Fresh(used + {n1})
    ensures VisitBlock([ExprStmt(Call("sstore", [Call("mul", [Identifier("x"), Literal("4")]), Call("mload", [Identifier("y")])]))], used).stmts
         == [ Let(n1, Call("mload", [Identifier("y")])),
              Let(n2, Call("mul", [Identifier("x"), Literal("4")])),
              ExprStmt(Call("sstore", [Identifier(n2), Identifier(n1)])) ]
  {
    TwoCalls(Call("mul", [Identifier("x"), Literal("4")]), Call("mload", [Identifier("y")]), used, n1, n2);
    var block := [ExprStmt(Call("sstore", [Call("mul", [Identifier("x"), Literal("4")]), Call("mload", [Identifier("y")])]))];
    assert block[..0] == [];
  }

  /** The documented example with the used set `{x, y}`. */
  lemma DocumentedExampleTest()
    ensures VisitBlock([ExprStmt(Call("sstore", [Call("mul", [Identifier("x"), Literal("4")]), Call("mload", [Identifier("y")])]))], {"x", "y"}).stmts
         == [ Let("_1", Call("mload", [Identifier("y")])),
              Let("_2", Call("mul", [Identifier("x"), Literal("4")])),
              ExprStmt(Call("sstore", [Identifier("_2"), Identifier("_1")])) ]
  {
    FirstNames();
    assert {"x", "y"} + {"_1"} == {"x", "y", "_1"};
    DocumentedExample({"x", "y"}, "_1", "_2");
  }

  // ---------------------------------------------------------------------
  // The control-flow test.

  /** `{ a := add(a, mul(a, 2)) }` becomes `{ let n := mul(a, 2) a := add(a, n) }`. */
  lemma LoopPost(used: set<string>, n: string)
    requires n == Fresh(used)
    ensures VisitBlock([Assign(["a"], Call("add", [Identifier("a"), Call("mul", [Identifier("a"), Literal("2")])]))], used)
         == BlockResult([Let(n, Call("mul", [Identifier("a"), Literal("2")])), Assign(["a"], Call("add", [Identifier("a"), Identifier(n)]))], used + {n})
  {
    var args := [Identifier("a"), Call("mul", [Identifier("a"), Literal("2")])];
    BreakOneCall(args, 1, used);
    assert args[1 := Identifier(n)] == [Identifier("a"), Identifier(n)];
    var block := [Assign(["a"], Call("add", args))];
    assert block[..0] == [];
  }

  /** `let b := mul(add(a, 2), 4)  sstore(b, mul(b, 2))` becomes
      `let n3 := add(a, 2)  let b := mul(n3, 4)  let n4 := mul(b, 2)  sstore(b, n4)`. */
  lemma LoopBody(used: set<string>, n3: string, n4: string)
    requires n3 == Fresh(used) && n4 == Fresh(used + {n3})
    ensures VisitBlock([Let("b", Call("mul", [Call("add", [Identifier("a"), Literal("2")]), Literal("4")])),
                        ExprStmt(Call("sstore", [Identifier("b"), Call("mul", [Identifier("b"), Literal("2")])]))],
                       used)
         == BlockResult([Let(n3, Call("add", [Identifier("a"), Literal("2")])),
                         Let("b", Call("mul", [Identifier(n3), Literal("4")])),
                         Let(n4, Call("mul", [Identifier("b"), Literal("2")])),
                         ExprStmt(Call("sstore", [Identifier("b"), Identifier(n4)]))],
                        used + {n3} + {n4})
  {
    var args1 := [Call("add", [Identifier("a"), Literal("2")]), Literal("4")];
    BreakOneCall(args1, 0, used);
    assert args1[0 := Identifier(n3)] == [Identifier(n3), Literal("4")];
    var args2 := [Identifier("b"), Call("mul", [Identifier("b"), Literal("2")])];
    BreakOneCall(args2, 1, used + {n3});
    assert args2[1 := Identifier(n4)] == [Identifier("b"), Identifier(n4)];
    var s1, s2 := Let("b", Call("mul", args1)), ExprStmt(Call("sstore", args2));
    var r1 := VisitStmt(s1, used);
    assert r1 == StmtResult(Let("b", Call("mul", [Identifier(n3), Literal("4")])), [Let(n3, args1[0])], used + {n3});
    var r2 := VisitStmt(s2, r1.used);
    assert r2 == StmtResult(ExprStmt(Call("sstore", [Identifier("b"), Identifier(n4)])), [Let(n4, args2[1])], used + {n3} + {n4});
    var body := [s1, s2];
    assert body[..1][..0] == [] && body[..1] == [s1];
    assert VisitBlock([s1], used) == BlockResult([Let(n3, args1[0]), r1.stmt], r1.used);
  }

  function LoopIn(): Statement {
    ForLoop([Let("a", Literal("2"))], Call("lt", [Identifier("a"), Call("mload", [Identifier("a")])]),
            [Assign(["a"], Call("add", [Identifier("a"), Call("mul", [Identifier("a"), Literal("2")])]))],
            [Let("b", Call("mul", [Call("add", [Identifier("a"), Literal("2")]), Literal("4")])),
             ExprStmt(Call("sstore", [Identifier("b"), Call("mul", [Identifier("b"), Literal("2")])]))])
  }

  function LoopOut(n2: string, n3: string, n4: string): Statement {
    ForLoop([Let("a", Literal("2"))], Call("lt", [Identifier("a"), Call("mload", [Identifier("a")])]),
            [Let(n2, Call("mul", [Identifier("a"), Literal("2")])), Assign(["a"], Call("add", [Identifier("a"), Identifier(n2)]))],
            [Let(n3, Call("add", [Identifier("a"), Literal("2")])),
             Let("b", Call("mul", [Identifier(n3), Literal("4")])),
             Let(n4, Call("mul", [Identifier("b"), Literal("2")])),
             ExprStmt(Call("sstore", [Identifier("b"), Identifier(n4)]))])
  }

  /** The loop of the control-flow test: its pre block is already flat, its
      condition is left alone although it holds a nested call, and its post
      block and body are broken in that order. */
  lemma LoopExample(used: set<string>, n2: string, n3: string, n4: string)
    requires n2 == Fresh(used) && n3 == Fresh(used + {n2}) && n4 == Fresh(used + {n2} + {n3})
    ensures VisitStmt(LoopIn(), used) == StmtResult(LoopOut(n2, n3, n4), [], used + {n2} + {n3} + {n4})
  {
    var loop := LoopIn();
    assert FlatBlock(loop.pre);
    FlatBlockUnchanged(loop.pre, used);
    LoopPost(used, n2);
    LoopBody(used + {n2}, n3, n4);
  }

  /** The control-flow test, for any used set: the declaration of `x` is
      already flat, the condition of the `if` is broken into a declaration
      placed before the `if`, and the loop inside is broken as LoopExample
      states. */
  lemma ControlFlow(used: set<string>, n1: string, n2: string, n3: string, n4: string)
    requires n1 == Fresh(used) && n2 == Fresh(used + {n1})
    requires n3 == Fresh(used + {n1} + {n2}) && n4 == Fresh(used + {n1} + {n2} + {n3})
    ensures VisitBlock([Let("x", Call("calldataload", [Literal("0")])),
                        If(Call("mul", [Call("add", [Identifier("x"), Literal("2")]), Literal("3")]), [LoopIn()])],
                       used).stmts
         == [Let("x", Call("calldataload", [Literal("0")])),
             Let(n1, Call("add", [Identifier("x"), Literal("2")])),
             If(Call("mul", [Identifier(n1), Literal("3")]), [LoopOut(n2, n3, n4)])]
  {
    var first := Let("x", Call("calldataload", [Literal("0")]));
    assert FlatStmt(first);
    FlatStmtUnchanged(first, used);
    var args := [Call("add", [Identifier("x"), Literal("2")]), Literal("3")];
    BreakOneCall(args, 0, used);
    assert args[0 := Identifier(n1)] == [Identifier(n1), Literal("3")];
    LoopExample(used + {n1}, n2, n3, n4);
    assert [LoopIn()][..0] == [];
    var u := used + {n1} + {n2} + {n3} + {n4};
    assert VisitBlock([LoopIn()], used + {n1}) == BlockResult([LoopOut(n2, n3, n4)], u);
    var cond := If(Call("mul", args), [LoopIn()]);
    assert VisitExpr(Call("mul", args), used) == ExprResult(Call("mul", [Identifier(n1), Literal("3")]), [Let(n1, args[0])], used + {n1});
    assert VisitStmt(cond, used) == StmtResult(If(Call("mul", [Identifier(n1), Literal("3")]), [LoopOut(n2, n3, n4)]), [Let(n1, args[0])], u);
    var block := [first, cond];
    assert block[..1][..0] == [] && block[..1] == [first];
    assert VisitBlock([first], used) == BlockResult([first], used);
  }

  /** The control-flow test with the used set `{x, a, b}`. */
  lemma ControlFlowTest()
    ensures VisitBlock([Let("x", Call("calldataload", [Literal("0")])),
                        If(Call("mul", [Call("add", [Identifier("x"), Literal("2")]), Literal("3")]), [LoopIn()])],
                       {"x", "a", "b"}).stmts
         == [Let("x", Call("calldataload", [Literal("0")])),
             Let("_1", Call("add", [Identifier("x"), Literal("2")])),
             If(Call("mul", [Identifier("_1"), Literal("3")]), [LoopOut("_2", "_3", "_4")])]
  {
    ControlFlowNames();
    assert {"x", "a", "b"} + {"_1"} == {"x", "a", "b", "_1"};
    assert {"x", "a", "b", "_1"} + {"_2"} == {"x", "a", "b", "_1", "_2"};
    assert {"x", "a", "b", "_1", "_2"} + {"_3"} == {"x", "a", "b", "_1", "_2", "_3"};
    ControlFlow({"x", "a", "b"}, "_1", "_2", "_3", "_4");
  }
}
