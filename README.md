# ExpressionBreaker — a Dafny model

This project models the Yul (formerly Julia) optimiser step `ExpressionBreaker`. The step rewrites a Yul block so that no function call or functional instruction has another call as a direct argument.

- Each call argument, processed from the last argument to the first, is visited itself. It is then bound to a fresh variable by a `let` declaration and replaced by that variable.
- The declarations are collected in a pending list.
- The enclosing block places them immediately before the statement whose visit produced them.
- A for loop's condition is never broken.
- Each block sets the outer pending list aside while its own statements are visited and restores it afterwards.
- When the breaker is destroyed its pending list must be empty.

The project has these modules:

- `Yul` (`yul.dfy`): the AST as values: expressions (literals, identifiers, calls) and statements (expression statements, variable declarations, assignments, `if`, `for`, nested blocks). It also defines what it means for an expression, statement or block to be flat.
- `Names` (`names.dfy`): the name dispenser. It is a class holding the set of used names. `NewName` returns `_k` for the least `k >= 1` such that `_k` is unused, and records it.
- `BreakerSpec` (`breaker_spec.dfy`): reference semantics. There is one function per visitor; each threads the used-name set and returns the rewritten node and the declarations that visit appends to the pending list.
- `ExpressionBreaker` (`expression_breaker.dfy`): the visitor as the code runs it. It is a class with the mutable pending list and a reference to the dispenser. Its methods mirror `breakExpression` (a downward index loop), the `ForLoop` and `Block` visitors and the default traversal. Each method is proved to agree with the reference semantics, including the new pending list and the new used set. `Run` is one application of the step: construct the breaker, visit the block, destroy the breaker.
- `Inlining` (`inlining.dfy`): the inverse of the step. It substitutes each synthesised declaration back into the statement it precedes.
- `BreakerProperties` (`breaker_properties.dfy`): what the step guarantees, given below.
- `BreakerExamples` (`breaker_examples.dfy`): the unit tests' cases and the documented example, computed by the reference semantics.

What is proved about the step:

- After the step, no call outside a for-loop condition has a call argument.
- Identifier and literal arguments stay in place.
- Each extracted argument is replaced by the name its declaration binds.
- Within one argument list, expression or statement, the declarations bind pairwise distinct names that were not in use before, and exactly those names are added to the used set.
- Across a whole block, nested blocks included, each name the step drew is bound by exactly one declaration of the output, and the names so bound are exactly the names added to the used set.
- Each call argument, at any nesting depth, gets exactly one declaration.
- No declaration is dead: the name it binds occurs in the broken expression or in the value of a declaration made after it.
- For a call whose arguments are all flat calls, the declarations come in reverse argument order.
- A for loop hands nothing to the enclosing block and keeps its condition.
- Already flat code is left unchanged, so the step is idempotent.
- Inlining the synthesised declarations back gives the original block, so the original statements keep their order.
- Where the declarations go is fixed by the reference semantics of a block: each visited statement is preceded by the declarations its own visit produced. The class's block visitor is proved to rebuild exactly that list.

The class comment of `ExpressionBreaker` (`libjulia/optimiser/ExpressionBreaker.h:59-60`) says the step is not applied to conditions. The code exempts only for-loop conditions (`libjulia/optimiser/ExpressionBreaker.cpp:54`) and does break an `if` condition, which the control-flow test expects (`test/libjulia/ExpressionBreaker.cpp:80-81`). The model follows the code.

The declarations are appended to the pending list (`emplace_back`, `libjulia/optimiser/ExpressionBreaker.cpp:99`). Because the arguments are walked from last to first, the last argument's declaration comes first. The tests show the same order.

## Model

| member | source | states |
|---|---|---|
| Names.NameDispenser.constructor | test/libjulia/ExpressionBreaker.cpp:44-45 | the dispenser starts with the used-name set it is seeded with |
| Names.NameDispenser.NewName | libjulia/optimiser/ExpressionBreaker.cpp:98 | `newName("")` returns a name that was not in use (the least unused `_k`) and afterwards that name, and only it, has been added to the used set |
| Names.Fresh | libjulia/optimiser/ExpressionBreaker.cpp:98 | the name drawn for a used set is never in that set |
| ExpressionBreaker.ExpressionBreaker.constructor | libjulia/optimiser/ExpressionBreaker.h:65-67 | the breaker refers to the given dispenser and starts with an empty pending list |
| ExpressionBreaker.ExpressionBreaker.Close | libjulia/optimiser/ExpressionBreaker.h:68-71 | the destructor's check raises `OptimizerException` exactly when the pending list is not empty |
| ExpressionBreaker.ExpressionBreaker.VisitExpression | libjulia/optimiser/ExpressionBreaker.cpp:41-49 | a function call or functional instruction keeps its place and has its arguments broken; the declarations produced are appended to the existing pending list, which is otherwise unchanged, and the dispenser's used set advances as the reference semantics say |
| ExpressionBreaker.ExpressionBreaker.BreakExpression | libjulia/optimiser/ExpressionBreaker.cpp:88-107 | the downward index loop over the arguments yields the argument list, pending list and used set of `BreakerSpec.BreakArgs`: each call argument is broken, bound to a new name whose declaration is appended after its own arguments' declarations, and overwritten by that name |
| ExpressionBreaker.ExpressionBreaker.VisitStatement | libjulia/optimiser/ExpressionBreaker.h:73-76 | statements other than loops and blocks visit their expression; an `if` visits its condition and then its body; the body's own declarations never reach the pending list, so only the condition's do |
| ExpressionBreaker.ExpressionBreaker.VisitForLoop | libjulia/optimiser/ExpressionBreaker.cpp:51-57 | pre, post and body are visited as blocks in that order, the condition is kept as it is, and the pending list is left exactly as it was |
| ExpressionBreaker.ExpressionBreaker.VisitBlock | libjulia/optimiser/ExpressionBreaker.cpp:59-86 | the rebuilt statement list equals the reference semantics (each visited statement preceded by the declarations its visit produced), and the outer pending list is restored on exit |
| ExpressionBreaker.Run | test/libjulia/ExpressionBreaker.cpp:44-46 | one application of the step produces the reference result and the destructor's check passes, since no declaration is left pending |
| BreakerProperties.BreakArgsFacts | libjulia/optimiser/ExpressionBreaker.cpp:90-105 | after breaking, no argument is a call; identifiers and literals stay in place; each call argument becomes an identifier bound by one of the new declarations; the declarations bind distinct unused names to flat calls; exactly their names are added to the used set |
| BreakerProperties.VisitExprFacts | libjulia/optimiser/ExpressionBreaker.cpp:41-49 | a visited expression is flat; a call stays a call to the same function with as many arguments; an identifier or literal produces nothing and draws no name |
| BreakerProperties.BreakArgsReverseOrder | libjulia/optimiser/ExpressionBreaker.cpp:90-104 | when all arguments are flat calls, the declaration for argument `j` is the `j`-th from the end and binds the identifier now at position `j` to the call that stood there |
| BreakerProperties.BreakOneCall | libjulia/optimiser/ExpressionBreaker.cpp:93-104 | an argument list whose only call is a flat one gets exactly one declaration, binding the next fresh name to that call, and that name takes the call's position |
| BreakerProperties.BreakSimpleArgs | libjulia/optimiser/ExpressionBreaker.cpp:90-93 | an argument list without calls, the empty one included, is left alone, produces nothing and draws no name |
| BreakerProperties.FlatExprUnchanged | libjulia/optimiser/ExpressionBreaker.cpp:93 | an expression with no call argument is left alone and produces no declaration |
| BreakerProperties.FlatStmtUnchanged | libjulia/optimiser/ExpressionBreaker.h:73-76 | a flat statement, nested blocks included, is left alone and produces no declaration |
| BreakerProperties.FlatBlockUnchanged | libjulia/optimiser/ExpressionBreaker.cpp:64-83 | a flat block, nested blocks included, is returned as it is and no name is drawn |
| BreakerProperties.NothingPendingNotRebuilt | libjulia/optimiser/ExpressionBreaker.cpp:64-83 | when no statement's visit hands a declaration to the block, the block is not rebuilt: it has one statement per original statement, each the visited original (its nested blocks may still have been broken and drawn names) |
| BreakerProperties.VisitStmtFacts | libjulia/optimiser/ExpressionBreaker.cpp:51-57 | a visited statement is flat; the declarations it hands up are distinct unused bindings of flat calls; a loop or block hands nothing up and a loop keeps its condition |
| BreakerProperties.VisitBlockFacts | libjulia/optimiser/ExpressionBreaker.h:59-60 | after the step no call in the block or any nested block has a call argument except in loop conditions, and names are only ever added to the used set |
| BreakerProperties.Idempotent | libjulia/optimiser/ExpressionBreaker.h:46-47 | the step's output consists of simple expressions only, so running the step again changes nothing and draws no name |
| BreakerProperties.ArgsRoundTrip | libjulia/optimiser/ExpressionBreaker.cpp:95-104 | substituting the new declarations into the broken arguments gives back the original arguments, so each name stands exactly where its call was |
| BreakerProperties.ExprRoundTrip | libjulia/optimiser/ExpressionBreaker.cpp:41-49 | substituting the declarations an expression's visit produced into the visited expression gives back the original expression |
| BreakerProperties.StmtRoundTrip | libjulia/optimiser/ExpressionBreaker.h:81-83 | the pending declarations of a statement are exactly what must go in front of it: folded back into the visited statement, they give the original statement |
| BreakerProperties.BlockRoundTrip | libjulia/optimiser/ExpressionBreaker.cpp:64-83 | folding each run of fresh declarations into the statement after it restores the original block, so the original statements keep their order |
| BreakerProperties.PassUndone | libjulia/optimiser/ExpressionBreaker.cpp:59-86 | the names the step added to the used set identify its declarations, and inlining them undoes the step |
| BreakerProperties.BreakArgsCount | libjulia/optimiser/ExpressionBreaker.cpp:90-105 | breaking an argument list makes exactly one declaration per call argument, counting calls nested inside call arguments |
| BreakerProperties.BreakArgsReferenced | libjulia/optimiser/ExpressionBreaker.cpp:95-104 | each declaration made while breaking an argument list binds a name that occurs in the broken arguments or in the value of a declaration made after it |
| BreakerProperties.VisitExprReferenced | libjulia/optimiser/ExpressionBreaker.cpp:41-49 | each declaration an expression's visit produces is referenced by the visited expression or by a later declaration |
| BreakerProperties.VisitStmtReferenced | libjulia/optimiser/ExpressionBreaker.h:81-83 | each declaration a statement hands to its block is referenced by the statement's own value or condition, or by a later declaration |
| BreakerProperties.StmtFreshNames | libjulia/optimiser/ExpressionBreaker.h:73-76 | each name a statement's visit drew is bound exactly once, among the declarations it hands up and those in its own nested blocks, and these are all the names it drew |
| BreakerProperties.BlockFreshNames | libjulia/optimiser/ExpressionBreaker.cpp:59-86 | each name a block's visit drew is bound exactly once in the rebuilt block, nested blocks included, and these are all the names it drew |
| BreakerProperties.SynthesisedNames | libjulia/optimiser/ExpressionBreaker.cpp:98-104 | when the used set holds every name of the block, as the dispenser is seeded, the names of the synthesised declarations are pairwise distinct, none was in use before, and they are exactly the names added to the used set |
| BreakerExamples.FirstNames | test/libjulia/ExpressionBreaker.cpp:62 | the dispenser hands out `_1`, `_2`, `_3` in order, skipping names already used |
| BreakerExamples.ControlFlowNames | test/libjulia/ExpressionBreaker.cpp:80-92 | with `x`, `a`, `b` in use the dispenser hands out `_1` to `_4` in order |
| BreakerExamples.SmokeTest | test/libjulia/ExpressionBreaker.cpp:55 | `{ }` stays `{ }` |
| BreakerExamples.TwoCalls | libjulia/optimiser/ExpressionBreaker.h:51-57 | of two flat call arguments the last is bound first, to the first name drawn |
| BreakerExamples.Trivial | test/libjulia/ExpressionBreaker.cpp:60-63 | the trivial test's block breaks into three declarations in the tested order, for any used set |
| BreakerExamples.TrivialTest | test/libjulia/ExpressionBreaker.cpp:60-63 | the trivial test's exact expected output |
| BreakerExamples.DocumentedExample | libjulia/optimiser/ExpressionBreaker.h:49-57 | `sstore(mul(x, 4), mload(y))` becomes the two declarations of the class documentation, last argument first, and `sstore(a2, a1)` |
| BreakerExamples.DocumentedExampleTest | libjulia/optimiser/ExpressionBreaker.h:49-57 | the documented example with the names `_1`, `_2` |
| BreakerExamples.LoopPost | test/libjulia/ExpressionBreaker.cpp:83-87 | the loop's post block keeps its declaration inside itself |
| BreakerExamples.LoopBody | test/libjulia/ExpressionBreaker.cpp:88-93 | the loop body's two statements each get their declaration immediately before them |
| BreakerExamples.LoopExample | test/libjulia/ExpressionBreaker.cpp:72-75 | the loop's condition `lt(a, mload(a))` survives, nothing is handed to the enclosing block, and pre, post and body draw names in that order |
| BreakerExamples.ControlFlow | test/libjulia/ExpressionBreaker.cpp:68-96 | the control-flow test's block breaks as tested: the `if` condition's declaration goes before the `if`, and the loop's declarations stay inside its blocks |
| BreakerExamples.ControlFlowTest | test/libjulia/ExpressionBreaker.cpp:68-96 | the control-flow test's exact expected output |

## Left out

- `Switch`, function definitions and the other AST kinds of the generic `ASTModifier` traversal are not modelled. Their traversal is not part of this model, and the tests do not use them.
- `SourceLocation` is not modelled. It is only copied onto the new declaration and identifier.
- The (empty) types of `TypedName` are not modelled.
- Parsing and `AsmPrinter` are not modelled. The tests' three cases are lemmas over the AST instead.
- `NameCollector` is not part of this model. The used-name set it would compute is the dispenser's constructor argument.
- `NameDispenser` is not part of this model. Its `newName` is modelled as the least unused `_k`, which is the naming the tests show.
- AST nodes are Dafny values, so the in-place rewriting of a node is modelled by returning the rewritten node. Aliasing into the tree, `std::move`, `shared_ptr` and `boost::variant` type tests are not modelled.
- Semantic equivalence under an evaluator is not modelled, because no interpreter is part of this model. The syntactic inverse (`Inlining.Unbreak`) stands in for it.
- ExpressionBreaker.ExpressionBreaker.BreakExpression: the loop counter is an unbounded integer. The conversion of the argument count to `int` (`libjulia/optimiser/ExpressionBreaker.cpp:90`) is not modelled, because it only matters beyond 2^31 arguments.
