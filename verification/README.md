# A verified model of a small C compiler's middle end, code generator and `#if` evaluator

The compiler lowers a C function to a three-address form: blocks of instructions whose
values are defined once, joined by phis. On that form it computes reverse postorder,
dominators and dominance frontiers, turns frame slots into values, checks the result, and
rewrites it. It also has a direct code generator, which walks the tree and emits code for a
push and pop machine with labels, and a preprocessor that evaluates `#if` expressions while
it reads them. The project models these three parts and proves what each is for.

**The middle end.** `Semantics` is the meaning of a body: all phis of a block at once, then
its instructions, one block after another. What operators, memory and called functions do is
a parameter, so what is proved about a pass holds for every machine. A run can return, trap,
go on, or go wrong (an unassigned value, no operand for the edge taken, no terminator).

* `Cfg`, `Dominators`, `Frontiers`: the analyses, each as the loop that computes it, against
  the definition over all paths from the entry. Dominators end on every graph and are exact.
* `Verify`, `Soundness`: what the IR verifier accepts is exactly single assignment form but for
  two exceptions, and single assignment form never goes wrong.
* `Rewrite`, `Simulation`, `Equivalence`, `Edits`: removing and renaming values keeps every
  run, if each removed value is recomputed, copied or unread. Value numbering (`Cse`), copies
  and trivial phis (`CopyProp`) and dead code (`Dce`) are instances.
* `Slots`, `Widening`, `Forwarding`, `DeadSlots`, `Promotion`, `PhiPlacement`, `Renaming`,
  `Resolution`, `Assembly`, `BuildSsa`: promotion of slots. Phis are placed on exactly the
  iterated dominance frontier; the walk over the dominator tree keeps the rename stacks equal
  to what each slot holds; replacement chains are acyclic; the new body has the runs of the old.
* `Hoist`, `Licm`: a loop is exactly the natural loop of its header, and code motion out of it
  keeps every run, also when the loop is never entered.
* `Words`, `Fold`, `Identities`: constant folding, identities and strength reduction on 64-bit
  words, and that no identity of the kinds looked for is missed.
* `Instructions`: the tables over opcodes that the passes consult (what is pure, what has side
  effects, what can run early, what ends a block, how many operands, which expressions are the
  same) say exactly what running the instruction says.

**The code generator.** `Statements` is the meaning of statements over int expressions, with
`if`, `while`, `do`, `for`, `switch` with labels anywhere in its body, `break`, `continue`,
`return` and `goto`. `StackMachine` is the machine. `CodegenExpr` and `CodegenStmt` are the
code, `CodeEmitter` the generator that appends it to its output. `StmtCorrect` and
`CodegenFunction` prove that running the code does what the function means: it finishes with
the function's result, frame and the stack it began with, or traps where the function divides
by zero, or runs as long as the function does; and every label it jumps to is defined once.

**The `#if` evaluator.** `PpCond` compares precedence climbing with the ladder of one function per
precedence level, each with its own table of operators, in the language of the parser and in C's
language of directives. On all that the ladder accepts, both read the same tokens and the climb's
value is that of the ladder's tree; and on every token sequence, the climb reports no error
exactly where C's ladder reads a condition at its start, once a 0 stands behind the last token.

Instruction lists are sequences, a block is its position in the layout, a value its number.
A type object is compared by identity, which a name stands for; an operation reads only its
size and signedness (`Ir.Width`).

## Findings

Where the code does not do what its comments or the language say, the project keeps the code as it is, shows
an input, and proves exactly when the property holds.

| what fails | shown by | exactly when it holds |
|---|---|---|
| a constant unsigned right shift is folded to 0, because the count is shifted | `Fold.UnsignedShiftMisfolded` | `Fold.FoldBinaryAgrees`, `Fold.FoldKeeps`: every bit is shifted out, or the result type drops what is left |
| a signed division or remainder with an unsigned result is reduced to a shift or a mask | `Fold.SignedDivisionMisreduced` | `Fold.ReductionExact`: the operand is unsigned, or the remainder's divisor is a multiple of the result type's range |
| the IR verifier accepts an instruction that is its own operand | `Verify.SelfOperandAccepted` | `Verify.AcceptsIsSsa` |
| the IR verifier accepts a phi that names one edge twice | `Verify.TwiceOneEdgeAccepted` | `Verify.AcceptsIsSsa` |
| the frontiers miss the entry when it has one predecessor | `Frontiers.EntryFrontierMissed` | `Frontiers.CollectedIsFrontier` |
| a division by zero is reported in an operand of `#if` that is not evaluated, as in `1 or 1 / 0` | `PpCond.UnevaluatedDivisionReported` | `PpCond.ConditionalMatches`: an error is reported exactly where an operand, evaluated or not, divides by zero |
| a last operand that is missing, and whatever follows a condition, go unreported, as in `1 +` and `1 2` | `PpCond.MissingOperandNotReported`, `PpCond.RestNotReported` | `PpCond.ReportsExactly`: with a 0 behind the tokens, a condition can be read from their start and divides by zero nowhere |
| `continue` in a switch that is in no loop is let through and compiled as `break` | `CodegenStmt.ContinueInSwitch` | the same lemma: exactly outside a loop |

## Model

| member | source | states |
|---|---|---|
| Cfg.Postorder | src/ir/cfg.c:31-46 | depth-first search visits what is reachable, records each block once and after its successors |
| Cfg.AnalyzeCfg | src/ir/cfg.c:48-114 | a block gets a position exactly when a path leads to it; the order, positions and predecessor lists are those of the graph; unreachable blocks are emptied |
| Dominators.Intersect | src/ir/dom.c:32-43 | the block found is dominated by exactly what dominates both arguments |
| Dominators.ComputeDominators | src/ir/dom.c:45-96 | ends on every graph, and leaves a tree in which the ancestors of a block are exactly the blocks on every path to it |
| Dominators.FixedIsExact | src/ir/dom.c:45-96 | any fixed point of the iteration that keeps its invariants is the dominator tree |
| Dominators.IrDominates | src/ir/dom.c:98-107 | true exactly when every path from the entry to `b` passes `a` |
| Frontiers.ComputeFrontiers | src/ir/dom.c:124-157 | no frontier lists a block twice; the frontiers are exact if and only if the entry has not exactly one predecessor |
| Frontiers.CollectedIsFrontier | src/ir/dom.c:139-156 | the climbs from the predecessors of merges visit exactly the blocks whose frontier holds the merge, under the same condition |
| Frontiers.EntryFrontierMissed | src/ir/dom.c:139-156 | with one predecessor, the entry is in a frontier that does not list it |
| SsaForm.ScopeAnc | src/ir/verify.c:81-114 | what a dominating block has in scope at its end is in scope in every block it dominates |
| Instructions.PureMeans | src/ir/ir.c:253-275 | an instruction is pure exactly when, whatever the machine and the state, all it does is compute its result from its operands |
| Instructions.EffectsMean | src/ir/ir.c:236-251 | side effects are exactly changing the world or a slot, or taking control away; and parameters |
| Instructions.TerminatorMeans | src/ir/ir.c:315-318 | a terminator is exactly what can take control away |
| Instructions.EndedMeans | src/ir/ir.c:320-326 | a block has a terminator exactly when its last instruction can take control away |
| Instructions.SuccessorsMean | src/ir/ir.c:328-352 | the successors of a block are exactly the blocks its last instruction can go to |
| Instructions.SafeMeans | src/opt/licm.c:38-58 | what may be speculated is exactly what is pure and never traps where only division and remainder do |
| Instructions.SameExpressionMeans | src/opt/cse.c:47-85 | two pure operations other than constants and copies match exactly when they give equal values of one type on every machine and all operands |
| Instructions.ExpressionDecides | src/opt/fold.c:26-44 | what an operation on words gives depends on nothing that a machine is not told: opcode, immediate and the widths of result and operands |
| Instructions.AccessArity | src/ir/verify.c:49-79 | a load or store has its operands exactly when it can be an access to a slot |
| Instructions.BranchArity | src/ir/verify.c:49-79 | a branch has its operands exactly when it always goes somewhere |
| Instructions.OperatorArity | src/ir/verify.c:49-79 | an operator has its operands exactly when there are words from which it has a result |
| Instructions.OtherArity | src/ir/verify.c:49-79 | the rest: none for constants, addresses, parameters and jumps, two for a copy of memory, at least one for a call, any number for returns and phis |
| Soundness.NeverWrong | src/ir/verify.c:1-31 | no run of a body in single assignment form reads an unassigned value, lacks a phi operand, or falls off a block |
| Verify.IrVerify | src/ir/verify.c:222-246 | zero problems exactly for the bodies that pass every check |
| Verify.AcceptsIsSsa | src/ir/verify.c:86-246 | the checks on a body that is put together as the builder does, with no instruction its own operand and no phi naming an edge twice, are equivalent to single assignment form with the right operand counts |
| Verify.VerifiedNeverGoesWrong | src/ir/verify.c:1-31 | an accepted body without the two exceptions never goes wrong, on any machine, arguments and number of steps |
| Verify.SelfOperandAccepted | src/ir/verify.c:108-112 | an accepted body with an instruction that is its own operand, and its run that goes wrong |
| Verify.TwiceOneEdgeAccepted | src/ir/verify.c:128-163 | an accepted body whose phi names one edge twice, and its run that goes wrong |
| Edits.ReplaceUses | src/ir/ir.c:189-213 | every operand that was the one value is now the other, and nothing else has changed |
| Edits.Remove | src/ir/ir.c:124-169 | that one instruction is gone |
| Simulation.SimplificationPreservesRuns | include/opt.h:7-20 | a rewriting that removes only what is recomputed, copied, single-valued or unread keeps the form and every run |
| Cse.Matches | src/opt/cse.c:47-85 | the comparison field by field decides whether two instructions are the same expression |
| Cse.FindAvailable | src/opt/cse.c:87-98 | finds an available instruction with the same expression, or there is none |
| Cse.Visit | src/opt/cse.c:107-138 | after the subtree nothing in it repeats a dominating expression, every run is kept, and the table is as it was |
| Cse.OptCse | src/opt/cse.c:172-193 | keeps every run and the form; no pure instruction repeats one that dominates it; zero changes exactly when there was none |
| CopyProp.TrivialPhiValue | src/opt/dce.c:87-105 | the one value other than the phi itself among its operands, if there is exactly one |
| CopyProp.OnlyIsAbove | src/opt/dce.c:75-105 | the definition of that value dominates the phi's block, also around a loop |
| CopyProp.OptPropagateCopies | src/opt/dce.c:107-147 | keeps every run and the form; no copy and no trivial phi is left; zero changes exactly when there was none |
| Dce.CountUses | src/ir/ir.c:215-234 | how often each value is an operand |
| Dce.OptDce | src/opt/dce.c:23-73 | keeps every run that does not trap; nothing unused without side effects is left; zero changes exactly when there was none |
| DomChildren.BuildChildren | src/ir/ssa.c:330-362 | the children lists are the dominator tree |
| BuildSsa.IsPromotable | src/ir/ssa.c:92-123 | true exactly when the slot has a scalar type and is only ever the address of a load or store |
| PhiPlacement.PlacePhis | src/ir/ssa.c:159-220 | a new phi in exactly the blocks of the iterated dominance frontier of the storing blocks; the worklist never holds a block twice |
| Slots.SameAlongEdge | src/ir/ssa.c:224-295 | where no phi is placed, a slot leaves every predecessor with the value it left the immediate dominator with |
| Renaming.CurrentDef | src/ir/ssa.c:133-146 | the top of the slot's stack, or its zero, which is made once |
| Renaming.RenameBlock | src/ir/ssa.c:224-295 | after the walk over a subtree its loads are named, its accesses unlinked, every edge out of it has given each phi one operand, and the stacks are as they were |
| Resolution.Resolve | src/ir/ssa.c:302-309 | the chain of replacements ends, at the value of the whole chain |
| Resolution.ApplyReplacements | src/ir/ssa.c:311-326 | every operand is replaced by the end of its chain |
| Widening.InsertionPreservesRuns | src/ir/ssa.c:159-220 | new phis and zeros in front of the blocks change no run |
| Forwarding.ForwardingPreservesRuns | src/ir/ssa.c:224-295 | a load of a promoted slot always gives the current definition of the slot |
| DeadSlots.DroppingPreservesRuns | src/ir/ssa.c:364-444 | slots that are only written can go with their stores |
| Promotion.ReplacingPreservesRuns | src/ir/ssa.c:297-326 | removing loads, stores and slots together, with operands resolved, keeps every run |
| Assembly.PromotionPreservesRuns | src/ir/ssa.c:224-326 | from the state the walk leaves, chains are acyclic and the finished body has the runs of the first |
| BuildSsa.BuildSsa | src/ir/ssa.c:364-444 | exactly the promotable slots of the entry are promoted; the body is in single assignment form, has every run of the old one on zeroed slots, and mentions no promoted slot |
| BuildSsa.WellBuiltIsAccepted | src/ir/verify.c:222-246 | a body in single assignment form passes the checks exactly when every instruction has its operands and result, as the promoted body does |
| Licm.CollectLoop | src/opt/licm.c:65-89 | the marks grow by the tail and what reaches it without passing the header, and stay below the header |
| Licm.LoopOf | src/opt/licm.c:206-226 | with all back edges together the marks are exactly the natural loop |
| Licm.BodyIsNatural | src/opt/licm.c:60-89 | a set below the header that is closed under predecessors and holds the tails is the natural loop |
| Licm.ChainInLoop | src/opt/licm.c:10-30 | every block between the header and a loop block in the dominator tree is in the loop |
| Licm.ParentOutside | src/opt/licm.c:10-30 | the header's immediate dominator is outside the loop |
| Licm.OutsideIsAbove | src/opt/licm.c:92-98 | a value in scope in the loop but defined outside is available at the end of the header's immediate dominator |
| Hoist.HoistPreservesRuns | src/opt/licm.c:100-184 | moving one pure instruction that cannot trap up the dominator tree keeps the form and every run |
| Licm.HoistFromLoop | src/opt/licm.c:100-184 | keeps every run; ends with nothing movable in the loop; moves nothing exactly when nothing was |
| Licm.OptLicm | src/opt/licm.c:186-234 | keeps every run and the form; zero changes exactly when no natural loop holds a movable instruction |
| Words.TruncateCongruent | src/opt/fold.c:26-44 | two words are narrowed to the same value exactly when they agree modulo the type's range |
| Words.TruncateRepresents | src/opt/fold.c:26-44 | that value is congruent to the word and in the range of the type, signed or unsigned; a type of another size keeps the word |
| Words.QuotientTruncates | src/opt/fold.c:99-114 | division rounds toward zero: the remainder is below the divisor in size and has the sign of the dividend |
| Words.BitwiseBit | src/opt/fold.c:132-134 | each bit of the result of and, or, exclusive or is that of the two bits in its place |
| Fold.ResultFits | src/opt/fold.c:26-44 | what an instruction computes fits the type of its result |
| Fold.FoldBinaryAgrees | src/opt/fold.c:93-143 | a fold equals what the machine computes, except for an unsigned right shift that leaves a bit |
| Fold.FoldDeclines | src/opt/fold.c:88-143 | a fold is declined exactly for a trap, a shift count out of range, and other opcodes |
| Fold.OverflowMeans | src/opt/fold.c:103-114 | the one excluded case is exactly the signed division or remainder whose quotient is no word |
| Fold.UnsignedShiftMisfolded | src/opt/fold.c:126-131 | 255 >> 4, unsigned, is folded to 0 |
| Fold.IdentitySound | src/opt/fold.c:161-256 | every identity gives the instruction's result, on all operands that fit their types |
| Identities.NeutralRight | src/opt/fold.c:169-214 | with a constant 0 or 1 on the right, the left operand replaces the result exactly when it has its type and is always equal to it |
| Identities.NeutralLeft | src/opt/fold.c:169-214 | the same with the constant on the left |
| Identities.AbsorbingTaken | src/opt/fold.c:188-214 | in arithmetic and bitwise operations with a constant 0, the result becomes 0 exactly when it is always 0 |
| Identities.SameOperandTaken | src/opt/fold.c:226-255 | with one value as both operands, the result becomes 0 or 1 exactly when it is always that |
| Identities.SameOperandUsed | src/opt/fold.c:212-240 | ... and the operand replaces the result exactly when it has its type and is always equal to it |
| Fold.PowerOfTwo | src/opt/fold.c:70-81 | the exponent if the word is a positive power of two, else -1 |
| Fold.StrengthReduce | src/opt/fold.c:268-315 | rewrites exactly multiplications, and divisions and remainders with an unsigned result, by a power of two above one |
| Fold.ReductionExact | src/opt/fold.c:258-315 | a reduction is right on all operands if and only if it reads them as unsigned, multiplies, or takes a remainder by a multiple of the range |
| Fold.SignedDivisionMisreduced | src/opt/fold.c:286-291 | a division that is reduced, and the operand -7 for which the result differs |
| Fold.FoldKeeps | src/opt/fold.c:62-67 | a folded constant, narrowed, is the instruction's narrowed result exactly unless an unsigned right shift leaves something in range |
| Fold.DecideBinary | src/opt/fold.c:330-379 | the decision keeps the result on all operands that fit, exactly when it is neither of the two misfolds; it leaves an instruction alone only where nothing can be folded, replaced or reduced |
| Fold.DecideUnary | src/opt/fold.c:342-372 | folding a unary operation or dropping a cast to the same type keeps the result; a constant operand is always folded but in a copy, and a cast to the same type always dropped |
| PpCond.TableIsLadder | src/frontend/pp_cond.c:82-105 | the precedence of an operator is the one level of the ladder whose loop takes it |
| PpCond.LevelMatches | src/frontend/pp_cond.c:139-179 | climbing with a minimum is the ladder's function of that level: same tokens, same value, in either language |
| PpCond.ConditionalMatches | src/frontend/pp_cond.c:139-179 | climbing agrees with the ladder on all it accepts, and reports an error exactly where an operand, needed or not, divides by zero |
| PpCond.OneOperator | src/frontend/parser_expr.c:465-613 | seen from any level at or below its own, an operator takes the operand of the level above, and the ladder goes on |
| PpCond.ClimbPadded | src/frontend/pp_cond.c:31-80 | a 0 behind the last token makes no difference to the value or to what is reported |
| PpCond.ConditionalRead | src/frontend/pp_cond.c:139-179 | where the climb reports nothing on tokens that do not break off, the ladder accepts |
| PpCond.ReportsExactly | src/frontend/pp_cond.c:232-250 | nothing is reported exactly where a condition can be read from the tokens and one more 0 |
| PpCond.MissingOperandNotReported | src/frontend/pp_cond.c:31-37 | `1 +` is no condition, is taken for `1 + 0`, and is not reported |
| PpCond.RestNotReported | src/frontend/pp_cond.c:232-250 | `1 2` is taken for `1`, and is not reported |
| PpCond.EagerIsEval | src/frontend/pp_cond.c:107-137 | evaluating operands that are not needed changes no value |
| PpCond.UnevaluatedDivisionReported | src/frontend/pp_cond.c:107-137 | a disjunction of 1 and 1 / 0 has the value 1, and a division by zero is reported |
| PpCond.CondParser.CondPrimary | src/frontend/pp_cond.c:31-80 | value, position and errors of a primary, with its side effects on the parser |
| PpCond.CondParser.CondExpression | src/frontend/pp_cond.c:139-179 | the loop computes the climb |
| PpCond.ParseLevel | src/frontend/parser_expr.c:465-613 | the loop of a level builds the left-associated tree of the ladder |
| PpCond.ParseFactor | src/frontend/parser_expr.c:97-324 | literals, prefix operators and parentheses |
| PpCond.ParseConditional | src/frontend/parser_expr.c:437-463 | the conditional operator over the ladder |
| PpCond.EvaluateCondition | src/frontend/pp_cond.c:232-250 | on what the ladder accepts, the value of its tree; on all tokens, no error exactly where C's ladder reads a condition free of divisions by zero at the start of the tokens with a 0 behind them, and then its value |
| CodegenExpr.TailRuns | src/backend/codegen_expr.c:341-436 | the code after both operands computes the operation or traps with it; a comparison gives 1 or 0 as the integers themselves compare |
| CodegenExpr.ExpressionComputes | src/backend/codegen_expr.c:438-734 | from any state the code of an int expression leaves its value, its frame and the stack as it was, or traps where the value divides by zero |
| LoopRuns.CaseTestsRun | src/backend/codegen_stmt.c:59-89 | the comparisons lead to the label of the first equal case, or on |
| StmtCorrect.StatementDoes | src/backend/codegen_stmt.c:113-423 | the code of a statement, entered at its start or at any label in it, ends where and as the statement does, with the stack as it was; without an end it takes at least as many steps as rounds |
| CodeLabels.ExpressionLabels | src/backend/codegen_expr.c:560-615 | an expression defines exactly the labels it has numbered, each once |
| CodeLabels.StatementLabels | src/backend/codegen_stmt.c:113-423 | a statement defines exactly the labels it has numbered, those of its cases and its goto labels, each once |
| CodegenFunction.FunctionLabels | src/backend/codegen.c:244-280 | a function defines exactly the labels from its first number to its last, each once |
| CodegenFunction.JumpsAreDefined | src/backend/codegen.c:244-280 | every label the code of a function jumps to is defined exactly once |
| CodegenFunction.FunctionRuns | src/backend/codegen.c:244-280 | running a function from its start gives its result, frame and the first stack, traps with it, and outlasts it |
| CodegenFunction.MachineStopsExactly | src/backend/codegen.c:244-280 | whatever the machine has done after n steps is what the function does: it is never stuck, finishes only with its result, traps only with it |
| Statements.ProperMeans | src/backend/codegen_stmt.c:407-418 | a body is let through exactly when every `break` in it is below a loop or switch, every `continue` below a loop, and every goto label is numbered |
| CodegenStmt.ContinueInSwitch | src/backend/codegen_stmt.c:325-352 | `continue` straight in a switch has the code of `break` exactly outside a loop |
| CodeEmitter.Emitter.LabelForName | src/backend/codegen_stmt.c:17-32 | the number of the name, a new one if it has none |
| CodeEmitter.Emitter.CollectLabels | src/backend/codegen_stmt.c:34-44 | the goto labels get the next numbers in textual order |
| CodeEmitter.Emitter.EmitSwitchTests | src/backend/codegen_stmt.c:59-89 | comparisons for exactly the cases of this switch, numbered in order, and the label of the last default |
| CodeEmitter.Emitter.PushLoop | src/backend/codegen_stmt.c:91-104 | the innermost labels are the pushed ones |
| CodeEmitter.Emitter.PopLoop | src/backend/codegen_stmt.c:106-111 | the labels pushed last are gone |
| CodeEmitter.Emitter.GenerateExp | src/backend/codegen_expr.c:438-734 | the output grows by the code of the expression, the label count by its labels |
| CodeEmitter.Emitter.GenerateStatement | src/backend/codegen_stmt.c:113-423 | the output grows by the code of the statement in its surroundings, and the loop stacks are as they were |
| CodeEmitter.Emitter.GenerateFunction | src/backend/codegen.c:244-280 | the output grows by the code of the function, and its goto labels are forgotten |

## Left out

- BuildSsa.BuildSsa: a slot is one cell that its own loads and stores access at one width; the front end converts where widths differ, which `PointeeTypes` asks for. Narrow slots read at another width are not modelled.
- Semantics: a copy moves a register as it is, while the interpreter of the tests narrows it to the result type; negation and complement are narrowed, as constant folding does.
- Semantics: memory, called functions and operators are parameters. Frame slots are private only if nothing but their own loads and stores mentions them.
- Dce.OptDce: a run that traps may stop trapping, because an unused division goes.
- Cfg.AnalyzeCfg: a function has at least one block. Unreachable blocks are empty afterwards, which the other passes rely on.
- Verify.IrVerify: a phi whose list of edges has been emptied again is taken to have none.
- Fold.DecideBinary: signed addition, subtraction and multiplication wrap. The most negative word divided by -1 has no result and is excluded. The loop of the folding pass, which applies the decisions in place to a body, is not modelled; each decision is proved for one instruction.
- Identities.AbsorbingTaken: a shift of 0, a remainder by 1 and an unsigned comparison with 0 can have a constant result too; the pass leaves them alone.
- Instructions.SameExpressionMeans: constants and copies are matched by all their fields, though a constant's value is its immediate alone; `Cse.Matches` covers them.
- Renaming.RenameBlock: new instructions are kept aside and linked in front of their blocks when the walk is over.
- Cse.OptCse: the pointer from a value to its instruction is a search, so a removed instruction is not reachable through its value.
- CodegenFunction.FunctionRuns: 32-bit arithmetic is a parameter in which addition, multiplication and the bitwise operations commute. The prologue, parameters and frame layout are not modelled; distinct variables have distinct slots. Every `goto` has a target, no goto label is defined twice and no case label stands outside a switch; the compiler leaves the first two to the assembler.
- CodegenExpr.ExpressionComputes: int variables only. Unsigned and wider types, casts, calls, pointers, arrays, structs, `sizeof` and floating point are not modelled.
- CodeEmitter.Emitter.GenerateStatement: the number of a case label is passed along instead of being stored in the tree.
- PpCond.ParseLevel: the parser has one function per level with the same loop; here the level is a parameter. It has no identifiers, and no unary plus, which the parser does not know either; the ladder in the language of directives has both. `defined` is not modelled.
- Floating point: constants, casts between integer and floating types, and comparisons of a value with itself.
- Lowering from the tree to blocks (src/ir/lower.c).
- Inlining, tail calls and block merging (src/opt/inline.c, src/opt/tailcall.c, src/opt/simplify.c), and the pipeline as a whole.
- PpCond.EvaluateCondition: arithmetic and bitwise operators are a parameter; comparisons, the logical operators and division by zero are modelled.
- Macro expansion, lexing, include lookup and diagnostics.
- Struct layout and type sizes, which are easy.
