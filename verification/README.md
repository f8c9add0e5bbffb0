# Tai-e static analyses, modelled in Dafny

This project models the analyses of the Tai-e assignments (A1–A8): the
round-robin data-flow solver, intraprocedural constant propagation over
Java `int`, dead-code detection, call-graph construction by class
hierarchy analysis (CHA), the context-insensitive and context-sensitive
points-to solvers, interprocedural constant propagation with alias-aware
field and array tables, and taint-flow collection. It states and proves
what each of them computes.

The modules follow the program's components:

- `Wrappers`: `Option` and `Result`.
- `JavaInt`: Java's 32-bit `int` arithmetic. This covers wrap-around, division and remainder rounded toward zero, shifts that use the low five bits of the distance, and the bitwise operators.
- `Ir`: the slice of Tai-e's IR the analyses read. It holds variables, fields, call sites, statements, method bodies and abstract objects.
- `IterativeSolver` (A1): the backward round-robin solver.
- `ConstProp` (A2): the constant lattice, facts, the meet, and the evaluation and transfer of a statement.
- `DeadCode` (A3): the marking walk over the CFG and the side-effect test. The walk is modelled both as written, returning at the first marked successor, and as evidently intended, skipping it (see Findings).
- `Cha` (A4): dispatch, CHA resolution and the breadth-first call-graph construction.
- `PointerFlow`: the pointer-flow graph, worklist, `addPFGEdge` and `propagate`. Both points-to solvers share it.
- `PtaCi` (A5): the context-insensitive solver.
- `PtaCs` (A6): the context-sensitive solver.
- `InterConstProp` (A7): the node and edge transfers of interprocedural constant propagation.
- `InterSolver` (A7): the interprocedural round-robin solver, generic over the analysis.
- `Taint` (A8): the taint configuration queries, taint objects and taint-flow collection.

Several traits of the code are modelled as they stand. Each one changes what the analysis computes:

- CHA's `resolve` looks up the subsignature of the *calling* method. A static call resolves to the caller itself.
- In the context-sensitive solver, `addReachable` only re-adds a method that the call graph already contains, so the set of reachable methods never grows.
- Copies and static field accesses in the context-sensitive solver insert their flow edge with the raw `addEdge`. That call does not enqueue the source's objects. `PtaCs.RawEdgeLosesObjects` exhibits a state in which this leaves a flow edge whose objects never cross.
- The context-sensitive `processCall` returns at the first receiver call that does not dispatch. The context-insensitive one skips that call and continues.
- CHA's `buildCallGraph` registers the entry with `addEntryMethod` only, and marks only callees reachable. The entry method is therefore reachable only when some call resolves to it, as in the two points-to solvers.
- A worklist entry made by `addPFGEdge` holds the source pointer's live points-to set. Objects the source gains while the entry waits are therefore delivered too (`PointerFlow.PtsRef.Live`).

## Model

| member | source | states |
|---|---|---|
| JavaInt.Wrap | A2/tai-e/src/main/java/pascal/taie/analysis/dataflow/analysis/constprop/ConstantPropagation.java:181-186 | the 32-bit result of an `int` operation is congruent to the exact result modulo 2^32 |
| JavaInt.WrapUnique | A2/tai-e/src/main/java/pascal/taie/analysis/dataflow/analysis/constprop/ConstantPropagation.java:181-186 | exactly one `int` is congruent to a given integer modulo 2^32, so the wrapped result is determined |
| JavaInt.WrapInRange | A2/tai-e/src/main/java/pascal/taie/analysis/dataflow/analysis/constprop/ConstantPropagation.java:181-186 | a result that fits in 32 bits is not changed by the wrap-around |
| JavaInt.WrapPeriodic | A2/tai-e/src/main/java/pascal/taie/analysis/dataflow/analysis/constprop/ConstantPropagation.java:181-186 | adding any multiple of 2^32 to the exact result does not change the `int` result |
| JavaInt.Add | A2/tai-e/src/main/java/pascal/taie/analysis/dataflow/analysis/constprop/ConstantPropagation.java:181-182 | `+` on `int` agrees with the exact sum modulo 2^32 |
| JavaInt.Sub | A2/tai-e/src/main/java/pascal/taie/analysis/dataflow/analysis/constprop/ConstantPropagation.java:183-184 | `-` on `int` agrees with the exact difference modulo 2^32 |
| JavaInt.Mul | A2/tai-e/src/main/java/pascal/taie/analysis/dataflow/analysis/constprop/ConstantPropagation.java:185-186 | `*` on `int` agrees with the exact product modulo 2^32 |
| JavaInt.RemainderFacts | A2/tai-e/src/main/java/pascal/taie/analysis/dataflow/analysis/constprop/ConstantPropagation.java:187-194 | with the quotient rounded toward zero, the remainder is smaller in magnitude than the divisor and takes the sign of the dividend |
| JavaInt.Rem | A2/tai-e/src/main/java/pascal/taie/analysis/dataflow/analysis/constprop/ConstantPropagation.java:191-194 | Java `%` is smaller in magnitude than the divisor and never has the opposite sign to the dividend |
| JavaInt.DivRemIdentity | A2/tai-e/src/main/java/pascal/taie/analysis/dataflow/analysis/constprop/ConstantPropagation.java:187-194 | `(a / b) * b + a % b == a` holds in `int` arithmetic for every nonzero divisor, overflow included |
| JavaInt.Div | A2/tai-e/src/main/java/pascal/taie/analysis/dataflow/analysis/constprop/ConstantPropagation.java:187-190 | Java `/` is the exact quotient rounded toward zero, reduced modulo 2^32; it equals that quotient except for `Integer.MIN_VALUE / -1` |
| JavaInt.DivOverflow | A2/tai-e/src/main/java/pascal/taie/analysis/dataflow/analysis/constprop/ConstantPropagation.java:187-190 | `Integer.MIN_VALUE / -1` overflows back to `Integer.MIN_VALUE` and does not fail |
| JavaInt.ShiftDistance | A2/tai-e/src/main/java/pascal/taie/analysis/dataflow/analysis/constprop/ConstantPropagation.java:209-214 | a shift uses a distance below 32 that agrees with the given distance modulo 32 |
| JavaInt.Halve | A2/tai-e/src/main/java/pascal/taie/analysis/dataflow/analysis/constprop/ConstantPropagation.java:209-210 | halving `k` times is the floor of the value divided by 2^k, so it keeps the sign and never grows the magnitude |
| JavaInt.Shl | A2/tai-e/src/main/java/pascal/taie/analysis/dataflow/analysis/constprop/ConstantPropagation.java:211-212 | `<<` multiplies by 2 to the shift distance and keeps the result modulo 2^32; a zero distance leaves the value |
| JavaInt.Shr | A2/tai-e/src/main/java/pascal/taie/analysis/dataflow/analysis/constprop/ConstantPropagation.java:209-210 | `>>` is the floor of the value divided by 2 to the shift distance, so it keeps the sign |
| JavaInt.Unsigned | A2/tai-e/src/main/java/pascal/taie/analysis/dataflow/analysis/constprop/ConstantPropagation.java:213-214 | the unsigned reading of an `int` is below 2^32 and congruent to it |
| JavaInt.Ushr | A2/tai-e/src/main/java/pascal/taie/analysis/dataflow/analysis/constprop/ConstantPropagation.java:213-214 | `>>>` by a nonzero distance divides the unsigned reading of the bits by 2 to the distance, rounding down; a zero distance leaves the value |
| JavaInt.ShiftByWidth | A2/tai-e/src/main/java/pascal/taie/analysis/dataflow/analysis/constprop/ConstantPropagation.java:209-214 | shifting by a multiple of 32 leaves the value unchanged for all three shift operators |
| JavaInt.RightShifts | A2/tai-e/src/main/java/pascal/taie/analysis/dataflow/analysis/constprop/ConstantPropagation.java:209-214 | `>>>` and `>>` agree on non-negative values, and `>>>` by a nonzero distance is never negative |
| JavaInt.HalveBelow | A2/tai-e/src/main/java/pascal/taie/analysis/dataflow/analysis/constprop/ConstantPropagation.java:213-214 | a logical shift by a nonzero distance yields a value that fits in a non-negative `int` |
| JavaInt.FromBitsInjective | A2/tai-e/src/main/java/pascal/taie/analysis/dataflow/analysis/constprop/ConstantPropagation.java:216-221 | decoding 32 bits as a two's-complement `int` and encoding it again gives back the same bits, so bitwise or, and and xor act on the exact bit patterns |
| JavaInt.And | A2/tai-e/src/main/java/pascal/taie/analysis/dataflow/analysis/constprop/ConstantPropagation.java:218-219 | the bits of `a & b` are the and of the operands' two's-complement bits |
| JavaInt.Or | A2/tai-e/src/main/java/pascal/taie/analysis/dataflow/analysis/constprop/ConstantPropagation.java:216-217 | the bits of the or of two ints are the or of their two's-complement bits |
| JavaInt.Xor | A2/tai-e/src/main/java/pascal/taie/analysis/dataflow/analysis/constprop/ConstantPropagation.java:220-221 | the bits of `a ^ b` are the exclusive or of the operands' two's-complement bits |
| ConstProp.MeetValue | A2/tai-e/src/main/java/pascal/taie/analysis/dataflow/analysis/constprop/ConstantPropagation.java:79-99 | `meetValue` is the greatest lower bound in the lattice UNDEF above every constant above NAC |
| ConstProp.MeetLaws | A2/tai-e/src/main/java/pascal/taie/analysis/dataflow/analysis/constprop/ConstantPropagation.java:79-99 | the meet is commutative, idempotent and associative, UNDEF is its identity and NAC absorbs everything |
| ConstProp.Update | A2/tai-e/src/main/java/pascal/taie/analysis/dataflow/analysis/constprop/ConstantPropagation.java:115-116 | after `update(v, val)`, `v` reads `val` and no other variable changes; the reported flag is set exactly when `v`'s value changed |
| ConstProp.CanonicalExtensional | A2/tai-e/src/main/java/pascal/taie/analysis/dataflow/analysis/constprop/ConstantPropagation.java:102-135 | two facts that store no UNDEF and read the same for every variable are equal, so "OUT changed" is a property of OUT's readings |
| ConstProp.CopyFrom | A2/tai-e/src/main/java/pascal/taie/analysis/dataflow/analysis/constprop/ConstantPropagation.java:113-118 | `copyFrom` overlays the source's entries and keeps the target's other entries; it reports a change exactly when the target differs afterwards |
| ConstProp.MeetInto | A2/tai-e/src/main/java/pascal/taie/analysis/dataflow/analysis/constprop/ConstantPropagation.java:64-74 | `meetInto` sets each of the fact's variables in the target to the meet of the two values, copies a value the target lacks, and leaves the target's other variables alone |
| ConstProp.CanHoldIntIffNarrowIntegral | A2/tai-e/src/main/java/pascal/taie/analysis/dataflow/analysis/constprop/ConstantPropagation.java:140-153 | the variables `canHoldInt` accepts are exactly the booleans and those of an integral type (section 4.2.1 of the Java Language Specification) at most 32 bits wide |
| ConstProp.NewBoundaryFact | A2/tai-e/src/main/java/pascal/taie/analysis/dataflow/analysis/constprop/ConstantPropagation.java:49-56 | the boundary fact maps exactly the int-holding parameters, each to NAC |
| ConstProp.NewInitialFact | A2/tai-e/src/main/java/pascal/taie/analysis/dataflow/analysis/constprop/ConstantPropagation.java:59-61 | the initial fact reads UNDEF for every variable |
| ConstProp.EvalBinary | A2/tai-e/src/main/java/pascal/taie/analysis/dataflow/analysis/constprop/ConstantPropagation.java:172-224 | on two constants the result is UNDEF exactly for division or remainder by zero and for the comparison operators; conditions yield 0 or 1; the result is never NAC |
| ConstProp.Evaluate | A2/tai-e/src/main/java/pascal/taie/analysis/dataflow/analysis/constprop/ConstantPropagation.java:162-230 | a binary expression is NAC exactly when an operand is NAC, and a constant only when both operands are constants; expressions other than literals, variables and binary expressions are NAC |
| ConstProp.EvalWrapping | A2/tai-e/src/main/java/pascal/taie/analysis/dataflow/analysis/constprop/ConstantPropagation.java:181-186 | on constants, `+`, `-` and `*` give the exact sum, difference and product reduced modulo 2^32 |
| ConstProp.EvalDivision | A2/tai-e/src/main/java/pascal/taie/analysis/dataflow/analysis/constprop/ConstantPropagation.java:187-194 | on constants, `/` gives the exact quotient rounded toward zero reduced modulo 2^32, and `%` exactly the remainder that quotient leaves; a zero divisor gives UNDEF for both |
| ConstProp.EvalShifts | A2/tai-e/src/main/java/pascal/taie/analysis/dataflow/analysis/constprop/ConstantPropagation.java:209-214 | on constants, `<<` multiplies by 2 to the low five bits of the distance modulo 2^32, `>>` divides by it rounding down, and `>>>` by a nonzero distance divides the unsigned reading |
| ConstProp.EvalBitwise | A2/tai-e/src/main/java/pascal/taie/analysis/dataflow/analysis/constprop/ConstantPropagation.java:216-221 | on constants, the bitwise operators act on the two's-complement bits of the operands |
| ConstProp.EvaluateMonotone | A2/tai-e/src/main/java/pascal/taie/analysis/dataflow/analysis/constprop/ConstantPropagation.java:162-229 | evaluation is monotone: a fact lower in the lattice for every variable never gives a higher value |
| ConstProp.TransferNode | A2/tai-e/src/main/java/pascal/taie/analysis/dataflow/analysis/constprop/ConstantPropagation.java:102-135 | OUT takes IN's entries; a definition of an int-holding variable writes its right-hand side's value unless that value is UNDEF, in which case OUT keeps its old entry; the flag says whether OUT changed |
| IterativeSolver.DoSolveForward | A1/tai-e/src/main/java/pascal/taie/analysis/dataflow/solver/IterativeSolver.java:41-43 | the solver refuses forward analyses |
| IterativeSolver.Pass | A1/tai-e/src/main/java/pascal/taie/analysis/dataflow/solver/IterativeSolver.java:50-66 | a pass keeps a fact for every node, changes only the facts of the nodes it visits, and never touches the exit node |
| IterativeSolver.MeetSuccsBelow | A1/tai-e/src/main/java/pascal/taie/analysis/dataflow/solver/IterativeSolver.java:53-58 | for a meet below both arguments, the OUT fact after the meets lies below every successor's IN fact and below the old OUT |
| IterativeSolver.VisitNodeBelowSuccs | A1/tai-e/src/main/java/pascal/taie/analysis/dataflow/solver/IterativeSolver.java:51-61 | a visited node's new OUT lies below the IN of each of its successors |
| IterativeSolver.PassLowersOut | A1/tai-e/src/main/java/pascal/taie/analysis/dataflow/solver/IterativeSolver.java:48-66 | a pass only lowers OUT facts |
| IterativeSolver.VisitNodeReports | A1/tai-e/src/main/java/pascal/taie/analysis/dataflow/solver/IterativeSolver.java:59-62 | a visit changes only its node's IN, and with a faithful transfer it reports a change exactly when that IN changed |
| IterativeSolver.PassReportsChange | A1/tai-e/src/main/java/pascal/taie/analysis/dataflow/solver/IterativeSolver.java:48-66 | a pass reports a change exactly when some visited node's IN fact differs afterwards |
| IterativeSolver.DoSolveBackward | A1/tai-e/src/main/java/pascal/taie/analysis/dataflow/solver/IterativeSolver.java:46-69 | the solver keeps every node's facts and never alters the exit's; when it stops, the final pass changed nothing, so the IN facts are a fixed point of one more pass |
| DeadCode.Dedup | A3/tai-e/src/main/java/pascal/taie/analysis/dataflow/analysis/DeadCodeDetection.java:82 | the successors of a node are the distinct targets of its out-edges, each listed once |
| DeadCode.OutEdges | A3/tai-e/src/main/java/pascal/taie/analysis/dataflow/analysis/DeadCodeDetection.java:117 | `getOutEdgesOf(n)` holds exactly the edges whose source is `n` |
| DeadCode.Targets | A3/tai-e/src/main/java/pascal/taie/analysis/dataflow/analysis/DeadCodeDetection.java:117-127 | the targets of a list of edges, one per edge and in order |
| DeadCode.SuccsOf | A3/tai-e/src/main/java/pascal/taie/analysis/dataflow/analysis/DeadCodeDetection.java:82 | `getSuccsOf(n)` holds exactly the targets of edges out of `n` |
| DeadCode.SideEffectIffEvaluationCanFail | A3/tai-e/src/main/java/pascal/taie/analysis/dataflow/analysis/DeadCodeDetection.java:172-176 | the arithmetic operators `hasNoSideEffect` rejects are exactly those whose constant evaluation can fail, that is, division and remainder |
| DeadCode.CaseValues | A3/tai-e/src/main/java/pascal/taie/analysis/dataflow/analysis/DeadCodeDetection.java:135 | the case values of a switch are exactly the values of its case targets |
| DeadCode.CaseTargetsOf | A3/tai-e/src/main/java/pascal/taie/analysis/dataflow/analysis/DeadCodeDetection.java:136-141 | the targets chosen for a constant key are exactly the targets of the cases with that value |
| DeadCode.ChosenTargets | A3/tai-e/src/main/java/pascal/taie/analysis/dataflow/analysis/DeadCodeDetection.java:105-146 | a decided `if` follows exactly its true or false edges, as the constant condition dictates; a decided `switch` follows the matching cases, or the default target when none matches |
| DeadCode.AnalyzeAsWritten | A3/tai-e/src/main/java/pascal/taie/analysis/dataflow/analysis/DeadCodeDetection.java:56-76 | the reported dead code consists of statements of the method that the walk, returning at the first marked successor, leaves unmarked |
| DeadCode.Analyze | A3/tai-e/src/main/java/pascal/taie/analysis/dataflow/analysis/DeadCodeDetection.java:56-76 | the reported dead code consists of statements of the method that the walk, skipping marked successors, leaves unmarked |
| DeadCode.DfsWithin | A3/tai-e/src/main/java/pascal/taie/analysis/dataflow/analysis/DeadCodeDetection.java:78-154 | under either reading of the loop, the walk marks nothing outside a region that is closed under the walk's moves, with taken branches pruned |
| DeadCode.SuccsWithin | A3/tai-e/src/main/java/pascal/taie/analysis/dataflow/analysis/DeadCodeDetection.java:82-85 | the loop over admitted successors marks nothing outside the closed region |
| DeadCode.VisitWithin | A3/tai-e/src/main/java/pascal/taie/analysis/dataflow/analysis/DeadCodeDetection.java:85-151 | visiting an admitted successor marks nothing outside the closed region |
| DeadCode.FollowAllWithin | A3/tai-e/src/main/java/pascal/taie/analysis/dataflow/analysis/DeadCodeDetection.java:117-146 | following the chosen branch targets marks nothing outside the closed region |
| DeadCode.AnalyzeReportsUnreached | A3/tai-e/src/main/java/pascal/taie/analysis/dataflow/analysis/DeadCodeDetection.java:56-76 | every statement outside a region that contains the entry and is closed under the walk is reported dead, by both `AnalyzeAsWritten` and `Analyze` |
| DeadCode.DeadAssignmentSkipped | A3/tai-e/src/main/java/pascal/taie/analysis/dataflow/analysis/DeadCodeDetection.java:88-94 | a dead assignment, one whose variable is not live afterwards and whose right side has no side effect, is left unmarked while the walk continues past it |
| DeadCode.NoPredecessorUnmarked | A3/tai-e/src/main/java/pascal/taie/analysis/dataflow/analysis/DeadCodeDetection.java:86-87 | a non-entry statement without predecessors is left unmarked and the walk does not continue from it. The walk never takes this branch, because every successor it visits has the edge it was reached by; the branch is unreachable in the code too |
| DeadCode.StopsAtFirstMarked | A3/tai-e/src/main/java/pascal/taie/analysis/dataflow/analysis/DeadCodeDetection.java:82-84 | as written, the walk from a node stops as soon as its first successor is already marked |
| DeadCode.DfsGrows | A3/tai-e/src/main/java/pascal/taie/analysis/dataflow/analysis/DeadCodeDetection.java:78-154 | the walk never unmarks a statement it was given marked, so a statement once marked is never reported |
| DeadCode.SuccsGrows | A3/tai-e/src/main/java/pascal/taie/analysis/dataflow/analysis/DeadCodeDetection.java:82-152 | the loop over the successors keeps every statement already marked |
| DeadCode.VisitGrows | A3/tai-e/src/main/java/pascal/taie/analysis/dataflow/analysis/DeadCodeDetection.java:85-151 | visiting an unmarked successor unmarks at most that successor |
| DeadCode.FollowAllGrows | A3/tai-e/src/main/java/pascal/taie/analysis/dataflow/analysis/DeadCodeDetection.java:117-146 | following a decided branch's targets keeps every statement already marked |
| DeadCode.VisitMarks | A3/tai-e/src/main/java/pascal/taie/analysis/dataflow/analysis/DeadCodeDetection.java:85-151 | a visited successor stays marked unless it has no predecessor or is a dead assignment |
| DeadCode.FollowAllMarks | A3/tai-e/src/main/java/pascal/taie/analysis/dataflow/analysis/DeadCodeDetection.java:117-146 | every target a decided branch follows is marked |
| DeadCode.VisitFollowsChosen | A3/tai-e/src/main/java/pascal/taie/analysis/dataflow/analysis/DeadCodeDetection.java:105-146 | a decided `if` marks every target of its IF_TRUE edges when the condition holds and of its IF_FALSE edges otherwise; a decided `switch` marks its matching case targets, or its default target when no case matches |
| DeadCode.DfsMarksFirst | A3/tai-e/src/main/java/pascal/taie/analysis/dataflow/analysis/DeadCodeDetection.java:82-152 | with depth left, the walk from a node marks its first successor when that one is unmarked, has a predecessor and is not a dead assignment, under either reading of the loop |
| DeadCode.SuccsMarksAll | A3/tai-e/src/main/java/pascal/taie/analysis/dataflow/analysis/DeadCodeDetection.java:82-152 | skipping marked successors, the loop marks every successor that has a predecessor and is not a dead assignment |
| DeadCode.DfsMarksSuccs | A3/tai-e/src/main/java/pascal/taie/analysis/dataflow/analysis/DeadCodeDetection.java:82-152 | skipping marked successors, the walk from a node keeps every successor that has a predecessor and is not a dead assignment |
| DeadCode.AnalyzeKeepsEntrySuccs | A3/tai-e/src/main/java/pascal/taie/analysis/dataflow/analysis/DeadCodeDetection.java:56-76 | the entry's successors that have a predecessor and are not dead assignments are not reported by `Analyze`; `AnalyzeAsWritten` is only guaranteed to keep the first of them |
| DeadCode.DeadAssignmentContinues | A3/tai-e/src/main/java/pascal/taie/analysis/dataflow/analysis/DeadCodeDetection.java:88-94 | the walk goes on past an unmarked dead assignment and marks the statement after it |
| DeadCode.LoopExitReportedDead | A3/tai-e/src/main/java/pascal/taie/analysis/dataflow/analysis/DeadCodeDetection.java:82-84 | on a do-while loop whose back edge is listed first, `AnalyzeAsWritten` reports the statement after the loop dead and `Analyze` keeps it |

| Cha.Chain | A4/tai-e/src/main/java/pascal/taie/analysis/graph/callgraph/CHABuilder.java:115-123 | the superclass chain of a class begins with the class itself |
| Cha.Dispatch | A4/tai-e/src/main/java/pascal/taie/analysis/graph/callgraph/CHABuilder.java:115-123 | a found target has the requested subsignature and its class declares it |
| Cha.FirstDeclaring | A4/tai-e/src/main/java/pascal/taie/analysis/graph/callgraph/CHABuilder.java:115-123 | the reference search finds the first class in a chain that declares the subsignature, or none exactly when no class does |
| Cha.DispatchFirstDeclaring | A4/tai-e/src/main/java/pascal/taie/analysis/graph/callgraph/CHABuilder.java:115-123 | `dispatch` returns the method of the nearest class up the superclass chain that declares the subsignature, and null when no class on the chain does |
| Cha.SubDispatch | A4/tai-e/src/main/java/pascal/taie/analysis/graph/callgraph/CHABuilder.java:95-106 | every method the recursion collects has the requested subsignature and a declaring class |
| Cha.SubDispatchLeaves | A4/tai-e/src/main/java/pascal/taie/analysis/graph/callgraph/CHABuilder.java:95-106 | `getSubClassAndDisPatch` collects exactly the dispatch results of the leaf classes below the class, and only of those |
| Cha.Resolve | A4/tai-e/src/main/java/pascal/taie/analysis/graph/callgraph/CHABuilder.java:77-93 | a static call resolves to the calling method, a special call to one dispatch result, and interface and dynamic calls to nothing; every resolved method is the caller or a declaration of the caller's subsignature; a virtual call resolves as intended, from the class its receiver's declared type names |
| Cha.ResolveVirtual | A4/tai-e/src/main/java/pascal/taie/analysis/graph/callgraph/CHABuilder.java:85-90 | a virtual call resolves to exactly the dispatch on the receiver's declared class plus the dispatches on every leaf class below it |
| Cha.ResolveAsWritten | A4/tai-e/src/main/java/pascal/taie/analysis/graph/callgraph/CHABuilder.java:82-90 | as the code stands, resolution fails exactly for virtual calls, where the receiver's declared type is cast to a class; other kinds resolve as in `Resolve` |
| Cha.VirtualCastFails | A4/tai-e/src/main/java/pascal/taie/analysis/graph/callgraph/CHABuilder.java:85-89 | for a class `A` declaring `foo()` and a call on a receiver declared as `A`, the intended resolution finds `A.foo()` while the code as written fails |
| Cha.EdgesOfSitesMembers | A4/tai-e/src/main/java/pascal/taie/analysis/graph/callgraph/CHABuilder.java:60-68 | the edges of a method's call sites are exactly one per site and per resolved callee, with the site's call kind |
| Cha.CalleesInUniverse | A4/tai-e/src/main/java/pascal/taie/analysis/graph/callgraph/CHABuilder.java:60-68 | every callee the construction can add is the entry, a method containing statements, or a method the hierarchy declares, so the traversal is finite |
| Cha.SiteEdgesMembers | A4/tai-e/src/main/java/pascal/taie/analysis/graph/callgraph/CHABuilder.java:61-67 | one site contributes exactly one edge per resolved callee |
| Cha.AddSiteEdges | A4/tai-e/src/main/java/pascal/taie/analysis/graph/callgraph/CHABuilder.java:61-67 | for one site, every resolved callee becomes reachable, gets an edge and joins the queue |
| Cha.ProcessSites | A4/tai-e/src/main/java/pascal/taie/analysis/graph/callgraph/CHABuilder.java:60-68 | processing a method adds exactly its call edges, makes their callees reachable and queues them |
| Cha.JustifiedExtend | A4/tai-e/src/main/java/pascal/taie/analysis/graph/callgraph/CHABuilder.java:57-66 | appending a callee of an already processed method keeps every processed method justified by a call from an earlier one |
| Cha.InitInv | A4/tai-e/src/main/java/pascal/taie/analysis/graph/callgraph/CHABuilder.java:51-55 | the initial state satisfies the traversal invariant: the entry is queued, and nothing is reachable and no edge exists yet, since `addEntryMethod` marks nothing reachable |
| Cha.SkipInv | A4/tai-e/src/main/java/pascal/taie/analysis/graph/callgraph/CHABuilder.java:57-58 | polling an already processed method keeps the invariant |
| Cha.PollJustified | A4/tai-e/src/main/java/pascal/taie/analysis/graph/callgraph/CHABuilder.java:57-59 | a newly polled method is distinct from those processed before, and is the entry or a callee of one of them |
| Cha.VisitInv | A4/tai-e/src/main/java/pascal/taie/analysis/graph/callgraph/CHABuilder.java:57-68 | processing a new method and adding its edges keeps the invariant: edges are exactly those out of processed methods, and every reachable method is processed or queued |
| Cha.FinalInv | A4/tai-e/src/main/java/pascal/taie/analysis/graph/callgraph/CHABuilder.java:56-71 | with the queue empty, the processed methods are the entry and the reachable methods, the reachable methods are exactly the callees of the edges, the processed methods' edges are all present with reachable callees, and every edge leaves a processed method |
| Cha.Poll | A4/tai-e/src/main/java/pascal/taie/analysis/graph/callgraph/CHABuilder.java:57-69 | one iteration of the loop keeps the invariant and makes progress, or stops at a method with a call site whose dispatch failed |
| Cha.BuildCallGraph | A4/tai-e/src/main/java/pascal/taie/analysis/graph/callgraph/CHABuilder.java:50-72 | the processed methods are the entry and the reachable methods, each after the entry justified by a call from an earlier one; the reachable methods are exactly the callees of the edges; every call out of a processed method has its edge and its callee reachable, and every edge leaves a processed method; a failed dispatch in a processed method fails the construction |
| Cha.FinalGraph | A4/tai-e/src/main/java/pascal/taie/analysis/graph/callgraph/CHABuilder.java:56-71 | at the end of the loop the graph has the properties `BuildCallGraph` promises: reachable methods are the callees, and the processed methods are the entry and the reachable ones, closed under their call edges |
| PointerFlow.AddEdge | A6/tai-e/src/main/java/pascal/taie/analysis/pta/cs/Solver.java:156 | the raw `addEdge` adds the one successor and changes neither points-to sets nor the worklist |
| PointerFlow.AddPfgEdge | A5/tai-e/src/main/java/pascal/taie/analysis/pta/ci/Solver.java:248-257 | `addPFGEdge` adds exactly the edge, and enqueues the source's points-to set for the target exactly when the edge is new and the set is non-empty |
| PointerFlow.AddPfgEdgeIdempotent | A5/tai-e/src/main/java/pascal/taie/analysis/pta/ci/Solver.java:248-257 | adding the same edge twice is the same as adding it once |
| PointerFlow.AddPfgEdgePresent | A5/tai-e/src/main/java/pascal/taie/analysis/pta/ci/Solver.java:250 | adding an edge that is already present changes nothing |
| PointerFlow.FanOut | A5/tai-e/src/main/java/pascal/taie/analysis/pta/ci/Solver.java:321-325 | `propagate` enqueues one entry holding the delta for each successor, and no other entry |
| PointerFlow.Propagate | A5/tai-e/src/main/java/pascal/taie/analysis/pta/ci/Solver.java:312-328 | the delta is the objects new to the pointer; the pointer gains them and no other pointer changes; the delta goes to every successor, or nothing is enqueued when the delta is empty |
| PointerFlow.ClosedEmpty | A5/tai-e/src/main/java/pascal/taie/analysis/pta/ci/Solver.java:82-83 | the empty flow graph satisfies the closure invariant |
| PointerFlow.ClosedEnqueue | A5/tai-e/src/main/java/pascal/taie/analysis/pta/ci/Solver.java:139 | enqueueing an entry keeps every object of a pointer delivered to or pending for each successor |
| PointerFlow.ClosedAddPfgEdge | A5/tai-e/src/main/java/pascal/taie/analysis/pta/ci/Solver.java:248-257 | `addPFGEdge` keeps the closure invariant: the new edge's objects are pending for its target |
| PointerFlow.ClosedPropagate | A5/tai-e/src/main/java/pascal/taie/analysis/pta/ci/Solver.java:264-267 | polling the head entry and propagating it keeps the closure invariant |
| PointerFlow.AddPfgEdges | A5/tai-e/src/main/java/pascal/taie/analysis/pta/ci/Solver.java:219-238 | adding a list of edges one by one yields exactly the old successors plus the listed edges, and keeps the closure invariant |
| PointerFlow.ReachesAfterPropagate | A5/tai-e/src/main/java/pascal/taie/analysis/pta/ci/Solver.java:264-267 | an object in a pointer's set or pending for it stays so after a poll and propagate step |
| PointerFlow.ClosedAtFixpoint | A5/tai-e/src/main/java/pascal/taie/analysis/pta/ci/Solver.java:262-306 | once the worklist is empty, the points-to set of every pointer is contained in that of each of its successors |
| PtaCi.ReachesStable | A5/tai-e/src/main/java/pascal/taie/analysis/pta/ci/Solver.java:248-257 | steps that only add edges and entries lose no object that was delivered or pending |
| PtaCi.ScannedStable | A5/tai-e/src/main/java/pascal/taie/analysis/pta/ci/Solver.java:96-120 | the effect of scanning a statement survives every later step that only adds |
| PtaCi.ArgEdges | A5/tai-e/src/main/java/pascal/taie/analysis/pta/ci/Solver.java:219-227 | there is at most one argument-to-parameter edge per argument |
| PtaCi.WiredStable | A5/tai-e/src/main/java/pascal/taie/analysis/pta/ci/Solver.java:217-238 | a call edge whose argument and return flows are in place stays so |
| PtaCi.NewWorkDoneTrans | A5/tai-e/src/main/java/pascal/taie/analysis/pta/ci/Solver.java:96-120 | "every newly reachable method is scanned and every new call edge is wired" composes across steps |
| PtaCi.AddReachable | A5/tai-e/src/main/java/pascal/taie/analysis/pta/ci/Solver.java:96-120 | `addReachable` makes the method reachable, scans each of its statements, and does nothing for a method already reachable |
| PtaCi.VisitStmt | A5/tai-e/src/main/java/pascal/taie/analysis/pta/ci/Solver.java:101-112 | a scanned statement has its effect: `new` enqueues its object for the variable, a copy or static field access adds its flow edge, and a static call adds its call edge |
| PtaCi.AddCallEdge | A5/tai-e/src/main/java/pascal/taie/analysis/pta/ci/Solver.java:217-238 | a new call edge makes the callee reachable and wires arguments to parameters and return variables to the result; an existing edge changes nothing |
| PtaCi.VisitStaticInvoke | A5/tai-e/src/main/java/pascal/taie/analysis/pta/ci/Solver.java:213-242 | a static call adds the edge to its callee, and is a no-op when that edge already exists |
| PtaCi.ObjHandledStable | A5/tai-e/src/main/java/pascal/taie/analysis/pta/ci/Solver.java:268-301 | the handling of an object newly in a variable's set survives every later step that only adds |
| PtaCi.ProcessCall | A5/tai-e/src/main/java/pascal/taie/analysis/pta/ci/Solver.java:336-364 | for every instance call on the variable that dispatches for the receiver, the receiver is enqueued for the callee's `this` and the call edge is present; calls that do not dispatch are skipped |
| PtaCi.ProcessObj | A5/tai-e/src/main/java/pascal/taie/analysis/pta/ci/Solver.java:270-300 | a new receiver object adds the field and array edges of every load and store on the variable and handles every dispatching instance call |
| PtaCi.ReachesPolled | A5/tai-e/src/main/java/pascal/taie/analysis/pta/ci/Solver.java:264-267 | polling and propagating the head entry loses no delivered or pending object |
| PtaCi.ScannedPolled | A5/tai-e/src/main/java/pascal/taie/analysis/pta/ci/Solver.java:264-267 | the effects of scanning survive a poll |
| PtaCi.ObjHandledPolled | A5/tai-e/src/main/java/pascal/taie/analysis/pta/ci/Solver.java:264-267 | the handling of an object survives a poll |
| PtaCi.InvPolled | A5/tai-e/src/main/java/pascal/taie/analysis/pta/ci/Solver.java:264-268 | after a poll the invariant holds except for the objects just delivered to the polled variable |
| PtaCi.Step | A5/tai-e/src/main/java/pascal/taie/analysis/pta/ci/Solver.java:264-302 | one worklist iteration keeps the solver invariant, only grows points-to sets, and delivers the polled entry's objects to its pointer |
| PtaCi.Analyze | A5/tai-e/src/main/java/pascal/taie/analysis/pta/ci/Solver.java:262-306 | the worklist loop keeps the invariant and only grows the results; it reports done exactly when the worklist is empty |
| PtaCi.Solve | A5/tai-e/src/main/java/pascal/taie/analysis/pta/ci/Solver.java:73-91 | after initialization and the loop, the main method is reachable and the invariant holds |
| PtaCi.Fixpoint | A5/tai-e/src/main/java/pascal/taie/analysis/pta/ci/Solver.java:262-306 | at the fixed point, points-to sets are closed under flow edges, every reachable allocation is in its variable's set, every call edge is wired, and every receiver object reaches the `this` of each callee it dispatches to, with the call edge present |
| PtaCs.ReachesStable | A6/tai-e/src/main/java/pascal/taie/analysis/pta/cs/Solver.java:220-232 | steps that only add edges and entries lose no object that was delivered or pending |
| PtaCs.ArgEdges | A6/tai-e/src/main/java/pascal/taie/analysis/pta/cs/Solver.java:196-202 | there is at most one argument-to-parameter edge per argument, from the caller's context to the callee's |
| PtaCs.ResultEdges | A6/tai-e/src/main/java/pascal/taie/analysis/pta/cs/Solver.java:204-211 | a call without a result variable gets no return edges |
| PtaCs.VisitLocal | A6/tai-e/src/main/java/pascal/taie/analysis/pta/cs/Solver.java:140-182 | `new` enqueues the context-qualified object; a copy or static field access adds exactly its raw edge and enqueues nothing |
| PtaCs.RawEdgeLosesObjects | A6/tai-e/src/main/java/pascal/taie/analysis/pta/cs/Solver.java:153-182 | a raw edge from a pointer with objects to an empty one leaves the graph with an edge whose objects never cross, so the closure invariant fails |
| PtaCs.PfgEdgeKeepsObjects | A6/tai-e/src/main/java/pascal/taie/analysis/pta/cs/Solver.java:220-232 | inserting the same edge with `addPFGEdge` keeps the closure invariant |
| PtaCs.AddPfgEdgeByScan | A6/tai-e/src/main/java/pascal/taie/analysis/pta/cs/Solver.java:220-232 | the membership scan over the successors behaves exactly like the shared `addPFGEdge` |
| PtaCs.ScannedStable | A6/tai-e/src/main/java/pascal/taie/analysis/pta/cs/Solver.java:102-121 | the effect of scanning a statement survives every later step that only adds |
| PtaCs.VisitedStable | A6/tai-e/src/main/java/pascal/taie/analysis/pta/cs/Solver.java:102-121 | a method whose scan is complete, or recorded as cut short, stays so |
| PtaCs.NewWorkDoneTrans | A6/tai-e/src/main/java/pascal/taie/analysis/pta/cs/Solver.java:102-121 | "every new call edge is wired and its callee visited" composes across steps |
| PtaCs.AddReachable | A6/tai-e/src/main/java/pascal/taie/analysis/pta/cs/Solver.java:102-121 | `addReachable` leaves the reachable set as it was and scans every statement of the context-sensitive method |
| PtaCs.VisitStmt | A6/tai-e/src/main/java/pascal/taie/analysis/pta/cs/Solver.java:107-120 | each scanned statement has its effect; statements other than static calls only touch the flow graph |
| PtaCs.VisitStaticInvoke | A6/tai-e/src/main/java/pascal/taie/analysis/pta/cs/Solver.java:185-214 | a call to a non-static method ref is skipped; a new edge to the context-selected callee wires the arguments and scans the callee; the return edges are added even when the edge already existed |
| PtaCs.FirstUnresolved | A6/tai-e/src/main/java/pascal/taie/analysis/pta/cs/Solver.java:310-316 | the calls `processCall` gets through are those before the first instance call that does not dispatch |
| PtaCs.FirstUnresolvedStep | A6/tai-e/src/main/java/pascal/taie/analysis/pta/cs/Solver.java:311-316 | at a position it reaches, the loop returns exactly when that call is an instance call that does not dispatch |
| PtaCs.ObjHandledStable | A6/tai-e/src/main/java/pascal/taie/analysis/pta/cs/Solver.java:245-273 | the handling of an object survives every later step that only adds |
| PtaCs.ProcessCall | A6/tai-e/src/main/java/pascal/taie/analysis/pta/cs/Solver.java:306-340 | for every instance call before the first that fails to dispatch, the receiver object is enqueued for the `this` of the context-selected callee and the context-sensitive call edge is present |
| PtaCs.AddCallEdge | A6/tai-e/src/main/java/pascal/taie/analysis/pta/cs/Solver.java:324-338 | a new call edge wires arguments and results and visits the callee; an existing edge changes nothing |
| PtaCs.ProcessObj | A6/tai-e/src/main/java/pascal/taie/analysis/pta/cs/Solver.java:245-273 | a new receiver object adds the field and array edges of every load and store on the variable, in the variable's context, and processes its calls |
| PtaCs.ReachesPolled | A6/tai-e/src/main/java/pascal/taie/analysis/pta/cs/Solver.java:239-241 | polling and propagating the head entry loses no delivered or pending object |
| PtaCs.VisitedPolled | A6/tai-e/src/main/java/pascal/taie/analysis/pta/cs/Solver.java:239-241 | a completed scan survives a poll |
| PtaCs.ObjHandledPolled | A6/tai-e/src/main/java/pascal/taie/analysis/pta/cs/Solver.java:239-241 | the handling of an object survives a poll |
| PtaCs.InvPolled | A6/tai-e/src/main/java/pascal/taie/analysis/pta/cs/Solver.java:239-242 | after a poll the invariant holds except for the objects just delivered to the polled variable |
| PtaCs.HandleOne | A6/tai-e/src/main/java/pascal/taie/analysis/pta/cs/Solver.java:245-272 | handling one delivered object removes it from the objects still owed handling |
| PtaCs.Step | A6/tai-e/src/main/java/pascal/taie/analysis/pta/cs/Solver.java:238-275 | one worklist iteration keeps the invariant, only grows points-to sets and call edges, and delivers the polled entry's objects |
| PtaCs.Analyze | A6/tai-e/src/main/java/pascal/taie/analysis/pta/cs/Solver.java:237-276 | the worklist loop keeps the invariant and reports done exactly when the worklist is empty |
| PtaCs.Solve | A6/tai-e/src/main/java/pascal/taie/analysis/pta/cs/Solver.java:81-97 | the entry is `main` in the empty context, no method is ever marked reachable, and the invariant holds |
| PtaCs.Fixpoint | A6/tai-e/src/main/java/pascal/taie/analysis/pta/cs/Solver.java:237-276 | at the fixed point, the entry method and every callee of an edge, when its scan completed, have their allocations in their variables' sets, every call edge is wired, and each receiver reaches the `this` of the callees of the calls before the first that fails to dispatch |
| InterConstProp.IsOverlap | A7/tai-e/src/main/java/pascal/taie/analysis/dataflow/inter/InterConstantPropagation.java:203-209 | two object sets overlap exactly when some object is in both |
| InterConstProp.IsInstanceFieldAlias | A7/tai-e/src/main/java/pascal/taie/analysis/dataflow/inter/InterConstantPropagation.java:212-219 | two field accesses alias exactly when they name the same field and their bases may point to a common object |
| InterConstProp.IsArrayAlias | A7/tai-e/src/main/java/pascal/taie/analysis/dataflow/inter/InterConstantPropagation.java:221-245 | two array accesses may alias exactly when the other index has a known value, the bases may point to a common array, and some concrete index is admitted by both index values |
| InterConstProp.MayBeEqualCases | A7/tai-e/src/main/java/pascal/taie/analysis/dataflow/inter/InterConstantPropagation.java:233-241 | two index values admit a common index exactly when neither is UNDEF and they are not two different constants |
| InterConstProp.MeetStore | A7/tai-e/src/main/java/pascal/taie/analysis/dataflow/inter/InterConstantPropagation.java:111-115 | a store puts the value into a fresh table entry, or meets it with the existing one, which only lowers the entry; other entries stay |
| InterConstProp.LoadInstanceField | A7/tai-e/src/main/java/pascal/taie/analysis/dataflow/inter/InterConstantPropagation.java:142-151 | a load of `y.f` reads the greatest lower bound of all aliasing entries, or nothing exactly when no entry aliases |
| InterConstProp.LoadArray | A7/tai-e/src/main/java/pascal/taie/analysis/dataflow/inter/InterConstantPropagation.java:182-192 | an array load reads the greatest lower bound of all aliasing entries, or nothing exactly when no entry aliases |
| InterConstProp.TransferStoreField | A7/tai-e/src/main/java/pascal/taie/analysis/dataflow/inter/InterConstantPropagation.java:105-126 | a field store meets the stored value into the field's entry, static or instance, and OUT copies IN |
| InterConstProp.TransferLoadField | A7/tai-e/src/main/java/pascal/taie/analysis/dataflow/inter/InterConstantPropagation.java:127-158 | a field load copies IN into OUT with the loaded variable set to the static field's entry or to the meet over aliasing instance entries, when there is one |
| InterConstProp.TransferStoreArray | A7/tai-e/src/main/java/pascal/taie/analysis/dataflow/inter/InterConstantPropagation.java:159-178 | a store whose value variable IN holds meets the value into the access's entry and records a constant index; a store of a variable IN lacks leaves the tables alone; OUT copies IN |
| InterConstProp.TransferLoadArray | A7/tai-e/src/main/java/pascal/taie/analysis/dataflow/inter/InterConstantPropagation.java:180-198 | an array load copies IN into OUT with the loaded variable set to the meet over aliasing array entries, when there is one |
| InterConstProp.TransferNonCallNode | A7/tai-e/src/main/java/pascal/taie/analysis/dataflow/inter/InterConstantPropagation.java:103-201 | a field store meets the stored value into its table entry and copies IN; a field load sets the target to the static entry or to the greatest lower bound of the aliasing instance entries; an array store meets into its entry and records a constant index; an array load sets the target to the greatest lower bound of the aliasing entries; any other statement writes an int-holding definition's right-hand side value unless it is UNDEF and copies the rest of IN; only stores change the tables; the flag says whether OUT changed |
| InterConstProp.TransferCallNode | A7/tai-e/src/main/java/pascal/taie/analysis/dataflow/inter/InterConstantPropagation.java:97-100 | a call node copies IN into OUT and reports whether OUT changed |
| InterConstProp.TransferCallToReturnEdge | A7/tai-e/src/main/java/pascal/taie/analysis/dataflow/inter/InterConstantPropagation.java:254-264 | the call-to-return edge drops the call's result variable and passes every other variable unchanged |
| InterConstProp.PassIntKeys | A7/tai-e/src/main/java/pascal/taie/analysis/dataflow/inter/InterConstantPropagation.java:275-281 | passing an argument whose variable can hold an int defines only the parameters such arguments reach, and records every such parameter in the index table |
| InterConstProp.PassIntValues | A7/tai-e/src/main/java/pascal/taie/analysis/dataflow/inter/InterConstantPropagation.java:276-281 | each parameter last written from an int-holding argument gets that argument's value, in the fact and in the index table |
| InterConstProp.PassOther | A7/tai-e/src/main/java/pascal/taie/analysis/dataflow/inter/InterConstantPropagation.java:275 | an argument that cannot hold an int passes nothing |
| InterConstProp.PassArgument | A7/tai-e/src/main/java/pascal/taie/analysis/dataflow/inter/InterConstantPropagation.java:274-283 | one iteration of the argument loop extends what has been passed by the next argument |
| InterConstProp.TransferCallEdge | A7/tai-e/src/main/java/pascal/taie/analysis/dataflow/inter/InterConstantPropagation.java:267-285 | the callee's entry fact holds only parameters whose argument can hold an int, each with the value of its argument at the call site; those parameters are also recorded in the index table, and the other tables are unchanged |
| InterConstProp.TransferReturnEdge | A7/tai-e/src/main/java/pascal/taie/analysis/dataflow/inter/InterConstantPropagation.java:288-313 | the return fact is empty without an int-holding result variable; otherwise the result variable gets the greatest lower bound of the int-holding return variables' values, and nothing else is defined |
| InterSolver.Initialize | A7/tai-e/src/main/java/pascal/taie/analysis/dataflow/inter/InterSolver.java:63-74 | exactly the entry nodes and all nodes get facts, each the initial fact, for IN and for OUT |
| InterSolver.Pass | A7/tai-e/src/main/java/pascal/taie/analysis/dataflow/inter/InterSolver.java:104-118 | a pass keeps a fact for every node and changes only the facts of the nodes it visits |
| InterSolver.VisitNodeReports | A7/tai-e/src/main/java/pascal/taie/analysis/dataflow/inter/InterSolver.java:106-118 | a visit changes only its node's OUT, and with a faithful transfer it reports a change exactly when that OUT changed |
| InterSolver.PassReportsChange | A7/tai-e/src/main/java/pascal/taie/analysis/dataflow/inter/InterSolver.java:104-118 | a pass reports a change exactly when some visited node's OUT fact differs afterwards |
| InterSolver.MeetEdgesFromLowers | A7/tai-e/src/main/java/pascal/taie/analysis/dataflow/inter/InterSolver.java:108-114 | meeting the facts of a predecessor's edges only lowers the IN fact |
| InterSolver.MeetPredsLowers | A7/tai-e/src/main/java/pascal/taie/analysis/dataflow/inter/InterSolver.java:107-115 | meeting all predecessors' edge facts only lowers the IN fact |
| InterSolver.PassLowersIn | A7/tai-e/src/main/java/pascal/taie/analysis/dataflow/inter/InterSolver.java:104-118 | a pass only lowers IN facts |
| InterSolver.DoSolve | A7/tai-e/src/main/java/pascal/taie/analysis/dataflow/inter/InterSolver.java:101-124 | the passes keep every node's facts; when they stop, the last pass changed nothing and the OUT facts are a fixed point of one more pass |
| InterSolver.Solve | A7/tai-e/src/main/java/pascal/taie/analysis/dataflow/inter/InterSolver.java:56-61 | the result holds IN and OUT facts for exactly the entry nodes and the ICFG's nodes; when the solver ends done, its final pass produced the result without reporting a change, and with a faithful transfer it left every OUT fact unchanged |
| Taint.IsSource | A8/tai-e/src/main/java/pascal/taie/analysis/pta/plugin/taint/TaintAnalysiss.java:69-75 | a method and type form a source exactly when the configuration lists that source |
| Taint.IsSink | A8/tai-e/src/main/java/pascal/taie/analysis/pta/plugin/taint/TaintAnalysiss.java:77-83 | a method and argument index form a sink exactly when the configuration lists that sink |
| Taint.HasTransfer | A8/tai-e/src/main/java/pascal/taie/analysis/pta/plugin/taint/TaintAnalysiss.java:85-116 | the scan finds a transfer exactly when the configuration lists it |
| Taint.IsBaseToResult | A8/tai-e/src/main/java/pascal/taie/analysis/pta/plugin/taint/TaintAnalysiss.java:85-94 | receiver-to-result transfer holds exactly when the configuration lists the transfer from base to result for that method and type |
| Taint.IsArgToBase | A8/tai-e/src/main/java/pascal/taie/analysis/pta/plugin/taint/TaintAnalysiss.java:96-105 | argument-to-receiver transfer holds exactly when the configuration lists it |
| Taint.IsArgToResult | A8/tai-e/src/main/java/pascal/taie/analysis/pta/plugin/taint/TaintAnalysiss.java:107-116 | argument-to-result transfer holds exactly when the configuration lists it |
| Taint.MakeTaint | A8/tai-e/src/main/java/pascal/taie/analysis/pta/plugin/taint/TaintAnalysiss.java:118-124 | the object made for a source call is recognised as a taint object, and records that call and the type |
| Taint.FlowsAt | A8/tai-e/src/main/java/pascal/taie/analysis/pta/plugin/taint/TaintAnalysiss.java:140-157 | one call edge yields exactly the flows from the creators of taint objects that reach a sink argument of that call |
| Taint.CollectTaintFlows | A8/tai-e/src/main/java/pascal/taie/analysis/pta/plugin/taint/TaintAnalysiss.java:135-160 | a flow is reported exactly when some edge of the context-sensitive call graph witnesses it |

## Left out

- Tai-e's `World`, class loading, IR construction, logging, options and result output are not modelled. The analyses take their program, CFG and results as parameters.
- Several collaborators are parameters with no model of their own. These are the heap model, the context selector, `resolveCallee`, the CS manager's interning, and the pointer analysis result that interprocedural constant propagation queries. The model assumes they are total functions.
- The internals of `CPFact`, `DataflowResult`, the CFG, the ICFG and the call graph are not part of this model. A fact is a map that stores no UNDEF entries.
- Taint objects are represented by an object whose allocation site is the source call. The taint manager, the propagation of taint through transfers during solving, and taint-flow reporting are not modelled.
- In the context-insensitive solver, the scan's `LoadArray` and `StoreArray` visits are unreachable from `addReachable` (lines 144-164). They are not modelled.
- The commented-out worklist version of `doSolve` in `InterSolver` is left out, as are the commented-out alternatives in the other files.
- DeadCode.Dfs: the walk is bounded by a recursion depth `fuel`. When the fuel runs out the walk stops there, so results for a too-small bound may mark less.
- DeadCode.Analyze: the marking is proved one step at a time: each successor of a walked statement is kept, if it has a predecessor and is not a dead assignment. That every such statement reachable from the entry is kept is not stated, because that needs a bound on the depth the walk reaches within `fuel`.
- IterativeSolver.DoSolveBackward: at most `fuel` passes run. `done` tells whether the fixed point was reached.
- InterSolver.DoSolve: at most `fuel` passes run. `done` tells whether the fixed point was reached.
- PtaCi.Analyze: at most `fuel` worklist iterations run. The invariant holds either way, and `done` tells whether the worklist drained.
- PtaCs.Analyze: at most `fuel` worklist iterations run. The invariant holds either way, and `done` tells whether the worklist drained.
- PtaCs.AddReachable: the scan recursion through static calls is bounded by `fuel`. A scan the bound cuts is recorded in `skipped`, and `PtaCs.Fixpoint` says nothing about the allocations of such methods.
- Cha.Resolve: the virtual branch dispatches from the class the receiver's declared class type names, which is the intended behaviour. The code as written throws on the cast for every virtual call; `Cha.ResolveAsWritten` models that (see Findings). A receiver whose declared type is not a class type, such as an array type, resolves to nothing.
- Cha.CallSitesIn: reads a method's call sites from its body. `DefaultCallGraph` is not part of this model. If its `callSitesIn` only lists the call sites of methods added as reachable, then the entry, which is never added, would contribute no call sites, and the source would build no edges from it.
- InterConstProp.TransferCallEdge: arguments beyond the callee's parameters are not passed. The source would throw when reading such a parameter.
- PtaCi.ArgEdges: a call with more arguments than the callee has parameters gets edges for the first arguments only. The source would throw there, but well-typed code never has such a call.
- PtaCs.ArgEdges: as for `PtaCi.ArgEdges`, extra arguments get no edge, where the source would throw.
- A method without IR is treated as having an empty body.
- Instance-field and array table keys are the access expressions `(base, field)` and `(base, index)`. The source keys them the same way, on the IR access objects. Keys are compared structurally, whereas the source compares IR objects by identity.
- `transferNormalEdge` is the identity and has no member of its own.
- `InterSolver` takes the analysis as pure functions that thread the state of the side tables through. The interprocedural constant-propagation transfers are separate members and are not instantiated into it.
- IterativeSolver.DoSolveBackward: it assumes every node already has an IN fact and every node but the exit has an OUT fact. The null guard in the source is then never taken.
- `isBaseToResult` compares types by reference. Types are interned, so the model compares them by equality.
- The initial fact is used for entry nodes too, as `InterSolver.initialize` does. No boundary fact is set.

## Findings

| source | as written | input that shows it | evidently intended | confidence | as-written member | corrected member |
|---|---|---|---|---|---|---|
| A4/tai-e/src/main/java/pascal/taie/analysis/graph/callgraph/CHABuilder.java:85-89 | the receiver variable's declared type, a `Type`, is cast to `JClass`, which no type object is, so the cast throws | any virtual call, such as `a.foo()` inside `A.foo()` with `a` declared as class `A` that declares `foo()` (`Cha.VirtualCastFails`) | dispatch from the class that the declared class type names | not executed | Cha.ResolveAsWritten | Cha.Resolve |
| A3/tai-e/src/main/java/pascal/taie/analysis/dataflow/analysis/DeadCodeDetection.java:82-84 | the loop over the successors returns at the first one that is already marked, so the successors after it are never walked | a do-while loop whose IF_TRUE back edge is listed before the IF_FALSE exit: the statement after the loop is reported dead (`DeadCode.LoopExitReportedDead`) | skip the marked successor and go on with the next, so every successor of a walked statement that has a predecessor and is not a dead assignment is kept (`DeadCode.DfsMarksSuccs`) | not executed | DeadCode.AnalyzeAsWritten | DeadCode.Analyze |
