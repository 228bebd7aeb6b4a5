# Tai-e static-analysis labs, modelled in Dafny

This project models the analyses the repository implements on top of the
Tai-e framework for Java programs:

- **Constant propagation** (A2; the same code is copied into A4): the lattice
  UNDEF / constant / NAC, the meet, the transfer function, and the evaluation
  of expressions with Java's 32-bit `int` arithmetic.
- **Dead-code detection** (A3): control-flow unreachable code, with branches
  pruned by constant propagation, plus useless definitions found by live
  variables.
- **Class-hierarchy-analysis (CHA) call-graph construction** (A4): `dispatch`,
  `resolve` and the worklist construction of the call graph.
- **Interprocedural constant propagation** (A4, A7): the edge transfers over
  the interprocedural CFG (ICFG), and A7's alias-aware treatment of fields and
  arrays that uses a pointer analysis.
- **The interprocedural worklist solver** (A7 `InterSolver`).
- **Context-insensitive Andersen pointer analysis** (A5).
- **Context-sensitive pointer analysis** (A6).
- **Pointer analysis with taint analysis** (A8).

The modules follow the program's structure:

| file | module | what it holds |
|---|---|---|
| wrappers.dfy | Wrappers | `Option` |
| java_int.dfy | JavaInt | Java `int` semantics: wrap-around, truncating division, shifts, bitwise operators |
| collections.dfy | Collections | sets and sequences, and graph reachability |
| ir.dfy | IR | variables, expressions, statements, call sites, objects |
| constprop.dfy | ConstantPropagation | A2 |
| deadcode.dfy | DeadCodeDetection | A3 |
| cha.dfy | CHABuilder | A4 |
| interconstprop.dfy | InterConstantPropagation | A4 and A7 edge transfers, plus A7's alias relations |
| intersolver.dfy | InterSolver | the A7 solver as a class with fact tables |
| pta_input.dfy | PtaInput | the program the pointer analyses see |
| pointer_flow.dfy | PointerFlow | the pointer-flow graph (PFG), points-to sets and worklist, as a class shared by all three solvers |
| pta_ci.dfy | PointerAnalysisCI | A5 |
| cs_elements.dfy | CSElements | contexts and context-sensitive (CS) elements |
| pta_cs.dfy | PointerAnalysisCS | A6 |
| taint.dfy | TaintAnalysis | A8 `TaintAnalysiss` |
| pta_taint.dfy | PointerAnalysisTaint | the A8 solver |

**How each piece is modelled.**

- Pure code (lattice operations, expression evaluation, dispatch) is written
  as functions and lemmas.
- A loop in the source is a method with a loop, proved against a
  specification function.
- The solvers keep their own fields and change them in place:
  - the solvers are classes;
  - `InterSolver.Solver` holds its fact tables;
  - `PointerFlow.FlowState` holds the PFG, the points-to map and the worklist.
- `JavaInt.ArithmeticTable` and `JavaInt.ShiftTable` are sanity checks on
  concrete values and model nothing beyond the general `JavaInt` lemmas.
- `Collections.ListOf` is the one helper every solver uses to iterate a set:
  it lists each element exactly once, in an unspecified order.
- Each pointer-analysis solver is proved to establish a predicate `Closed`
  when its worklist runs empty. `Closed` says what every fixpoint of the
  analysis rules satisfies. It covers:
  - every reachable statement is processed;
  - every PFG edge is respected;
  - every object of a receiver variable has had its fields, arrays and calls
    handled.
- The "closed state" lemmas then derive from `Closed` the facts a client of
  the analysis relies on, for example: the allocated object is in the
  points-to set of the left-hand side; arguments flow to parameters; a taint
  object reaching a sink argument is reported.

**A6 behaviour, modelled as written.** In A6 `processCall`
(A6/tai-e/src/main/java/pascal/taie/analysis/pta/cs/Solver.java:276), the
caller context `c` is taken from the receiver **object's** heap context, not
from the receiver variable's context. It is used for:

- the call site;
- the argument variables;
- the result variable.

A6 also adds no call-graph edge for a static call: it makes the callee
reachable and wires it, and nothing more.

The model keeps both behaviours. `PointerAnalysisCS.InstanceCallResolved`
states them. A8's solver instead uses the receiver variable's context and
adds the static edge; `PointerAnalysisTaint.InstanceCallResolved` and
`PointerAnalysisTaint.StaticCallWired` state that.

**Framework hooks taken as parameters.** These calls reach into code outside
the analyses, so they are uninterpreted function values in the model:

- the heap model;
- field and method resolution;
- `CallGraphs.resolveCallee`;
- return types;
- the context selector;
- the results of the live-variable and constant-propagation analyses that
  dead-code detection consumes;
- the pointer analysis result that A7 consumes.

## Model

| member | source | states |
|---|---|---|
| JavaInt.Wrap | A2/A2/ConstantPropagation.java:210-214 | The result is the Java `int` congruent to the mathematical value modulo 2^32. |
| JavaInt.DivRemIdentity | A2/A2/ConstantPropagation.java:212-214 | With wrap-around, `(a / b) * b + a % b == a` holds for every non-zero divisor, including `MIN_VALUE / -1`. |
| JavaInt.RemSign | A2/A2/ConstantPropagation.java:214 | `%` is smaller than the divisor in magnitude and is zero or has the sign of the dividend (Java's truncating remainder). |
| JavaInt.DivTruncates | A2/A2/ConstantPropagation.java:213 | `/` rounds toward zero: its magnitude is the floor of the quotient of magnitudes, and its sign is the product of the operands' signs. |
| JavaInt.ShlMultiplies | A2/A2/ConstantPropagation.java:233 | `<<` by distance d is multiplication by 2^d, wrapped to 32 bits. |
| JavaInt.ShrFloor | A2/A2/ConstantPropagation.java:234 | `>>` by distance d is floor division by 2^d. |
| JavaInt.UshrOfNonNegative | A2/A2/ConstantPropagation.java:234-235 | On a non-negative operand, `>>>` agrees with `>>`. |
| JavaInt.UshrNonNegative | A2/A2/ConstantPropagation.java:235 | `>>>` by a non-zero distance never gives a negative result. |
| JavaInt.ShiftDistanceLowBits | A2/A2/ConstantPropagation.java:233-235 | Shifts use only the low five bits of the distance, as Java does. |
| JavaInt.BitwiseUnits | A2/A2/ConstantPropagation.java:218-220 | `a & -1 == a`, `a OR 0 == a`, `a ^ 0 == a` and `a ^ a == 0`. |
| ConstantPropagation.Get | A2/A2/ConstantPropagation.java:81-86 | A fact answers UNDEF exactly for the variables it does not hold. |
| ConstantPropagation.Update | A2/A2/ConstantPropagation.java:134-140 | After the update the variable has the new value and every other variable is unchanged. |
| ConstantPropagation.UpdateReportsChange | A2/A2/ConstantPropagation.java:124-143 | An update changes the fact exactly when the variable's old value differs from the new one. |
| ConstantPropagation.NewInitialFact | A2/A2/ConstantPropagation.java:75-78 | Every variable is UNDEF. |
| ConstantPropagation.NewBoundaryFact | A2/A2/ConstantPropagation.java:59-68 | A parameter that can hold an int is NAC; every other variable is UNDEF. |
| ConstantPropagation.MeetInto | A2/A2/ConstantPropagation.java:81-86 | Each variable of `fact` ends at the meet of its old target value and its `fact` value; other target entries stay. |
| ConstantPropagation.MeetResult | A2/A2/ConstantPropagation.java:81-86 | The same pointwise meet, as a function. |
| ConstantPropagation.MeetIntoLowers | A2/A2/ConstantPropagation.java:81-86 | The met fact is below both the target and the incoming fact. |
| ConstantPropagation.MeetNacAbsorbs | A2/A2/ConstantPropagation.java:97-99 | NAC meets anything to NAC, on either side. |
| ConstantPropagation.MeetUndefIdentity | A2/A2/ConstantPropagation.java:100-106 | UNDEF is the identity of meet, on either side. |
| ConstantPropagation.MeetConstants | A2/A2/ConstantPropagation.java:108-111 | Two equal constants meet to that constant; different ones meet to NAC. |
| ConstantPropagation.MeetSemilattice | A2/A2/ConstantPropagation.java:95-113 | Meet is commutative, associative and idempotent. |
| ConstantPropagation.BelowPartialOrder | A2/A2/ConstantPropagation.java:95-113 | The order meet induces is reflexive, antisymmetric and transitive. |
| ConstantPropagation.MeetIsGreatestLowerBound | A2/A2/ConstantPropagation.java:95-113 | The meet is below both arguments and above every common lower bound. |
| ConstantPropagation.CopyOthers | A2/A2/ConstantPropagation.java:131-136 | The loop copies `in` into `out` for every variable except the defined one and reports a change exactly when `out` changed. |
| ConstantPropagation.CopyOthersResult | A2/A2/ConstantPropagation.java:131-136 | The copied fact takes `in`'s value for every variable `in` holds other than the defined one, and keeps `out` elsewhere. |
| ConstantPropagation.TransferNode | A2/A2/ConstantPropagation.java:124-143 | The new OUT is the transfer result, and the method returns true exactly when OUT changed. |
| ConstantPropagation.TransferResultPointwise | A2/A2/ConstantPropagation.java:124-143 | A statement without an int-typed definition copies IN. Otherwise other variables get IN's value, and the defined variable gets the evaluated right-hand side when it can hold an int. |
| ConstantPropagation.TransferIdempotent | A2/A2/ConstantPropagation.java:124-143 | Transferring a second time with the same IN changes nothing. |
| ConstantPropagation.EvaluateDivisionByZero | A2/A2/ConstantPropagation.java:181-185 | `/` or `%` by the constant 0 evaluates to UNDEF, whatever the left operand. |
| ConstantPropagation.EvaluateConstantOperands | A2/A2/ConstantPropagation.java:186-190 | Two constant operands evaluate to the constant the Java operator computes. |
| ConstantPropagation.EvaluateNonConstantOperands | A2/A2/ConstantPropagation.java:196-201 | Otherwise the result is NAC if either operand is NAC, and UNDEF if not. |
| ConstantPropagation.EvaluateUntracked | A2/A2/ConstantPropagation.java:172-204 | A non-int variable and any other expression form evaluate to NAC. |
| ConstantPropagation.ConditionsAreZeroOrOne | A2/A2/ConstantPropagation.java:224-229 | Comparison operators evaluate to 0 or 1. |
| ConstantPropagation.EvaluateSound | A2/A2/ConstantPropagation.java:170-205 | A constant result of evaluation is the value the expression has in every concrete environment the fact describes. |
| ConstantPropagation.EvaluateMonotone | A2/A2/ConstantPropagation.java:170-205 | Apart from `/` and `%`, evaluation is monotone in the fact. |
| ConstantPropagation.EvaluateNotMonotoneAtDivision | A2/A2/ConstantPropagation.java:181-198 | At `/`, evaluation is not monotone: NAC / 0 gives UNDEF where NAC / UNDEF gives NAC. |
| DeadCodeDetection.LastDefault | A3/A3/DeadCodeDetection.java:118-120 | The default edge found is an out edge of kind SWITCH_DEFAULT, and none is found only when there is no such edge. |
| DeadCodeDetection.IfTargets | A3/A3/DeadCodeDetection.java:82-97 | With a constant condition, exactly the targets of the IF_TRUE edges (non-zero) or the IF_FALSE edges (zero) are followed. |
| DeadCodeDetection.SwitchTargets | A3/A3/DeadCodeDetection.java:98-125 | With a constant scrutinee, the matching case targets are followed, or the default target when no case matches. |
| DeadCodeDetection.AllEdgeTargets | A3/A3/DeadCodeDetection.java:78-81 | Every out-edge target is followed. |
| DeadCodeDetection.FollowedTargets | A3/A3/DeadCodeDetection.java:78-125 | The targets the traversal queues from a node are exactly the node's followed successors. |
| DeadCodeDetection.IfPruning | A3/A3/DeadCodeDetection.java:82-97 | An If node with a constant condition follows only edges of the matching branch kind. |
| DeadCodeDetection.SwitchPruning | A3/A3/DeadCodeDetection.java:98-125 | A matching case edge is followed, as are edges of other kinds. When some case matches, the default edge alone is not followed. |
| DeadCodeDetection.ReachableNodes | A3/A3/DeadCodeDetection.java:67-131 | The traversal visits exactly the nodes reachable from entry along followed edges. |
| DeadCodeDetection.TraversalEnds | A3/A3/DeadCodeDetection.java:67-131 | When the worklist is empty, the visited set is exactly the reachable set. |
| DeadCodeDetection.EntryReached | A3/A3/DeadCodeDetection.java:69-70 | The entry node is reachable. |
| DeadCodeDetection.ClosedContainsPath | A3/A3/DeadCodeDetection.java:67-131 | A set holding the entry and closed under followed edges contains the end of every path from the entry. |
| DeadCodeDetection.Analyze | A3/A3/DeadCodeDetection.java:50-159 | The result is sorted by statement index, which the CFG uses as node number. A node is in it exactly when it is unreachable and has a line number of 0 or more, or is an assignment to a variable that is dead afterwards and whose right-hand side has no side effect. |
| DeadCodeDetection.SideEffectClassification | A3/A3/DeadCodeDetection.java:161-179 | An expression has side effects exactly when it is a `new`, a cast, a field or array access, or a `/` or `%`. |
| DeadCodeDetection.NoSideEffectCannotTrap | A3/A3/DeadCodeDetection.java:161-179 | A binary expression classified side-effect free always has a value. |
| CHABuilder.Dispatch | A4/A4/CHABuilder.java:122-136 | The method found has the subsignature, is declared and non-abstract in a known class, and none is found for a missing class. |
| CHABuilder.SuperChain | A4/A4/CHABuilder.java:122-136 | The chain starts at the class, and every member is a known class. |
| CHABuilder.FirstConcreteIn | A4/A4/CHABuilder.java:122-136 | The method found is the first concrete one on the chain, and none is found only when no class on it declares one. |
| CHABuilder.DispatchIsFirstConcreteOnChain | A4/A4/CHABuilder.java:122-136 | Dispatch returns exactly the first concrete declaration on the superclass chain. |
| CHABuilder.DispatchNeverAbstract | A4/A4/CHABuilder.java:126-128 | Dispatch never returns an abstract method. |
| CHABuilder.Resolve | A4/A4/CHABuilder.java:78-114 | The result is exactly the CHA target set of the call site for its kind. |
| CHABuilder.ResolveBySubtypes | A4/A4/CHABuilder.java:93-110 | The breadth-first walk collects exactly the dispatch results of all descendants of the declared class. |
| CHABuilder.PollClass | A4/A4/CHABuilder.java:96-109 | One step keeps the collected methods plus the queue's pending dispatches unchanged and strictly lowers the queue weight. |
| CHABuilder.VirtualTargets | A4/A4/CHABuilder.java:93-110 | A virtual or interface call's target is exactly some descendant's dispatch result. |
| CHABuilder.CalleesDeclared | A4/A4/CHABuilder.java:78-114 | Every callee CHA finds is a declared method. |
| CHABuilder.CallReachesStep | A4/A4/CHABuilder.java:58-70 | A callee of a reachable method is reachable. |
| CHABuilder.AddEdges | A4/A4/CHABuilder.java:62-67 | The edges added are exactly those from the call site to each callee found, with the call site's kind. |
| CHABuilder.ResolveSite | A4/A4/CHABuilder.java:62-68 | One call site adds exactly its CHA targets to the worklist and its CHA edges to the graph. |
| CHABuilder.ProcessCallSites | A4/A4/CHABuilder.java:61-69 | A method's call sites add exactly its callees to the worklist and its CHA edges to the graph. |
| CHABuilder.BuildCallGraph | A4/A4/CHABuilder.java:51-73 | The reachable methods are exactly those call-reachable from the entry, and the edges are exactly the CHA edges out of reachable methods. |
| CHABuilder.BuildEnds | A4/A4/CHABuilder.java:58-70 | When the worklist is empty, the reachable set is exactly the call-reachable set. |
| InterConstantPropagation.Without | A4/A4/InterConstantPropagation.java:107-120 | Removing the result variable makes it UNDEF and leaves every other variable. |
| InterConstantPropagation.LocalEdgesKillOnlyTheResult | A4/A4/InterConstantPropagation.java:100-120 | A normal edge passes OUT unchanged; a call-to-return edge kills only the call's result variable. |
| InterConstantPropagation.BindArgsBinds | A4/A4/InterConstantPropagation.java:123-146 | Each int-typed parameter gets its argument's value; every other variable is UNDEF. |
| InterConstantPropagation.CallEdgeBindsParameters | A4/A4/InterConstantPropagation.java:123-146 | On a call edge, each int parameter gets its argument's value and nothing else is defined. An edge whose callee subsignature differs, or a dynamic call, gives the empty fact. |
| InterConstantPropagation.ReturnValueMeaning | A4/A4/InterConstantPropagation.java:149-165 | The met return value is UNDEF exactly when every return variable is UNDEF, and is a constant c exactly when some is c and all are c or UNDEF. |
| InterConstantPropagation.ReturnEdgeBindsResult | A4/A4/InterConstantPropagation.java:149-165 | On a return edge only the call's int result variable is defined, to the met return value. |
| InterConstantPropagation.TransferCallEdge | A7/A7/InterConstantPropagation.java:286-309 | The fact passed to the callee is the call-edge fact. |
| InterConstantPropagation.TransferReturnEdge | A7/A7/InterConstantPropagation.java:312-328 | The fact passed back is the return-edge fact. |
| InterConstantPropagation.TransferEdge | A7/A7/InterConstantPropagation.java:263-328 | Each edge kind is transferred by its rule. |
| InterConstantPropagation.ComputeRelations | A7/A7/InterConstantPropagation.java:73-158 | The store-to-load relations are exactly the static-field pairs plus the pairs whose bases may alias, and the load-to-store array relation is their inverse. |
| InterConstantPropagation.StaticAccesses | A7/A7/InterConstantPropagation.java:78-105 | The per-field maps hold exactly the static stores and loads of each resolved field. |
| InterConstantPropagation.StaticPairsComplete | A7/A7/InterConstantPropagation.java:78-105 | Every static store and load of the same field are paired. |
| InterConstantPropagation.InvertPointsTo | A7/A7/InterConstantPropagation.java:107-116 | Each object maps exactly to the variables with accesses that point to it, and no object maps to an empty set. |
| InterConstantPropagation.AddPointer | A7/A7/InterConstantPropagation.java:110-115 | Adding a variable inserts it under exactly its objects. |
| InterConstantPropagation.CollectAliasPairs | A7/A7/InterConstantPropagation.java:119-157 | The collected field and array relations are exactly the alias-based pairs. |
| InterConstantPropagation.UnionOverObjects | A7/A7/InterConstantPropagation.java:119-157 | Going over all objects gives the union of the per-object pairs, and the inverse array relation. |
| InterConstantPropagation.PairsThrough | A7/A7/InterConstantPropagation.java:121-155 | The pairs of one object are the store and load pairs within its aliases. |
| InterConstantPropagation.UnionsComplete | A7/A7/InterConstantPropagation.java:119-157 | The per-object union plus the static pairs equals the relation defined by may-alias. |
| InterConstantPropagation.SharedIsAlias | A7/A7/InterConstantPropagation.java:107-157 | Two bases share an object in the inverted map exactly when they may alias. |
| InterConstantPropagation.InstanceSharedIsAlias | A7/A7/InterConstantPropagation.java:121-145 | An instance field pair is collected exactly when its bases may alias. |
| InterConstantPropagation.ArraySharedIsAlias | A7/A7/InterConstantPropagation.java:146-155 | An array pair is collected exactly when its bases may alias. |
| InterConstantPropagation.FlipInverts | A7/A7/InterConstantPropagation.java:150-153 | The load-to-store relation is the exact inverse of store-to-load. |
| InterConstantPropagation.IndicesMayAliasUnlessDistinct | A7/A7/InterConstantPropagation.java:194-198 | Two indices may alias unless one is UNDEF or both are different constants; the test is symmetric. |
| InterConstantPropagation.PullLowersByAliasedStores | A7/A7/InterConstantPropagation.java:213-225 | Pulling stored values into an array load changes only the loaded variable and only lowers it. Each aliased store's value is met into it. |
| InterSolver.Solver.constructor | A7/A7/InterSolver.java:54-59 | The solver holds the ICFG and analysis, with every IN and OUT initial and an empty worklist. |
| InterSolver.Solver.Solve | A7/A7/InterSolver.java:54-59 | When the worklist runs empty within the budget, every node is stable: its IN lies below every in-edge fact, and its OUT is what its transfer and the alias pushes keep. |
| InterSolver.Solver.Initialize | A7/A7/InterSolver.java:61-77 | Entry nodes get the boundary fact and other nodes the initial fact, and OUT equals IN. |
| InterSolver.Solver.DoSolve | A7/A7/InterSolver.java:79-97 | Every node off the worklist is stable, and the result is true exactly when the worklist is empty. |
| InterSolver.Solver.Step | A7/A7/InterSolver.java:83-95 | Processing one node keeps every node off the new worklist stable. |
| InterSolver.Solver.MeetInEdges | A7/A7/InterSolver.java:87-91 | IN is the meet of the edge transfers of the predecessors' OUT facts. |
| InterSolver.MeetAllLowers | A7/A7/InterSolver.java:87-91 | The met IN is below the old IN and below every in-edge fact. |
| InterSolver.Solver.Propagate | A7/A7/InterSolver.java:99-101 | The node's successors are added to the worklist; nothing else changes. |
| InterSolver.Solver.AddAll | A7/A7/InterSolver.java:99-101 | The worklist grows by exactly the given nodes. |
| InterSolver.Solver.TransferAt | A7/A7/InterSolver.java:93-95 | The node's OUT is its own transfer, every other node's OUT is what this node pushes to it, and the nodes queued are the successors of each changed node. |
| InterSolver.Solver.TransferCallNode | A7/A7/InterConstantPropagation.java:182-187 | A call node copies IN to OUT and queues nothing. |
| InterSolver.Solver.TransferNonCallNode | A7/A7/InterConstantPropagation.java:211-260 | A non-call node computes its own OUT and pushes to aliased loads, by statement kind. |
| InterSolver.Solver.TransferOwn | A7/A7/InterConstantPropagation.java:257-259 | Any other statement gets the intraprocedural transfer. |
| InterSolver.Solver.TransferFieldLoad | A7/A7/InterConstantPropagation.java:234-243 | A field load copies IN except for the loaded variable. |
| InterSolver.Solver.TransferArrayLoad | A7/A7/InterConstantPropagation.java:213-225 | An array load copies IN except for the loaded variable, then pulls from the aliased array stores. |
| InterSolver.Solver.PullFromArrayStores | A7/A7/InterConstantPropagation.java:221-223 | The loop folds every aliased store into the load's OUT and reports whether OUT changed. |
| InterSolver.PullReportsChange | A7/A7/InterConstantPropagation.java:221-223 | Each pull step extends the fold by one store and keeps the change flag right. |
| InterSolver.Solver.TransferLoadArray | A7/A7/InterConstantPropagation.java:189-208 | Only the loaded variable of the load changes: it meets the stored value when the indices may alias. |
| InterSolver.Solver.TransferArrayStore | A7/A7/InterConstantPropagation.java:226-233 | An array store does its own transfer and pushes its value to each aliased load, queueing the successors of changed loads. |
| InterSolver.Solver.PushToArrayLoads | A7/A7/InterConstantPropagation.java:228-232 | Every load the store aliases gets one load step, and other nodes stay. |
| InterSolver.Solver.PushToArrayLoad | A7/A7/InterConstantPropagation.java:229-231 | One load gets the step, and its successors are queued when it changed. |
| InterSolver.Solver.TransferFieldStore | A7/A7/InterConstantPropagation.java:244-256 | A field store does its own transfer and meets the stored value into every aliased load. |
| InterSolver.Solver.PushToFieldLoads | A7/A7/InterConstantPropagation.java:246-254 | Every load the store aliases gets the stored value met in, and other nodes stay. |
| InterSolver.Solver.PushToFieldLoad | A7/A7/InterConstantPropagation.java:248-253 | One load gets the value met in, and its successors are queued when it changed. |
| InterSolver.StepKeepsStable | A7/A7/InterSolver.java:83-95 | One worklist step keeps every node off the worklist stable. |
| InterSolver.SettledAfterStep | A7/A7/InterSolver.java:93-95 | A node whose transfer was settled is still settled after another node's step. |
| InterSolver.EdgesMetAfterStep | A7/A7/InterSolver.java:87-96 | A node off the worklist still has IN below its in-edge facts after a step. |
| InterSolver.FieldPushedAfterStep | A7/A7/InterConstantPropagation.java:244-256 | A store's pushes stay done after another node's step. |
| PointerFlow.FixpointInclusion | A5/A5/Solver.java:177-221 | With an empty worklist, every PFG edge's target points to everything its source points to. |
| PointerFlow.FlowState.AddPFGEdge | A5/A5/Solver.java:161-172 | The edge is added, and a new edge with a non-empty source queues the source's objects for the target; consistency is kept. |
| PointerFlow.FlowState.Propagate | A5/A5/Solver.java:227-244 | The new objects are added to the pointer's set and queued once for each successor; consistency is restored and pending coverage kept. |
| PointerFlow.FlowState.PollEntry | A5/A5/Solver.java:180 | The head entry is removed and returned, and its objects are still covered. |
| PointerFlow.FlowState.AddEntry | A5/A5/Solver.java:106-108 | An entry is appended to the worklist and nothing else changes. |
| PointerFlow.FlowState.AddObjects | A5/A5/Solver.java:227-244 | The delta is the objects not yet in the set, and the set grows by them. |
| PointerAnalysisCI.Solver.Solve | A5/A5/Solver.java:70-73 | With an empty worklist at the end, the state is closed under every rule of the analysis. |
| PointerAnalysisCI.Solver.Initialize | A5/A5/Solver.java:78-88 | `main` is the entry and is reachable, and the state is consistent. |
| PointerAnalysisCI.Solver.AddReachable | A5/A5/Solver.java:93-147 | The method becomes reachable, and every statement of each newly reachable method is processed. |
| PointerAnalysisCI.Solver.ProcessStmt | A5/A5/Solver.java:101-145 | Each statement kind (new, copy, static store and load, static call) adds its objects and edges. |
| PointerAnalysisCI.Solver.WireCall | A5/A5/Solver.java:265-278 | Arguments get edges to parameters, and return variables get edges to the result. |
| PointerAnalysisCI.Solver.Analyze | A5/A5/Solver.java:177-221 | The loop keeps the invariant, and an empty worklist means the state is closed. |
| PointerAnalysisCI.Solver.ProcessNewObjects | A5/A5/Solver.java:184-219 | Each new object of a variable gets its field, array and call rules processed. |
| PointerAnalysisCI.Solver.AddFieldEdges | A5/A5/Solver.java:186-215 | For each object: stores get edges into `o.f`, loads get edges out of it, and likewise for arrays. |
| PointerAnalysisCI.Solver.ProcessCall | A5/A5/Solver.java:252-281 | The call edges added are exactly the resolved edges of the variable's call sites on that object. |
| PointerAnalysisCI.Solver.ProcessInvoke | A5/A5/Solver.java:255-279 | One call site adds its resolved edge, queues the receiver for `this`, and wires a new callee. |
| PointerAnalysisCI.CallEdgesOfExactly | A5/A5/Solver.java:252-281 | An edge is added exactly for a call site of the variable whose callee resolves on the object's type. |
| PointerAnalysisCI.AtFixpoint | A5/A5/Solver.java:177-221 | The invariant with an empty worklist gives the closed state. |
| PointerAnalysisCI.NewReachesLhs | A5/A5/Solver.java:105-109 | The allocated object is in the points-to set of the left-hand side. |
| PointerAnalysisCI.CopyIncludes | A5/A5/Solver.java:110-113 | `x = y` gives `pt(y) ⊆ pt(x)`. |
| PointerAnalysisCI.FieldFlowsThroughAlias | A5/A5/Solver.java:186-203 | A store `x.f = y` and a load `z = w.f` on aliased bases give `pt(y) ⊆ pt(z)`. |
| PointerAnalysisCI.ArrayFlowsThroughAlias | A5/A5/Solver.java:204-215 | A store `x[i] = y` and a load `z = w[j]` on aliased bases give `pt(y) ⊆ pt(z)`. |
| PointerAnalysisCI.InstanceCallResolved | A5/A5/Solver.java:252-281 | A resolved instance call has its edge, the callee is reachable, the receiver object is in `pt(this)`, and arguments flow to parameters. |
| PointerAnalysisCI.StaticCallWired | A5/A5/Solver.java:126-142 | A static callee is reachable, arguments flow to parameters, and return variables flow to the result. |
| PointerAnalysisCS.Solver.Solve | A6/tai-e/src/main/java/pascal/taie/analysis/pta/cs/Solver.java:87-90 | With an empty worklist at the end, the context-sensitive state is closed. |
| PointerAnalysisCS.Solver.Initialize | A6/tai-e/src/main/java/pascal/taie/analysis/pta/cs/Solver.java:92-104 | `main` in the empty context is the entry and is reachable. |
| PointerAnalysisCS.Solver.AddReachable | A6/tai-e/src/main/java/pascal/taie/analysis/pta/cs/Solver.java:109-159 | The CS method becomes reachable, and its statements are processed in its context. |
| PointerAnalysisCS.Solver.ProcessStmt | A6/tai-e/src/main/java/pascal/taie/analysis/pta/cs/Solver.java:113-157 | Each statement kind adds its CS objects and edges; `new` uses the selected heap context. |
| PointerAnalysisCS.Solver.WireCall | A6/tai-e/src/main/java/pascal/taie/analysis/pta/cs/Solver.java:288-304 | Argument and return edges are added between the caller and callee contexts. |
| PointerAnalysisCS.Solver.Analyze | A6/tai-e/src/main/java/pascal/taie/analysis/pta/cs/Solver.java:197-241 | An empty worklist means the state is closed. |
| PointerAnalysisCS.Solver.ProcessNewObjects | A6/tai-e/src/main/java/pascal/taie/analysis/pta/cs/Solver.java:204-239 | Each new CS object gets its field, array and call rules. |
| PointerAnalysisCS.Solver.AddFieldEdges | A6/tai-e/src/main/java/pascal/taie/analysis/pta/cs/Solver.java:206-235 | Stores and loads on the object's fields and array get their edges. |
| PointerAnalysisCS.Solver.ProcessCall | A6/tai-e/src/main/java/pascal/taie/analysis/pta/cs/Solver.java:272-307 | The CS call edges added are exactly the resolved ones. |
| PointerAnalysisCS.Solver.ProcessInvoke | A6/tai-e/src/main/java/pascal/taie/analysis/pta/cs/Solver.java:275-305 | One call site adds its edge, queues the receiver for `this` in the callee context, and wires a new callee. |
| PointerAnalysisCS.CallEdgesOfExactly | A6/tai-e/src/main/java/pascal/taie/analysis/pta/cs/Solver.java:272-307 | An edge is added exactly for a resolved call site, from the call site in the receiver object's heap context to the callee in the selected context. |
| PointerAnalysisCS.AtFixpoint | A6/tai-e/src/main/java/pascal/taie/analysis/pta/cs/Solver.java:197-241 | The invariant with an empty worklist gives the closed state. |
| PointerAnalysisCS.NewReachesLhs | A6/tai-e/src/main/java/pascal/taie/analysis/pta/cs/Solver.java:118-125 | The allocated object, in its selected heap context, is in `pt(c:x)`. |
| PointerAnalysisCS.CopyIncludes | A6/tai-e/src/main/java/pascal/taie/analysis/pta/cs/Solver.java:126-129 | `x = y` in context c gives `pt(c:y) ⊆ pt(c:x)`. |
| PointerAnalysisCS.FieldFlowsThroughAlias | A6/tai-e/src/main/java/pascal/taie/analysis/pta/cs/Solver.java:206-223 | An instance store and load on a shared CS object connect the stored and loaded variables. |
| PointerAnalysisCS.ArrayFlowsThroughAlias | A6/tai-e/src/main/java/pascal/taie/analysis/pta/cs/Solver.java:224-235 | An array store and load on a shared CS object connect the stored and loaded variables. |
| PointerAnalysisCS.InstanceCallResolved | A6/tai-e/src/main/java/pascal/taie/analysis/pta/cs/Solver.java:272-307 | The edge leaves the call site in the receiver object's heap context, the callee is reachable and holds the object in `this`, and arguments read in that heap context flow to parameters. |
| PointerAnalysisCS.StaticCallWired | A6/tai-e/src/main/java/pascal/taie/analysis/pta/cs/Solver.java:138-155 | A static callee is reachable in the caller's context and wired in the selected context. |
| TaintAnalysis.MakeTaint | A8/tai-e/src/main/java/pascal/taie/analysis/pta/plugin/taint/TaintAnalysiss.java:73-86 | The taint object is a taint, remembers its source call, and has the given type. |
| TaintAnalysis.HandleTaintSource | A8/tai-e/src/main/java/pascal/taie/analysis/pta/plugin/taint/TaintAnalysiss.java:79-86 | A taint object is made exactly when the callee and return type are a configured source; it is the taint of this call site. |
| TaintAnalysis.HandleTaintTransfer | A8/tai-e/src/main/java/pascal/taie/analysis/pta/plugin/taint/TaintAnalysiss.java:91-144 | The pairs returned are exactly the transfer pairs. |
| TaintAnalysis.TransferPairsExactly | A8/tai-e/src/main/java/pascal/taie/analysis/pta/plugin/taint/TaintAnalysiss.java:91-144 | A pair is produced exactly by one of three rules: base to result, argument to base, argument to result. Each rule applies to the taints of its source and needs a matching configured transfer. |
| TaintAnalysis.ArgPairsExactly | A8/tai-e/src/main/java/pascal/taie/analysis/pta/plugin/taint/TaintAnalysiss.java:111-142 | The argument loop makes a pair exactly for each configured argument with a taint. |
| TaintAnalysis.TransferPairsFromTaints | A8/tai-e/src/main/java/pascal/taie/analysis/pta/plugin/taint/TaintAnalysiss.java:91-144 | Every pair holds a taint made from a source the base or an argument points to, aimed at the result or the base. |
| TaintAnalysis.ArgToResultWithoutResult | A8/tai-e/src/main/java/pascal/taie/analysis/pta/plugin/taint/TaintAnalysiss.java:127-142 | Argument-to-result pairs are produced even when the call has no result variable (with no variable). |
| TaintAnalysis.VarPointsToExactly | A8/tai-e/src/main/java/pascal/taie/analysis/pta/plugin/taint/TaintAnalysiss.java:163-166 | A variable's context-insensitive points-to set holds exactly the objects of its CS variables. |
| TaintAnalysis.CallSiteFlowsExactly | A8/tai-e/src/main/java/pascal/taie/analysis/pta/plugin/taint/TaintAnalysiss.java:160-174 | A call site reports a flow exactly for each sink argument pointing to a taint. |
| TaintAnalysis.TaintFlowsExactly | A8/tai-e/src/main/java/pascal/taie/analysis/pta/plugin/taint/TaintAnalysiss.java:151-177 | A flow is reported exactly for a call edge into a reachable sink whose argument points to a taint. |
| TaintAnalysis.CollectTaintFlows | A8/tai-e/src/main/java/pascal/taie/analysis/pta/plugin/taint/TaintAnalysiss.java:151-177 | The loops collect exactly the taint flows. |
| PointerAnalysisTaint.Solver.Solve | A8/A8/Solver.java:106-110 | With an empty worklist the state is closed, and the flows returned are exactly the taint flows of the final state. |
| PointerAnalysisTaint.Solver.Initialize | A8/A8/Solver.java:112-124 | `main` in the empty context is the entry and is reachable. |
| PointerAnalysisTaint.Solver.AddReachable | A8/A8/Solver.java:177-229 | The CS method becomes reachable, and its statements are processed. |
| PointerAnalysisTaint.Solver.ProcessStmt | A8/A8/Solver.java:185-225 | Each statement kind is processed. |
| PointerAnalysisTaint.Solver.ProcessLocalStmt | A8/A8/Solver.java:185-204 | New, copy and static field statements add their objects and edges. |
| PointerAnalysisTaint.Solver.ProcessCallStmt | A8/A8/Solver.java:205-225 | A static call is processed as a single call and its taint transfers are done. Every call site among the method's statements is then recorded under each of its arguments, in the method's context. |
| PointerAnalysisTaint.Solver.RecordInvokes | A8/A8/Solver.java:215-224 | Every call site among the method's statements is recorded under each of its arguments, in the method's context. |
| PointerAnalysisTaint.Solver.RecordArgs | A8/A8/Solver.java:217-222 | Each argument records the call site. |
| PointerAnalysisTaint.Solver.ProcessSingleCall | A8/A8/Solver.java:127-161 | A source call gives its result the taint object, and the call edge is added and wired. |
| PointerAnalysisTaint.Solver.AddCallEdge | A8/A8/Solver.java:141-160 | A new edge makes the callee reachable and wires it. |
| PointerAnalysisTaint.Solver.WireCall | A8/A8/Solver.java:146-158 | Argument and return edges are added. |
| PointerAnalysisTaint.Solver.TransferTaint | A8/A8/Solver.java:163-172 | For each transfer pair that has a target variable, the worklist gets an entry for that variable in the call site's context, holding the pair's taint object in the selector's empty context. |
| PointerAnalysisTaint.Solver.AddTaintEntries | A8/A8/Solver.java:166-171 | The entries appended are exactly those of the pairs. |
| PointerAnalysisTaint.Solver.Analyze | A8/A8/Solver.java:267-328 | An empty worklist means the state is closed. |
| PointerAnalysisTaint.Solver.ProcessNewObjects | A8/A8/Solver.java:275-326 | Each new object gets its field, array, call and taint-rerun rules. |
| PointerAnalysisTaint.Solver.RerunTransfers | A8/A8/Solver.java:307-324 | Every call site recorded for the variable has its transfers rerun. |
| PointerAnalysisTaint.Solver.RerunInvoke | A8/A8/Solver.java:309-323 | Each callee resolved on a receiver object, or the resolved static callee, has its transfer done; a callee that does not resolve is skipped. |
| PointerAnalysisTaint.Solver.AddFieldEdges | A8/A8/Solver.java:277-306 | Stores and loads on the object's fields and array get their edges. |
| PointerAnalysisTaint.Solver.ProcessCall | A8/A8/Solver.java:359-379 | Each call site of the variable is processed on the object. |
| PointerAnalysisTaint.Solver.ProcessInvoke | A8/A8/Solver.java:362-378 | The receiver object goes to `this` in the selected context, and the single call is processed. |
| PointerAnalysisTaint.AtFixpoint | A8/A8/Solver.java:267-328 | The invariant with an empty worklist gives the closed state. |
| PointerAnalysisTaint.NewReachesLhs | A8/A8/Solver.java:185-192 | The allocated object, in its selected heap context, is in `pt(c:x)`. |
| PointerAnalysisTaint.InstanceCallResolved | A8/A8/Solver.java:359-379 | The edge leaves the call site in the receiver variable's context, the callee is reachable with the object in `this`, and arguments in that context flow to parameters. |
| PointerAnalysisTaint.StaticCallWired | A8/A8/Solver.java:205-213 | A static call has its edge to the callee in the selected context, and arguments flow to parameters. |
| PointerAnalysisTaint.SourceReachesResult | A8/A8/Solver.java:132-138 | The result of a static source call points to its taint object in the empty context. |
| PointerAnalysisTaint.InstanceSourceReachesResult | A8/A8/Solver.java:364-376 | The result of an instance call resolved to a source on a receiver object, which `processCall` hands to `processSingleCall` (lines 132-138), points to its taint object in the empty context. |
| PointerAnalysisTaint.StaticSinkReported | A8/A8/Solver.java:205-213 | A taint reaching a sink argument of a static call is reported as a taint flow. |
| PointerAnalysisTaint.InstanceSinkReported | A8/A8/Solver.java:359-379 | A taint reaching a sink argument of a resolved instance call is reported as a taint flow. |

## Left out

- I/O, logging, option and configuration reading, the `World`, the IR builder and the class hierarchy builder are outside the analyses. The program, hierarchy and configuration are given as values.
- Framework calls are uninterpreted parameters: the heap model, `FieldRef.resolve`, `MethodRef.resolve`, `CallGraphs.resolveCallee`, `getReturnType` and the context selector.
- The results of the live-variable, constant-propagation and pointer analyses that other analyses consume are inputs.
- `CSManager` is not modelled: CS variables, objects, methods and call sites are plain values, which is what its memoisation amounts to.
- `PointsToSet` objects are sets. A worklist entry carries a snapshot of its objects, so the aliasing between an entry and a live points-to set is not modelled.
- Multi-maps and sets are iterated by index order of a list built from the set by `Collections.ListOf`. For the set-valued results built this way (call edges, points-to sets, taint pairs and flows) the model proves results independent of that order, but does not fix Java's `HashSet` order. The `TreeSet` order of reported taint flows is not modelled; the flows are a set.
- `CPFact.copyFrom` is modelled as overwriting the target fact with the given one.
- `canHoldInt` is given per variable by its primitive type (byte, short, int, char, boolean).
- InterSolver.Solver.Solve: runs on a step budget; termination of the monotone worklist in the finite-height lattice is not proved.
- PointerAnalysisCI.Solver.Analyze: runs on a step budget; termination of the pointer-analysis worklist is not proved.
- PointerAnalysisCI.Solver.Solve: runs `Analyze` on a step budget, so `Closed` is promised only when the worklist empties within it.
- PointerAnalysisCS.Solver.Analyze: runs on a step budget; termination of the pointer-analysis worklist is not proved.
- PointerAnalysisCS.Solver.Solve: runs `Analyze` on a step budget, so `Closed` is promised only when the worklist empties within it.
- PointerAnalysisTaint.Solver.Analyze: runs on a step budget; termination of the pointer-analysis worklist is not proved. Its closed state omits taint-transfer completeness, as on the `AtFixpoint` line.
- InterSolver.Solver.PullFromArrayStores: the related stores are folded into the load's OUT in node-index order, as is `InterConstantPropagation.PullUpTo`. The source iterates a hash multimap, and each step re-reads the index from the partly updated OUT, so at `a = b[a]` the order can matter. The model does not prove the pull's result independent of that order.
- InterSolver.Solver.Solve: the stability it promises covers three things: each node's in-edges, its own transfer, and the pushes of field stores. It does not say that an array store's value has reached its related loads, nor that a load's array pulls are complete.
- InterSolver.Solver.DoSolve: promises the same stability as `Solve`, with the same omission of array pushes and pulls.
- InterSolver.Solver.Step: keeps the same stability as `Solve`, with the same omission of array pushes and pulls.
- InterSolver.StepKeepsStable: preserves the same stability as `Solve`, with the same omission of array pushes and pulls.
- CHABuilder.Resolve: a STATIC or SPECIAL call whose method is not declared gives no target. The source would add a `null` to the set.
- DeadCodeDetection.Analyze: requires that the CFG has no field or array store statement. The source casts the left-hand side of every assignment to `Var`, which throws on those statements.
- A method with no body is treated as having no parameters and no statements. A static method is one with no `this` variable.
- In the pointer analyses, where parameters and arguments differ in number, only the common prefix is bound (the source indexes both with one counter).
- InterConstantPropagation.TransferCallEdge: a valid ICFG is required to give no non-dynamic call edge whose subsignatures match and whose call has more arguments than the callee has parameters. The source would throw at `params.get(i)` there. In a well-formed IR a subsignature match implies equal counts.
- PointerAnalysisCS.Solver.ProcessStmt: a static call whose callee `resolveCallee` does not resolve is skipped. The source would go on with a `null` method and throw. In `processCall` an instance call with no callee is skipped by the source itself. A5 resolves static calls with `MethodRef.resolve`, which is modelled as total.
- PointerAnalysisTaint.Solver.ProcessCallStmt: a static call whose callee `resolveCallee` does not resolve is skipped. The source would go on with a `null` method and throw.
- PointerAnalysisTaint.Solver.RerunInvoke: a recorded call site whose callee does not resolve, on a receiver object or as a static call, is skipped. The source passes the `null` callee to `transferTaint`, which throws in `handleTaintTransfer`.
- PointerAnalysisTaint.Solver.Solve: requires that every method context the selector can choose, over all call sites, objects and methods and not only the program's, lies in one finite set, so that the reachable CS methods are finite. The context-insensitive selector and selectors clamped to a default context outside the program meet this; an unclamped k-limiting selector does not, and the solver is not modelled for it. It also runs `Analyze` on a step budget, so its closed state is promised only when the worklist empties within it.
- PointerAnalysisTaint.Solver.TransferTaint: a transfer pair without a target variable (an argument-to-result transfer at a call with no result) is skipped. The source would look up a `null` variable.
- PointerAnalysisTaint.Solver.AddTaintEntries: a transfer pair without a variable adds no worklist entry, as on the `TransferTaint` line.
- PointerAnalysisTaint.AtFixpoint: the closed state covers the pointer-analysis rules and the taint sources. It does not say that the objects of every taint transfer have reached their targets. `TransferTaint` and `RerunInvoke` each state this for the transfers they perform, but it is not carried to the fixpoint.
- `StmtProcessor` is an empty visitor in the sources and is not modelled.
- Floating-point, `long` and the other non-`int` arithmetic are treated as NAC, as the source does.
