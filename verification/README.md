# Javalette verification model

Javalette is a small optimising compiler. This project models the algorithms at its heart and proves what they are for:

* **Red-black trees** (`RbShape`, `RbTree`). Nodes are heap objects without parent pointers, as in the program. Insertion, deletion and joining work through the explicit path stack and the shared sentinel whose key searches overwrite. Each operation is proved to keep a valid red-black tree and to give exactly the expected ordered sequence of entries, and the stack is proved to be large enough.
* **Local optimisation by value numbering** (`Dag`, `DagEmit`, `DagOrder`, `DagLabels`, `DagBlock`, `DagCode`, `DagExact`, `ZeroQuotients`, `Arithmetic`, `GraphOpt`). A segment of straight-line code is read into a graph whose nodes stand for values, and code is emitted from the graph with folding and sharing. Reading is sound, sharing happens exactly when it should, the code does no operation twice and none on known constants, and what every variable ends with is determined for all segments.
* **Copy and dead-store passes** (`Quadr`, `CopyPasses`, `PassResults`, `LocalOpt`). Four passes that work in place on an array of quadruples preserve what a block does, exactly when the block needs the result of every call in it. What each pass leaves in the table is described entry by entry.
* **Both groups together** (`LocalPasses`). The passes as they are run on every block of a function, with an exact condition on the original block for its effects and variables to be preserved.
* **Liveness** (`Flow`, `Sweeps`, `Distances`, `NoCycles`, `Liveness`). The repeated depth-first sweeps over the block graph end with exactly the path definition of liveness. It is determined, for every graph, when the distances they record are those of the nearest uses.
* **Jumping code** (`Blocks`, `BlockRun`, `JumpCode`, `JumpRuns`, `Begins`, `Statements`, `StatementRuns`, `SoleTargets`, `StatementTargets`, `Generator`). Expressions, conditions, `if`, `while`, `for` and `return` become linked basic blocks. Running the blocks does what the source statements mean; only the first blocks of loop bodies are the target of several jumps.
* **Registers, slots and live flags** (`Frame`, `Registers`, `LiveMarks`). Emptying a register never loses the value of a live variable, whatever the allocation heuristic does: every generated move copies from a location that still holds it. The slots of a frame, parameters among them, stay disjoint and so do the addresses emitted for them, and every parameter is found where it was passed. The live flags of a block, computed backwards and undone forwards, are right exactly when no quadruple reads and assigns a variable that is dead afterwards.
* **Pools** (`Pool`). Cells handed out are never handed out again before they are returned, across growth of the pool.

Code that works by changing state is modelled by classes and array methods with loops. Each such method is tied by its postcondition to a function of its inputs or of the old state, and the properties are proved about those functions.

A machine state maps variables to values and records a trace of effects. Arithmetic, loads, call results and comparison are arbitrary functions (`Quadr.Machine`), the same before and after a transformation, so the statements hold for every machine. Comparison is three-way, so a negated comparison is its complement. Folding is assumed to compute what the machine computes except when it divides by zero, where nothing is assumed of the machine (`DagEmit.Agrees`), and addition and multiplication to be commutative (`Dag.Commutes`). `Arithmetic.Arithmetic32` is a machine on which this holds.

## Where the program departs from its intent

* `remove_var` does nothing for leaves (`src/opt.cpp:445-446`), so a variable that was set to a constant or to another variable's input stays on that list and can be overwritten with it. `DagBlock.CopyThenConstantLost` is such a segment: `x := a; x := 3` ends with `a` in `x`.
* A division of a constant by the constant zero is reported while code is generated from the graph, and the result is the constant one (`src/opt.cpp:223-240`). `error` only counts (`src/utils.c:20-29`), and the count is not looked at again after the semantic check (`src/jl.c:219-225`), so the program is compiled with that constant. `ZeroQuotients.ZeroQuotientLost` is such a segment, and `DagBlock.RewriteFailsIff` says for which blocks the report is made.
* As long as ids fit into keys (`Dag.KeyInjective`), these are the only two ways in which the graph loses meaning: `DagExact.SegmentExact` says exactly which segments are preserved on every machine and in every state, by a condition on the graph alone, and `DagBlock.StandingMatches` gives a simpler sufficient one for whole blocks: no variable assigned by a copy is assigned again in the same segment, and no constant is divided by zero.
* `remove_dead_assignments` removes a call whose result is overwritten unread. `CopyPasses.OptimizedPreserves` shows that this is the only way in which the passes can change a block, by a condition on the block before they run (`CopyPasses.CallsKept`).
* Forward propagation of a copy ends at an assignment to one of its variables. When that assignment is itself removed by a later step, because it has become a copy of a variable to itself, uses behind it are not renamed although they could be. `PassResults.RemovedBetween` is such a block, and `PassResults.CopiesUnusedIff` says for which copies this happens; meaning is preserved.
* `rb_join` drops the new entry when one of the trees is empty; `RbShape.JoinDocumented` says that it is correct otherwise.
* `compute_in_out` never lowers a distance: it compares with the descriptor of the successor instead of its own (`src/flow.c:120`), so the documented minimum is not computed. `Liveness.Analysis.Analyze` says exactly when all distances are those of the nearest uses: wherever a variable passes through a block, the child from which the depth-first sweeps bring it first, which for loops can be the second one, must have a nearest use. `NoCycles.AcyclicIff` gives the condition for graphs without cycles, and `NoCycles.FartherIsRecorded` is a graph on which it fails.
* `add_basic_blocks` drops an empty current block that nothing refers to yet. The first block of a loop body is dropped in this way if the body does not begin with a quadruple, as in `while (e) ;` or `while (e) if (true) ...`, and the condition then jumps to a block that has been released. `StatementRuns.LoopHeadKept` says exactly for which bodies this happens, and the correctness theorems are for programs without such loops (`Statements.LoopsBegin`).
* The pass that marks changes of live flags misjudges a quadruple that reads and assigns the same variable when that variable is dead afterwards. `LiveMarks.ReplayIff` says that this is the only case, and `LiveMarks.DeadIncrement` is one; an assertion of the program fails there.

## Model

| member | source | states |
|---|---|---|
| `RbTreeModel.RbTree.Insert` | src/rbtree.c:497-524 | Afterwards the tree is valid (red-black, linked as recorded, black height as stored) and its in-order sequence of entries is the old one with the new entry put behind all entries with keys not larger; the walk never leaves the stack. |
| `RbTreeModel.RbTree.InsertIfAbsent` | src/rbtree.c:527-563 | If the key is present, its node is returned and the contents stay as they are; otherwise nothing is returned and the contents are those of an insertion. |
| `RbTreeModel.RbTree.Search` | src/rbtree.c:470-494 | A node is returned if and only if the key is present, and that node holds an entry with the key; overwriting the sentinel's key does not affect the tree. |
| `RbTreeModel.RbTree.Delete` | src/rbtree.c:566-596 | The tree stays valid, and its contents lose exactly one entry with the key if there is one and are unchanged otherwise. |
| `RbTreeModel.Join` | src/rbtree.c:620-730 | Joining two valid trees around an entry that separates them gives a valid tree whose contents are both contents with the entry between them, except that the entry is dropped if either tree is empty. |
| `RbTreeModel.RbTree.constructor` | src/rbtree.c:436-446 | A new tree is valid and empty. |
| `RbTreeModel.RbTree.LeftRotate` | src/rbtree.c:76-96 | Turns the focused subtree into the rotated one, at the root as well as below it, and leaves the rest of the tree and its contents alone. |
| `RbTreeModel.RbTree.RightRotate` | src/rbtree.c:99-119 | The mirror image of the left rotation. |
| `RbTreeModel.RbTree.InsertFixup` | src/rbtree.c:122-205 | From a red-black tree whose only fault is a red node with a red parent at the focus, reaches a valid tree with the same contents, and the stored black height is the true one. |
| `RbTreeModel.RbTree.DeleteFixup` | src/rbtree.c:208-336 | From a tree that lacks one black node at the focus, reaches a valid tree with the same contents through all four cases and their mirrors. |
| `RbTreeModel.RbTree.DeleteNode` | src/rbtree.c:339-397 | Removes the entry at the place of the given node, also when the node has two children and takes over its successor's entry. |
| `RbTreeModel.RbTree.DoInsert` | src/rbtree.c:400-431 | Hangs a new red leaf at the end of the walk and repairs the tree. |
| `RbTreeModel.RbTree.ReallocateStack` | src/rbtree.c:29-40 | The stack has twice its size, or the requested size if that is more, and keeps its entries. |
| `RbShape.DepthBound` | src/rbtree.c:503-513 | A path in a red-black tree is at most twice the black height long, which is why a stack of twice the black height and one more entry is enough. |
| `RbShape.RecolorStep` | src/rbtree.c:143-153 | Recolouring parent, uncle and grandparent keeps black heights and moves the fault two levels up. |
| `RbShape.RotateStep` | src/rbtree.c:154-168 | After the rotation of an insertion the subtree has no fault and its old black height. |
| `RbShape.DemoteStep` | src/rbtree.c:224-300 | Painting a black sibling with black children red moves the missing black node one level up, or ends the repair at a red parent. |
| `RbShape.PromoteStep` | src/rbtree.c:224-250 | Rotating a red sibling over the parent keeps the fault where it is, below a red parent and with a black sibling. |
| `RbShape.AbsorbStep` | src/rbtree.c:251-300 | A sibling with a red far child absorbs the missing black node: the subtree is red-black with the black height it should have. |
| `RbShape.SortedInsertProps` | src/rbtree.c:497-524 | Insertion into a sorted sequence gives a sorted sequence with one more occurrence of the new entry and no other change. |
| `RbShape.RemovesOneProps` | src/rbtree.c:566-596 | Removing one entry with a key keeps the sequence sorted and takes exactly one entry, which has that key, out of the multiset. |
| `RbShape.SortedJoin` | src/rbtree.c:620-730 | The result of a join is sorted when the entry separates the two contents. |
| `RbShape.JoinDocumented` | src/rbtree.c:620-641 | A join gives both contents and the new entry if and only if neither tree is empty. |
| `RbShape.SortedInsertAt` | src/rbtree.c:400-431 | Putting an entry between keys that are not larger and keys that are larger is insertion into the sorted sequence. |
| `RbShape.PlugRB` | src/rbtree.c:122-336 | A red-black subtree in a fitting place of a red-black tree gives a red-black tree again, with the total black height. |
| `Dag.KeyInjective` | src/opt.cpp:82-87 | Keys of two operations are equal if and only if operator and operand ids are, as long as ids are below 8192. |
| `Dag.KeyCollides` | src/opt.cpp:82-87 | With operand id 8192 two different operations have the same key. |
| `Dag.NewNodeValid` | src/opt.cpp:396-424 | Looking an operation up, or adding it, keeps all invariants of the graph, and the node found applies the operator to the operands. |
| `Dag.SharedIff` | src/opt.cpp:396-432 | A computation gets an existing node if and only if that node applies the same operator to the same operands, where operands may be swapped for `Add` and `Mul` and for nothing else. |
| `Dag.OperandOrder` | src/opt.cpp:391-432 | Only addition and multiplication swap their operands: a node of any other operator has them as they were given, the same operation again gets the same node, and with the operands exchanged another one. |
| `Dag.RootIff` | src/opt.cpp:403-424 | After a segment has been read, the roots are exactly the operators that are not an operand of any node. |
| `Dag.ReadQuadValid` | src/opt.cpp:495-541 | Reading a quadruple keeps the invariants: leaves and table find every node, lists of operator nodes hold exactly the variables at that node, and every operand has a parent. |
| `Dag.ReadSound` | src/opt.cpp:495-541 | After a segment has been read, the node of every variable denotes the value that running the segment gives it; variables without a node are unchanged. |
| `Dag.ReadAllOrdered` | src/opt.cpp:396-401 | The left operand of every addition and multiplication has the smaller address, which is what sharing relies on. |
| `Dag.ShortFits` | src/opt.cpp:82-87 | A segment makes at most three nodes per quadruple, so short segments never exceed the number of ids. |
| `DagEmit.GenNodeOk` | src/opt.cpp:249-324 | Emitting the code of a node, and of the operands that have none yet, keeps this: every node computed so far is held, folded or not, by a variable beyond those of the program with the value its code computes, and every variable of the program has the value of the last node whose list was copied to it. |
| `DagOrder.EmissionFollows` | src/opt.cpp:326-375 | Lists are copied in the order read off the graph: operands before operators in the order of the roots, and the input leaves at the end. |
| `DagOrder.CopyOrderOnce` | src/opt.cpp:249-375 | In that order every node occurs exactly once, and every operator after its operands. |
| `DagOrder.EmissionApart` | src/opt.cpp:183-247 | No two nodes are computed into the same variable. |
| `DagOrder.FailsIff` | src/opt.cpp:212-247 | A division by zero is reported if and only if the graph contains a `Div` or `Mod` whose operands have become constants of one type, the right one 0 or 0.0; no other operator is ever reported. |
| `DagEmit.FoldedComputed` | src/opt.cpp:212-247 | A node that is folded has the value its code would compute without folding, where a division of constants by zero counts as the constant one. |
| `DagEmit.ComputedDenotes` | src/opt.cpp:212-247 | Without such a division the code of every node computes what the node denotes. |
| `DagEmit.FoldedValue` | src/opt.cpp:212-247 | Given that integer and double folding agree with the machine operator by operator, a folded argument evaluates to what the machine computes from the two constants; only a division or remainder by zero is excepted. |
| `Arithmetic.Arithmetic32` | src/opt.cpp:212-247 | A machine with 32-bit integers that wrap around and division that rounds towards zero, and a compiler that folds in the same way, meet everything that is assumed of arithmetic; on that machine no other operator than addition and multiplication commutes. |
| `Arithmetic.Preserved32` | src/opt.cpp:495-581 | On such a machine blocks are preserved without further assumptions on arithmetic. |
| `DagEmit.CopiesRun` | src/opt.cpp:183-210 | Copying a list sets exactly the listed variables, except the variable of an input leaf. |
| `DagEmit.OperatorsDone` | src/opt.cpp:138-155 | Every operator node is reached from the roots. |
| `DagEmit.EmissionRuns` | src/opt.cpp:326-375 | The code of a graph, for any order of roots and constants, has no effects, computes every node, and leaves in each variable the value of the last node whose list was copied to it, also if constants are divided by zero. |
| `DagCode.EmissionCode` | src/opt.cpp:183-375 | What the code of a graph looks like: every node is computed by exactly one quadruple into a variable that is assigned nowhere else, from the variables of its operands in their order, or by copying the constant it is folded to if both operands are known; everything else copies a node to a variable of its list. |
| `DagCode.SegmentCode` | src/opt.cpp:183-432 | The code of a segment has this form, and does no operation twice: no two quadruples apply the same operator to the same variables, also not with the operands of an addition or multiplication exchanged. |
| `DagCode.FirstSegment` | src/opt.cpp:495-581 | A block is rewritten segment by segment: the longest run of copies, additions, subtractions, multiplications, divisions and remainders is replaced by the code of its graph, the quadruple behind it stays, and the rest of the block is rewritten in the same way. |
| `DagCode.LastSegment` | src/opt.cpp:566-581 | A run of such quadruples at the end of a block is replaced by the code of its graph. |
| `DagEmit.LastIsCurrent` | src/opt.cpp:183-210 | If no variable is left on the list of a leaf that is no longer its value, the last list copied to a variable is that of its node. |
| `DagEmit.FinalIsCurrent` | src/opt.cpp:183-210 | If moreover no constant is divided by zero, the variable ends with the value of its node. |
| `DagBlock.SegmentIff` | src/opt.cpp:495-581 | For every segment, machine and state: the rewritten segment has the same effects, and a variable ends as the segment leaves it if and only if what the code copies to it last has the value of its node; all do if the lists of leaves are clean and no constant is divided by zero. |
| `DagExact.SegmentExact` | src/opt.cpp:495-581 | For every segment: the rewritten segment does the same as the segment on every machine and in every state if and only if, for each variable, what the code copies to it last has the same label as its node. Labels and the order of copies are read off the graph; the code of a node that divides a constant by zero has the label of the constant one. |
| `DagLabels.CleanMatches` | src/opt.cpp:183-247 | Labels match if the lists of leaves are clean and no constant is divided by zero. |
| `DagLabels.SameLabel` | src/opt.cpp:249-324 | Without such a division, the code of a node has the label of the node. |
| `DagLabels.EqualLabels` | src/opt.cpp:249-324 | Nodes with equal labels, which takes folding and commuted operands into account, have equal values on every machine. |
| `DagLabels.DenoteGeneric` | src/opt.cpp:249-324 | There is a machine, and values of variables, for which the value of every node is its label, so different labels can be told apart. |
| `DagBlock.CopiesStandClean` | src/opt.cpp:443-448 | The lists of leaves are clean if no variable assigned by a copy is assigned again in the segment. |
| `DagBlock.RewritePreserves` | src/opt.cpp:495-581 | If labels match at the end of every segment, rewriting a block segment by segment preserves its effects and the values of all variables of the program, whatever the new variables hold. |
| `DagBlock.BlockPreserved` | src/opt.cpp:495-581 | The same from the start of a block, under a condition on the graphs of its segments alone. |
| `DagBlock.StandingMatches` | src/opt.cpp:443-448 | The condition holds if no segment assigns a copied variable again or divides a constant by zero. |
| `DagBlock.SegmentsStandIff` | src/opt.cpp:443-448 | No segment assigns a copied variable again if and only if between a copy to a variable and every later assignment to it there is a quadruple that is neither a copy nor arithmetic. |
| `DagBlock.ShortRoom` | src/opt.cpp:82-87 | Blocks of up to 2730 quadruples never exceed the number of ids. |
| `DagBlock.RewriteFailsIff` | src/opt.cpp:212-247 | An error is reported for a block if and only if some segment of it contains such a division or remainder. |
| `ZeroQuotients.ZeroDivisionGives` | src/opt.cpp:223-240 | A variable whose node divides a constant by zero ends with the constant one. |
| `ZeroQuotients.ZeroQuotientLost` | src/opt.cpp:223-240 | `t := 1; u := 0; x := t / u` is reported and compiled, and leaves one in `x` instead of what the machine computes. |
| `ZeroQuotients.DivisionFree` | src/opt.cpp:212-247 | A block without division and remainder is never reported, whatever zeros it multiplies with or subtracts, and is preserved if no copied variable is assigned again in its segment. |
| `DagBlock.StaleInputWins` | src/opt.cpp:366-373 | A variable on the list of the last input leaf ends with that input, whatever it was assigned later. |
| `DagBlock.CopyThenConstantLost` | src/opt.cpp:443-448 | `x := a; x := 3` ends with `a` in `x`. |
| `GraphOpt.Optimizer.FindNode` | src/opt.cpp:450-493 | Finds or makes the leaf of a constant or the node of a variable; equal to `Dag.GetNode`. |
| `GraphOpt.Optimizer.FindOperation` | src/opt.cpp:396-432 | Makes a node, searches the table and releases the node if it is there already; equal to `Dag.NewNode`. |
| `GraphOpt.Optimizer.RemoveVariable` | src/opt.cpp:443-448 | Erases the first occurrence from the list of an operator node and leaves leaves alone. |
| `GraphOpt.Optimizer.ReadQuadr` | src/opt.cpp:495-541 | Equal to `Dag.ReadQuad`, with the node of the result looked up before the operands as in the program. |
| `GraphOpt.Optimizer.UpdateNodeVars` | src/opt.cpp:183-210 | Appends the copies to the variables of a list; equal to `DagEmit.Update`. |
| `GraphOpt.Optimizer.NodeCode` | src/opt.cpp:249-324 | Emits the code of a node after that of its operands; equal to `DagEmit.GenNode`. |
| `GraphOpt.Optimizer.CodeFromGraph` | src/opt.cpp:326-375 | Emits a whole graph; equal to `DagEmit.Emission`. |
| `GraphOpt.Optimizer.OptimizeLocal` | src/opt.cpp:495-581 | Scans a block and flushes at every other quadruple; equal to `DagBlock.Rewrite`, about which `DagBlock.RewritePreserves` is proved. |
| `CopyPasses.SweepPreserves` | src/opt.cpp:603-641 | Dead-assignment removal keeps every variable, all effects and their order if and only if the block needs the result of every call in it: it is not assigned again before a use that is itself needed. |
| `CopyPasses.UnneededSwept` | src/opt.cpp:603-641 | The variables the removal ends up treating as overwritten are those of which the original block needs no value. |
| `CopyPasses.SettledSweep` | src/opt.cpp:603-641 | A block without an assignment that is overwritten unread is left alone. |
| `CopyPasses.SweepSettled` | src/opt.cpp:603-641 | After the removal, no remaining assignment is overwritten later in the block without an intervening read. |
| `CopyPasses.ForwardPreserves` | src/opt.cpp:687-723 | Forward propagation of a copy preserves the run of the rest of the block. |
| `CopyPasses.ForwardRenames` | src/opt.cpp:687-723 | Uses of the copied variable are renamed up to and including the quadruple that stops the propagation, and nothing behind it changes. |
| `CopyPasses.BackwardExchanges` | src/opt.cpp:660-685 | Backward propagation exchanges the roles of the two variables in the part before the copy. |
| `CopyPasses.BackwardRenames` | src/opt.cpp:643-685 | Backward propagation renames exactly from the definition of the source onwards. |
| `CopyPasses.BackStepPreserves` | src/opt.cpp:725-753 | One backward step, with the exchanged copy, preserves the whole block. |
| `CopyPasses.ForwardStepPreserves` | src/opt.cpp:755-773 | One forward step preserves the whole block. |
| `CopyPasses.OptimizedPreserves` | src/opt.cpp:775-820 | All four passes together preserve the final state and the trace if and only if the original block needs the result of every call in it. |
| `CopyPasses.LostCallShows` | src/opt.cpp:603-641 | If it does not, the optimised block has fewer effects. |
| `CopyPasses.BlockPreserved` | src/opt.cpp:775-820 | The same for a block as a list of quadruples. |
| `CopyPasses.OverwrittenCallIsLost` | src/opt.cpp:603-641 | A block whose call is removed, so that its trace changes. |
| `PassResults.PruneAllIs` | src/opt.cpp:585-601 | The entries that copy a variable to itself are gone, and all others are as they were. |
| `PassResults.SweepIs` | src/opt.cpp:603-641 | An entry is gone if and only if it assigns a variable that is assigned again behind it, in what is left of the table, and not used before or there. |
| `PassResults.SweepOnly` | src/opt.cpp:603-641 | There is only one such table, so that the order in which the rounds remove entries does not matter. |
| `PassResults.ForwardStepIs` | src/opt.cpp:687-773 | Entry by entry, what one step of forward propagation leaves behind a copy `v0 := v1`: `v1` in place of `v0`, without entries that have become copies of a variable to itself, up to the first entry that gives one of the two another value, where only the arguments are renamed, and nothing changed behind it. |
| `PassResults.ForwardAllRuns` | src/opt.cpp:755-773 | The pass takes that step at every entry, from the first to the last. |
| `PassResults.StepUnused` | src/opt.cpp:687-773 | After the step at a copy `v0 := v1`, `v0` is not used up to and including the next assignment to one of the two variables. |
| `PassResults.CopiesUnused` | src/opt.cpp:755-773 | At the end of the pass, behind every remaining copy `v0 := v1`, `v0` is not used up to and including the first entry that assigned one of the two variables before the pass; entries that remain assign what they assigned. |
| `PassResults.CopiesUnusedIff` | src/opt.cpp:755-773 | Counting only the assignments that remain, this holds behind a copy if and only if the entry at which its propagation ended is still there, or `v0` is not used behind it either. |
| `PassResults.RemovedBetween` | src/opt.cpp:755-773 | `y := x; w := x; x := w; z := y + 1`, where that entry is removed by the step at the second copy and the last one still uses `y`. |
| `PassResults.BackStepIs` | src/opt.cpp:643-753 | A copy `v0 := v1` is turned around if and only if, going backwards, `v1` is assigned before `v0` is used or assigned: then that assignment goes to `v0`, `v0` takes the place of `v1` between there and the copy, and forward propagation of `v1 := v0` follows. Otherwise nothing changes but a copy of a variable to itself. |
| `PassResults.BackAllRuns` | src/opt.cpp:725-753 | The pass takes that step at every entry, from the last to the first. |
| `PassResults.OptimizedIs` | src/opt.cpp:775-820 | The four passes are run one after the other, each with its result as described entry by entry. |
| `PassResults.NoSelfCopies` | src/opt.cpp:585-601 | In the end no variable is copied to itself. |
| `LocalOpt.RemoveRedundantCopies` | src/opt.cpp:596-601 | In place: every copy of a variable to itself is removed; equal to `CopyPasses.PruneAll`. |
| `LocalOpt.RemoveDeadAssignments` | src/opt.cpp:603-641 | In place, repeated until nothing changes: ends with `CopyPasses.Sweep` of the array, and terminates because every round removes an entry. |
| `LocalOpt.CanBackpropagateFrom` | src/opt.cpp:643-658 | Scans backwards; equal to `CopyPasses.CanBackpropagate`. |
| `LocalOpt.PropagateBackwards` | src/opt.cpp:660-685 | In place; equal to `CopyPasses.Backward` on the part before the copy. |
| `LocalOpt.PropagateForwards` | src/opt.cpp:687-723 | In place; equal to `CopyPasses.Forward` on the part behind the copy. |
| `LocalOpt.CopyBackpropagation` | src/opt.cpp:725-753 | In place; equal to all backward steps, about which `PassResults.BackAllRuns` is proved. |
| `LocalOpt.CopyPropagation` | src/opt.cpp:755-773 | In place; equal to all forward steps, about which `PassResults.ForwardAllRuns` and `PassResults.CopiesUnused` are proved. |
| `LocalOpt.OptimizeBlock` | src/opt.cpp:775-820 | The passes in order, from list to table and back; equal to `CopyPasses.Optimized`. |
| `LocalPasses.LocalPreserved` | src/opt.cpp:824-836 | If labels match at the end of every segment of a block, both groups of passes, run one after the other, preserve its effects and all earlier variables on every machine and in every state if and only if no call has a result that the block overwrites before it uses it; a use by arithmetic or a copy always counts, one by another assignment only if that is not overwritten itself. |
| `LocalPasses.StandingPreserved` | src/opt.cpp:824-836 | The same for blocks whose segments neither assign a copied variable again nor divide a constant by zero. |
| `LocalPasses.RewriteMatches` | src/opt.cpp:824-836 | The rewritten block needs the results of exactly the calls the block itself needs, as the second group of passes sees it. |
| `LocalPasses.SegmentBefore` | src/opt.cpp:326-375 | The code of a segment overwrites a variable before using it if and only if the segment does. |
| `LocalPasses.PerformLocalOptimizations` | src/opt.cpp:824-836 | Runs both groups on every block: each result is that of the two functions about which `LocalPasses.LocalPreserved` is proved, no two blocks share new variables, and an error is reported if and only if one is for some block. |
| `Liveness.Analysis.ComputeLiveDefUse` | src/flow.c:157-224 | Afterwards the block records exactly its upward-exposed uses, each with the index of its first use, and exactly the variables killed in it. |
| `Liveness.Analysis.UpdateLive` | src/flow.c:72-88 | During the backward scan a use is recorded with its index, replacing what was recorded, and cancels a kill. |
| `Liveness.Analysis.ComputeInOut` | src/flow.c:100-136 | A block absorbs a successor's variables: the result is `Liveness.Merge`, and the flag is set if and only if something was added. |
| `Liveness.Analysis.DoLiveness` | src/flow.c:142-155 | One sweep, started at a block not visited yet: sets only grow, the flag is set only if something was added, and if it stays clear all blocks visited since have absorbed their successors; blocks are left in the depth-first order, and every block left holds exactly what `Sweeps.RecordedBy` says for this sweep. |
| `Liveness.Analysis.Analyze` | src/flow.c:266-295 | Terminates, and then for every block reachable from the entry the variables recorded at its start are precisely those with a definition-free path to a use, and those at its end precisely the live ones of its successors. Every recorded distance is that of the first use in the block, or the distance at the child that counts plus the length of the block. All recorded distances are those of the nearest uses if and only if, wherever a variable passes through a block, no child has a nearer use than the child that counts: the first one in the sweep that brings the variable to the block first. Which child that is, is read off the graph. |
| `Distances.NearestIff` | src/flow.c:100-136 | The equivalence itself, on all graphs, for what the analysis leaves behind. |
| `NoCycles.AcyclicIff` | src/flow.c:100-155 | On graphs without cycles the condition is that the first child of a block is never farther than the second from the next use of a variable that passes through the block. |
| `NoCycles.CountedIsFirstLive` | src/flow.c:142-155 | On graphs without cycles one sweep records everything, and the child that counts is the first one at which the variable is live. |
| `NoCycles.FartherIsRecorded` | src/flow.c:100-136 | A graph of three blocks on which the analysis records two for a use that is one quadruple away. |
| `Liveness.CombineStage` | src/flow.c:142-155 | Absorbing first one child and then the other leaves at a block exactly the variables it has after the current sweep, each new one with the distance of the child that counts. |
| `Sweeps.RecordedStays` | src/flow.c:90-99 | What is recorded after a sweep is recorded after all later ones. |
| `Liveness.AbsorbSound` | src/flow.c:100-136 | Absorbing a successor keeps every recorded distance the length of a path to a use. |
| `Liveness.Analysis.LiveAtEnd` | src/flow.c:226-264 | Lists the variables live at the end of a block, each once. |
| `Liveness.FixpointExact` | src/flow.c:142-155 | A state in which every block has absorbed its successors, and recorded only live variables, is exact. |
| `Liveness.PathRecorded` | src/flow.c:100-136 | Along a definition-free path to a use, every block records the variable once nothing changes any more. |
| `Flow.TouchedFirst` | src/flow.c:157-224 | A variable is exposed, or killed, or never assigned in a block, and never both exposed and killed. |
| `Flow.LiveEquation` | src/flow.c:100-136 | The path definition satisfies the flow equation. |
| `Liveness.CreateBlockGraph` | src/flow.c:299-338 | The children of a block are exactly the blocks control can reach next; the target of a jump is the first child, and only conditional jumps have a second one, the next block. |
| `Blocks.AddBlocksLater` | src/quadr.c:856-894 | Placing blocks keeps the list well linked, keeps the quadruples and links before the current block, and places exactly the given label. |
| `Blocks.RefLabelLater` | src/quadr.c:229-247 | Referring to a label keeps the list well linked; the block chosen is a marked member of the label's chain. |
| `Blocks.LabelStays` | src/quadr.c:229-247 | A target of a label stays one in every later state in which the label has not been placed. |
| `BlockRun.AddBlocksFalls` | src/quadr.c:856-894 | Placing blocks behind code that falls through is not noticed by a run, with or without an inserted empty block, and also if the current block is dropped. |
| `BlockRun.AddBlocksLands` | src/quadr.c:856-894 | A jump to any marked block of a label's chain arrives where the code of the label begins. |
| `JumpCode.IfOpMeaning` | src/quadr.c:249-286 | The chosen conditional jump is taken if and only if the comparison has the wanted outcome. |
| `JumpRuns.ExprRuns` | src/quadr.c:411-520 | For every expression, machine and state, the code of an expression falls through with the value of left-to-right short-circuit evaluation in its result, the trace of that evaluation, and all earlier variables unchanged. |
| `JumpRuns.BoolRuns` | src/quadr.c:522-621 | The code of a condition jumps to a target of the destination exactly when the condition has the wanted value, and falls through otherwise, with the trace of short-circuit evaluation and earlier variables unchanged. |
| `JumpRuns.CallRuns` | src/quadr.c:367-408 | All arguments are evaluated first, then the parameters are passed last to first, and then the call is made. |
| `JumpRuns.PlaceLands` | src/quadr.c:856-894 | A jump made to a label ends at the code placed at the label later. |
| `JumpRuns.EvalSame` | src/quadr.c:411-621 | Evaluation depends on declared variables only. |
| `Begins.ExprBegan` | src/quadr.c:411-520 | Whether the code of an expression emits a quadruple first, places a block first or does nothing is as `Begins.ExprStart` says. |
| `Begins.BoolBegan` | src/quadr.c:522-621 | The same for conditions and `Begins.BoolStart`. |
| `StatementRuns.StmtRuns` | src/tree.c:940-1050 | For every statement whose loop bodies begin with a quadruple, and every terminating execution, the code does what the statement means: same values of all declared variables, same trace, falling through or stopping at a return of the same value. |
| `StatementRuns.BumpRuns` | src/quadr.c:655-666 | `x++` leaves `x + 1` in `x` and `x--` leaves `x - 1`, with the integer or the double one. |
| `JumpRuns.NegRuns` | src/quadr.c:492-502 | Minus subtracts from the integer or the double zero. |
| `StatementRuns.FunctionRuns` | src/tree.c:1076-1110 | A function started in its first block reaches a return of the value its body means, with the same effects; a return without value is added unless every way through the body ends in a return. |
| `StatementRuns.ReturnsAlways` | src/tree.c:800-845 | A body that passes the check for return statements never runs off its end. |
| `StatementRuns.WasReturnIff` | src/tree.c:798-1075 | The check for return statements accepts a body if and only if every way through it ends in a return, whatever its conditions turn out to be one after the other. |
| `StatementRuns.ReturnAdded` | src/tree.c:1106-1118 | A return without value is added to the code of a body exactly when there is a way through it without one. |
| `StatementRuns.LoopRuns` | src/tree.c:993-1050 | The code of a loop runs its body as often as the condition holds. |
| `StatementRuns.LoopHeadKept` | src/quadr.c:876-885 | The block a loop's condition jumps to exists after the body if and only if the body begins with a quadruple. |
| `StatementRuns.LoopHeadLost` | src/quadr.c:876-885 | It is gone in `while (e) ;` and in loops whose body is `if (true) ...`. |
| `StatementRuns.LoopsBeginIff` | src/quadr.c:876-885 | The programs the results are about are those in which the body of every loop inside begins with a quadruple. |
| `StatementRuns.LoopAllowedIff` | src/quadr.c:876-885 | A loop is one of them if and only if the block its condition jumps to exists. |
| `SoleTargets.BoolTidy` | src/quadr.c:229-247 | Translating a condition keeps this invariant: apart from blocks that had code before, no block is the target of two jumps, a block that was a target gets no further jump, and every conditional jump falls into an empty block of its own. |
| `SoleTargets.ExprTidy` | src/quadr.c:411-520 | The same for expressions. |
| `SoleTargets.StartSole` | src/quadr.c:923-930 | The invariant holds at the start of a function. |
| `StatementTargets.StmtTidy` | src/tree.c:940-1050 | For every statement whose loop bodies begin with a quadruple: the code keeps this invariant, where only the first blocks of its loop bodies join the blocks that may be the target of several jumps. |
| `StatementTargets.FunctionTidy` | src/tree.c:1076-1110 | In the code of a function, all other blocks are the target of at most one jump, and every conditional jump falls into an empty block that nothing jumps to. |
| `GeneratorModel.Generator.QuadrArgLabel` | src/quadr.c:229-247 | Marks the label, or splits it and gives the new block; equal to `JumpCode.JumpTo`. |
| `GeneratorModel.Generator.AddQuadr` | src/quadr.c:762-776 | Appends to the current block. |
| `GeneratorModel.Generator.AddBasicBlocks` | src/quadr.c:856-894 | Links the blocks, inserts an empty block after a conditional jump, drops an empty unreferenced block, and walks to the last block; equal to `Blocks.AddBlocks`. |
| `GeneratorModel.Generator.GotoBlock` | src/quadr.c:711-719 | Equal to `JumpCode.GenGoto`. |
| `GeneratorModel.Generator.Expression` | src/quadr.c:411-520 | Equal to `JumpCode.GenExpr`, about which `JumpRuns.ExprRuns` is proved. |
| `GeneratorModel.Generator.Condition` | src/quadr.c:522-621 | Equal to `JumpCode.GenBool`, about which `JumpRuns.BoolRuns` is proved. |
| `GeneratorModel.Generator.CallFunction` | src/quadr.c:367-408 | Builds the list of parameters in reverse and then emits it; equal to `JumpCode.GenCall`. |
| `GeneratorModel.Generator.Statement` | src/tree.c:940-1050 | Equal to `Statements.GenStmt`, about which `StatementRuns.StmtRuns` is proved. |
| `GeneratorModel.Generator.WhileStatement` | src/tree.c:993-1020 | Equal to `Statements.GenWhile`. |
| `GeneratorModel.Generator.FunctionBody` | src/tree.c:1076-1110 | Equal to `Statements.GenFunction`. |
| `GeneratorModel.Generator.Increment` | src/quadr.c:655-690 | Equal to `Statements.GenBump`. |
| `LiveMarks.BackwardIsLiveness` | src/gencode.c:855-882 | The backward step turns the variables live after a quadruple into those live before it. |
| `LiveMarks.UndoIff` | src/gencode.c:855-924 | Undoing the marks of a quadruple gives back the variables live after it if and only if it does not read and assign a variable that is dead afterwards. |
| `LiveMarks.ReplayIff` | src/gencode.c:850-924 | Over a block, the flags are right at every quadruple if and only if no quadruple reads and assigns a variable that is dead afterwards. |
| `LiveMarks.DeadIncrement` | src/gencode.c:850-924 | For `x := x + 1` with `x` dead at the end, the forward pass shows `x` live behind it. |
| `LiveMarks.Flags.ComputeMarks` | src/gencode.c:850-882 | The backward pass in place: the marks are those of every quadruple's live-after set, and the flags end as the variables live at the start. |
| `LiveMarks.Flags.Replay` | src/gencode.c:891-940 | The forward pass in place: the flags seen at every quadruple are its live-after set, and in the end those live at the end of the block. |
| `Registers.Tracker.FreeReg` | src/gencode.c:1492-1503 | The register is emptied; every live variable that was in it keeps or gets another allowed location holding its value; other variables keep their locations, registers in use keep their variables, both directions of the descriptors agree, and the blacklist is as before. The recursion through saving and allocating ends. |
| `Registers.Tracker.AllocReg` | src/gencode.c:1395-1413 | Gives an allowed register, emptied without losing a live variable: a free one if there is one, and then nothing else changes, or else the one `ChooseReg` picks. |
| `Registers.Tracker.SaveVar` | src/gencode.c:1221-1299 | A variable that still has a location gets an allowed one other than the register being emptied, by a move from the best location it has. It is a register exactly when some are free and the next use is near enough for their number; otherwise a slot the variable is in, or a new slot if it is in none. Nothing else changes. |
| `Registers.Tracker.ShouldSave` | src/gencode.c:1415-1426 | A variable has to be saved if and only if it is live and has no other allowed location. |
| `Registers.Tracker.EvictOne` | src/gencode.c:1492-1503 | One variable leaves the register. If it is live and has no other allowed location, the generated move copies it from a location it still has before the register is given up, so that a live variable that was safe stays safe. |
| `Registers.Tracker.ChooseReg` | src/gencode.c:2278-2376 | The lowest free allowed register if there is one. Otherwise the first allowed register whose variables are all in other registers as well, and if there is none, the first one with the largest average distance to the next uses of those variables that are in it alone. |
| `Registers.Tracker.PickVictim` | src/gencode.c:2344-2376 | The second half of that, by one scan of the registers. |
| `Registers.BestSource` | src/gencode.c:2424-2452 | The location a variable is copied from is a register if it has one, or else a constant if it has one. |
| `Registers.CountOne` | src/gencode.c:2352-2361 | A variable counts for a register exactly when it is in one register only. |
| `Registers.Tracker.StackInsertNew` | src/gencode.c:302-344 | The first free slot that is large enough holds the variable, or a new one of exactly its size at the end of the frame if there is none; slots of locals stay adjacent, those of parameters stay below them, and the largest frame size is kept up to date. |
| `Registers.Tracker.StackInsert` | src/gencode.c:346-370 | One more variable in a slot, which stays large enough, unless it is there already. |
| `Registers.Tracker.StackErase` | src/gencode.c:284-300 | A variable leaves a slot, and the first free slot is still the lowest one. |
| `Registers.EraseFirstTakes` | src/gencode.c:284-300 | The first occurrence of a variable leaves the list of a slot, and the others stay in order. |
| `Frame.SlotsOrdered` | src/i386_backend.c:142-146 | In a frame of slots at increasing offsets, parameters below zero and locals from zero on without gaps, different slots do not overlap. |
| `Frame.AddressesSound` | src/outbuf.c:180-223 | The addresses emitted for two slots of a frame are disjoint ranges of bytes; those of locals lie within the frame, and those of parameters lie beyond the frame and the return address. |
| `Registers.Tracker.SlotAddresses` | src/outbuf.c:180-223 | The same for every frame that allocation has built. |
| `Registers.Tracker.StackParam` | src/gencode.c:2035-2058 | A parameter passed on the stack gets a slot that holds it, put at its place by offset among the slots there are; the frame stays in order. |
| `Registers.Tracker.StartFunc` | src/i386_backend.c:199-229 | Where every parameter is at the start of a function, and nowhere else: an integer with `c` integers before it in register `c` while registers last; all others in slots of their own whose offsets are minus four, minus the sizes of the stack parameters before, minus their own size. Each holds its argument, and the result is the sum of the sizes on the stack. |
| `Registers.Tracker.ParamAddress` | src/i386_backend.c:142-146 | The address of a stack parameter is the frame size plus four plus the sizes of the stack parameters before it. |
| `RbShape.InsertAsSet` | src/rbtree.c:527-563 | While keys are distinct, inserting an absent key keeps them distinct and adds it to the set of keys, which is how liveness and the graph use trees. |
| `RbShape.RemoveAsSet` | src/rbtree.c:566-596 | While keys are distinct, deletion keeps them distinct and takes the key out of the set of keys. |
| `PoolModel.Pool.Palloc` | src/mem.c:63-84 | The cell returned was not in use, and exactly it has come into use; free cells stay linked, the list of chunks holds exactly those with a free cell, and its first chunk has one. The pool grows only when the last free cell is taken, by a chunk with two cells for every byte of the chunk before. |
| `PoolModel.Pool.Pfree` | src/mem.c:86-107 | Exactly the given cell goes out of use; a chunk that was full joins the list of chunks with free cells. |
| `PoolModel.Pool.Store` | src/mem.c:8-9 | What the program stores in a cell in use affects neither the lists nor which cells are in use. |
| `PoolModel.Pool.MakeFreeList` | src/mem.c:12-22 | The cells of a new chunk are linked in order, the last one to none; other memory is kept. |
| `PoolModel.Pool.FindChunk` | src/mem.c:88-97 | The chunk found by address is the one the cell belongs to, wherever chunks lie in memory. |
| `PoolModel.MovedLive` | src/mem.c:63-107 | Taking a cell from, or putting it on, the list of a chunk changes the use of that cell and of no other. |
| `PoolModel.OneChunk` | src/mem.c:24-35 | A cell belongs to one chunk only, wherever chunks lie in memory. |

## Left out

- The instructions both back ends emit, the floating-point register stack, swapping of locations, permanent locations, agreement of locations between blocks, and saving of registers in prologues; addresses are those of stack slots only (`Frame.Address`).
- The string table and bulk allocation of `src/mem.c`, alignment of cells, and the release of whole pools. Where the system places a new chunk is a parameter (`PoolModel.Places`).
- The first of the two loops of `do_bellady_ra`, whose result is used in an assertion only; assertions of the program are not modelled as stops.
- How distances to next uses are looked up: they are a parameter of `Registers.Tracker`, because the program looks up one successor twice when it computes them across the end of a block.
- The lexer, the grammar, scopes and type checking of `src/tree.c` and `src/types.c`; typed syntax trees are the input of the model (`JumpCode.Typed`, `Statements.TypedStmt`).
- Arrays and pointers: the passes treat reads and writes through pointers as loads and effects, and the translation of array expressions and array assignments is left out.
- Declarations inside statements: a variable is a number below the next free one when the statement is translated.
- Programs that do not terminate: `Execute` gives no result for them and the theorems say nothing.
- Floating-point rounding, NaN and signed zero: doubles are real numbers, and comparison is a three-way function.
- Machine integers: arithmetic is an arbitrary function of the machine, so wrap-around is whatever the machine does; constants are unbounded.
- Memory: allocation does not fail, released nodes, blocks and quadruples are simply no longer referred to.
- Linked lists of quadruples and of variables are sequences, and linked basic blocks are a map from block numbers to blocks whose links are numbers; aliasing of list cells is not modelled.
- The trees that `src/flow.c` and `src/opt.cpp` use for sets and tables are sets and maps there; the tree itself is modelled in `RbTree`.
- `rb_copy`, `rb_minimum`, `rb_size` and `rb_for_each`: copying allocates nodes of the wrong size and loses the black height; the others only read.
- The visited marks of the sweep are a set; the counter that wraps around in the program is not modelled.
- Subtree sizes, types of new variables and source positions in the graph, which do not influence the code.
- The order in which the table lists roots and in which constants are listed is arbitrary in `DagBlock`, which is more than the program allows itself.
- Keys of the graph are sums of shifted ids; from id 8192 on the program combines them with a bitwise or, which `Dag.KeyCollides` still covers.
- StatementRuns.StmtRuns: excludes loops whose body does not begin with a quadruple, because the program then uses a released block; `StatementRuns.LoopHeadKept` says exactly which these are.
- JumpRuns.ExprRuns: leaves out array references of `gen_quadr_expr`.
- GeneratorModel.Generator.Expression: leaves out array references.
- GeneratorModel.Generator.Increment: leaves out increments of array elements.
- GeneratorModel.Generator.Statement: leaves out array assignments and declarations, and loops whose body does not begin with a quadruple, whose condition jumps to a released block.
- GeneratorModel.Generator.WhileStatement: leaves out bodies that do not begin with a quadruple, for the same reason.
- GeneratorModel.Generator.FunctionBody: leaves out the same loops, and functions with a result type whose body fails the check for return statements, because the program rejects them with an error.
- DagEmit.FoldedValue: that the arithmetic of the compiler agrees with that of the machine is assumed; the program relies on it too.
- DagBlock.BlockPreserved: labels that match at the end of every segment are sufficient for a block and not necessary, because a later segment can overwrite a wrong value unread; for each segment they are exact (`DagExact.SegmentExact`).
- LocalPasses.LocalPreserved: has the same condition on the graphs of segments; given it, the condition on calls is exact.
- StatementRuns.FunctionRuns: leaves out functions with loops whose body does not begin with a quadruple, as `StatementRuns.StmtRuns` does.
- StatementTargets.StmtTidy: leaves out the same loops.
- StatementTargets.FunctionTidy: leaves out the same loops.
