# Verified models of a systems course repository

The repository holds operating-system lab programs, a small shell called Quash, and the sources of bash 4.2.
This Dafny project models the parts of it whose correctness is least obvious and proves what they are for.
`dafny verify dfyconfig.toml` checks everything.

**The bounded buffer (Lab07)** — `RingQueue`, `BoundedBuffer`, `BoundedBufferSafety`, `BoundedBufferTheorems`,
`BoundedBufferWitness`. Any number of producers and consumers share a ring, a mutex and two counting semaphores.
Every semaphore operation, unlocked read, lock, statement under the lock and unlock is a step of its own, and any
thread may move at any time; ring size, work limit and thread counts are parameters. The program reads its limits
outside the mutex and lets leaving threads post both semaphores, so the textbook argument does not apply. Proved
for every run: exclusion, token conservation, bounds on the totals, absence of overflow, order of items, finiteness,
and completion; and that no item is ever overwritten before it is removed, even after removals from an empty ring. Two
properties one would expect are false in general; each has the exact condition under which it holds, with a
constructed run for every parameter choice outside it (`StuckIff`, `UnderflowIff`).

**The dining philosophers (Lab06)** — `Philosophers`. Exclusion of neighbours, freedom from deadlock and clean
shutdown for every table of two or more and every interleaving.

**Brace words (bash)** — `BraceScan`, `BraceExpansion`, `BraceWords`, `BracePrinter`, `BraceRoundTrip`,
`BraceSequence`. The expander computes the ordered cross product of every nested word. Completion prints a sorted
list of file names as one nested brace word; expanding that word gives the names back, for arbitrary names once
quotes are removed, and exactly for names that need no quoting. The loops of the program (scanner, expander,
printer, number sequences) are methods proved against the functions these theorems are about.

**Arithmetic evaluation (bash)** — `ExprMachine`, `ExprTrees`, `ExprCorrect`, `ExprAssignment`, `ExprEvaluator`. The
evaluator's productions over global token state, as a class whose methods update that state, are proved equal to
`Prod` and its loops; and for every expression tree, evaluating its printed tokens gives the tree's value and final
variables, or the same error. The assignments, short circuits and peeks are those of the code. Because the code
recognises an assignment only after the operand in front of it has been read, it accepts `x + y = v` without
parentheses. `ChainEvaluates` gives its answer for every chain of operands and assignment operators with a right side
at the end, `ChainInParens` for such a chain in parentheses anywhere in an expression, and `RejectedIff` says exactly
when a single assignment is answered with the error that a non-variable is assigned to.

**Indexed arrays (bash)** — `ArrayModel`, `ArrayHeap`, `ArrayCursor`, `ArrayRuns`. Circular doubly linked lists
with a sentinel, relinked and renumbered in place, and one global cursor shared by all arrays. Each operation is
proved to act on one list as specified, to keep the links, the count and the largest index exact, to leave other
arrays alone, and to leave the cursor on a live node or nowhere. `Perform` states it for whole runs: the answers
are those of plain maps. Negative subscripts, which callers reject, are covered where the code is defined on them;
`RshiftKeepsOrderIff` gives the exact condition for a right shift.

**Loop control (bash)** — `LoopControl`, `LoopInterpreter`, `LoopLaws`. `Run` gives lists, conditionals and loops
a meaning without counters: a command ends normally or is on its way out of k loops. The interpreter's class, which
only sets, tests and decrements `breaking` and `continuing`, is proved equal to it for every program, a `break` or
`continue` inside a loop test included. There the code departs from its documentation: a `continue` in the test
whose status ends a loop at top level stays set after it, whatever the loop (`EndingTestLeaks`, with `until continue`
and `while ! continue` as instances). `TopLevelIsClearIff` says of every program's run exactly when both counters are
zero at top level, `TopLevelIsClear` gives a condition on the program's text.

**Hash tables (bash)** — `HashString`, `HashChains`, `HashTable`, with `Division`. An array of singly linked lists
changed in place acts as a map from keys to items: search, search with creation, insertion, removal, copying and
flushing are the map operations, and the entry count, on which several early returns depend, is exact.

**Alias expansion (bash)** — `AliasScan`, `AliasExpansion`. The scanning loops stay in bounds and end on every line;
a word is replaced exactly when it is due and an alias, everything else is copied verbatim and in order. A word that
is due need not be in command position: the argument of a quoted command is replaced as well. `InCommandPositionIff`
says exactly when a due word is in command position; on a line without quoting the two are the same.

**Menus (bash)** — `SelectMenu`: every item shown once, no row too wide, and every item printed from the column it
belongs to.

**Pipelines (Quash)** — `PipelineGrouping`, `PipelineWiring`, `PipelineStatement`. When the vectors of commands,
redirection lists and pipes line up, exactly; who holds which end of which pipe after all duplications and closes;
and both together for every statement, those included whose vectors do not line up.

Classes and methods are used where the program updates state or loops; functions and lemmas say what the result
means. `Sums` holds facts about sums over sequences, `CStrings` the reading of a string up to its terminator.

## Model

| member | source | states |
|---|---|---|
| RingQueue.AddEnqueues | Lab07_Johnson_Umeike_3094849/producer_consumer.c:114-145 | Adding to a ring that holds queue q gives a ring that holds q with the item at the end, if and only if q did not fill the ring |
| RingQueue.RemoveDequeues | Lab07_Johnson_Umeike_3094849/producer_consumer.c:147-176 | Removing from a ring that holds a non-empty queue returns its first item and leaves a ring that holds the rest, flags included |
| RingQueue.RemoveFromEmptyCorrupts | Lab07_Johnson_Umeike_3094849/producer_consumer.c:147-176 | Removal is unguarded: from an empty ring with room for two it leaves a ring that holds no queue of any length |
| RingQueue.RepresentsUnique | Lab07_Johnson_Umeike_3094849/producer_consumer.c:51-87 | Head, tail and the two flags determine the queue |
| RingQueue.Queue.constructor | Lab07_Johnson_Umeike_3094849/producer_consumer.c:51-87 | A new ring holds the empty queue, for every capacity above zero |
| RingQueue.Queue.QueueAdd | Lab07_Johnson_Umeike_3094849/producer_consumer.c:114-145 | The in-place update is the specified addition: slot, wrapped tail, both flags |
| RingQueue.Queue.QueueRemove | Lab07_Johnson_Umeike_3094849/producer_consumer.c:147-176 | The in-place update is the specified removal, and the item returned is the one at the old head |
| BoundedBufferSafety.InitInv | Lab07_Johnson_Umeike_3094849/producer_consumer.c:51-87 | The start state satisfies the invariant |
| BoundedBufferSafety.StepInv | Lab07_Johnson_Umeike_3094849/producer_consumer.c:285-413 | Every step of every thread keeps the invariant: mutual exclusion, the two token equations, the limits on the totals, and first-in first-out order while nobody left early |
| BoundedBufferTheorems.TokensConserved | Lab07_Johnson_Umeike_3094849/producer_consumer.c:299-335 | In every reachable state free tokens plus tokens in flight equal the queue size plus the number of threads that left |
| BoundedBufferTheorems.TotalsBounded | Lab07_Johnson_Umeike_3094849/producer_consumer.c:299-335 | Although the limit is read outside the mutex, the totals never pass workMax + min(producers, queueSize) - 1 and workMax + consumers - 1 |
| BoundedBufferTheorems.MutualExclusion | Lab07_Johnson_Umeike_3094849/producer_consumer.c:314-329 | Two threads in the locked section are the same thread |
| BoundedBufferTheorems.RingNeverOverflows | Lab07_Johnson_Umeike_3094849/producer_consumer.c:314-325 | In every run, with any number of threads, a producer about to add carries the next number and finds a free slot: the slot at the tail holds no item that is still to be removed |
| BoundedBufferTheorems.NothingIsLost | Lab07_Johnson_Umeike_3094849/producer_consumer.c:369-408 | In every run, removals from an empty ring included, each item added and not yet removed is in its slot, head and tail have gone round with the removals and additions, and the next removal gives the next number once that has been added |
| BoundedBufferTheorems.ItemsInOrder | Lab07_Johnson_Umeike_3094849/producer_consumer.c:369-408 | Until the first thread leaves, and for ever with one consumer, one slot or no work, the ring holds exactly what was added and not removed and the k-th removal gave item k |
| BoundedBufferTheorems.SingleConsumerTakesAll | Lab07_Johnson_Umeike_3094849/producer_consumer.c:362-413 | A single consumer that has returned took exactly 0 .. workMax - 1 in order |
| BoundedBufferTheorems.SingleFileNeverUnderflows | Lab07_Johnson_Umeike_3094849/producer_consumer.c:390-393 | With one consumer, one slot or no work no removal ever meets an empty ring |
| BoundedBufferTheorems.EveryRunIsFinite | Lab07_Johnson_Umeike_3094849/producer_consumer.c:285-413 | The length of every run, however scheduled, is bounded by a formula in the parameters |
| BoundedBufferTheorems.NeverStuck | Lab07_Johnson_Umeike_3094849/producer_consumer.c:285-336 | With no more consumers than producers (or one slot, or no work) some thread can move while any has not returned, throughout the exit cascade |
| BoundedBufferTheorems.MaximalRunsComplete | Lab07_Johnson_Umeike_3094849/producer_consumer.c:285-413 | A run that cannot be continued has brought every thread home with the work done |
| BoundedBufferWitness.StuckIff | Lab07_Johnson_Umeike_3094849/producer_consumer.c:362-380 | A state where nothing moves and somebody has not returned is reachable if and only if consumers > producers, queueSize >= 2 and workMax >= 1 |
| BoundedBufferWitness.UnderflowIff | Lab07_Johnson_Umeike_3094849/producer_consumer.c:390-393 | A removal from an empty ring is reachable if and only if consumers >= 2, queueSize >= 2 and workMax >= 1 |
| Philosophers.ChopstickShared | Lab06_Johnson_Umeike_3094849/dp_asymmetric.c:59-77 | The four index functions agree: a chopstick lies between exactly two philosophers |
| Philosophers.StepInv | Lab06_Johnson_Umeike_3094849/dp_asymmetric.c:120-184 | Every step keeps: each held chopstick has the holder its program counter says, and no other |
| Philosophers.NeighboursExcluded | Lab06_Johnson_Umeike_3094849/dp_asymmetric.c:142-172 | In every reachable state of every table of two or more, neighbours do not both eat |
| Philosophers.ChainEnds | Lab06_Johnson_Umeike_3094849/dp_asymmetric.c:142-172 | Following who blocks whom ends at a philosopher who can move, because parity turns the chain at every seat |
| Philosophers.DeadlockFree | Lab06_Johnson_Umeike_3094849/dp_asymmetric.c:142-172 | No reachable state with somebody still at the table is deadlocked |
| Philosophers.StopsCleanly | Lab06_Johnson_Umeike_3094849/dp_asymmetric.c:190-220 | Once the flag is raised every continuation has bounded length and a maximal one ends with everybody gone and all chopsticks free |
| BraceScan.BraceGobbler | Lab03_Johnson_Umeike_3094849/bash-4.2/braces.c:482-595 | The level-counting scan loop returns the position and level that the scanning specification gives, in bounds on every string |
| BraceExpansion.BraceExpand | Lab03_Johnson_Umeike_3094849/bash-4.2/braces.c:88-244 | The expander, with its copies of prefix, amble and rest, returns the specified expansion on every string |
| BraceExpansion.ExpandAmbleLoop | Lab03_Johnson_Umeike_3094849/bash-4.2/braces.c:250-301 | The loop over the alternatives of one group returns the specified list |
| BraceExpansion.ArrayConcat | Lab03_Johnson_Umeike_3094849/bash-4.2/braces.c:602-638 | Every string of the first list before every string of the second, in that order |
| BraceWords.ExpansionIsCrossProduct | Lab03_Johnson_Umeike_3094849/bash-4.2/braces.c:88-301 | For every well-formed word the expansion is the ordered cross product of its parts, and its length the product of the group sums |
| BracePrinter.ShBackslashQuote | Lab03_Johnson_Umeike_3094849/bash-4.2/lib/sh/shquote.c:167-217 | The quoting loop puts a backslash before exactly the special characters and before a number sign at the start |
| BracePrinter.StringGcd | Lab03_Johnson_Umeike_3094849/bash-4.2/bracecomp.c:47-63 | The longest common prefix of two strings |
| BracePrinter.ReallyMungeBraces | Lab03_Johnson_Umeike_3094849/bash-4.2/bracecomp.c:65-150 | The recursive printer, which patches the last character of the word it builds, returns the specified nested word; every range it recurses on is strictly smaller |
| BraceRoundTrip.SortedIsConvex | Lab03_Johnson_Umeike_3094849/bash-4.2/bracecomp.c:152-185 | In a list sorted by the comparison used, whatever shares a prefix with both ends of a range shares it throughout |
| BraceRoundTrip.QuoteFromInverse | Lab03_Johnson_Umeike_3094849/bash-4.2/subst.c:8585-8647 | Quote removal undoes the quoting of any string |
| BraceRoundTrip.PrintThenExpand | Lab03_Johnson_Umeike_3094849/bash-4.2/bracecomp.c:65-150 | For every sorted list of one or more names, expanding the printed word gives one string per name, in order, which is the name after quote removal, and the name itself when it needs no quoting |
| BraceSequence.StepsStayInside | Lab03_Johnson_Umeike_3094849/bash-4.2/braces.c:308-360 | The k-th term is start moved k steps towards end, never beyond it, and one more step would leave the range |
| BraceSequence.MkSeq | Lab03_Johnson_Umeike_3094849/bash-4.2/braces.c:308-360 | With a 64-bit counter, followed for any number of rounds: the loop emits the abs(end - start) / abs(step) + 1 terms first, a step of zero counting as one, and ends by itself behind the last if and only if one more step fits in 64 bits; terms and terminator fit into the slots allocated, counted in 32 bits as the program does, if and only if SlotsSuffice |
| BraceSequence.UnitStepsSufficeIff | Lab03_Johnson_Umeike_3094849/bash-4.2/braces.c:317-318 | In steps of one they fit if and only if start and end are at most 2147483645 apart |
| BraceSequence.TooFewSlots | Lab03_Johnson_Umeike_3094849/bash-4.2/braces.c:317-318 | 0..4294967296 gets two slots for 4294967297 terms, and 0..2147483646 asks for a negative number of slots |
| BraceSequence.LoopEndsIff | Lab03_Johnson_Umeike_3094849/bash-4.2/braces.c:308-360 | With a 64-bit counter no term overflows, and the loop ends at its last term if and only if one more step still fits in 64 bits; otherwise the counter wraps round and the loop goes on |
| BraceSequence.LoopRunsOn | Lab03_Johnson_Umeike_3094849/bash-4.2/braces.c:349-354 | From the largest 64-bit number but one to the largest the loop does not end at its second and last term |
| ExprMachine.ReadTok | Lab03_Johnson_Umeike_3094849/bash-4.2/expr.c:1122-1297 | Reading a token consumes it, keeps noeval despite the peek that sets it to one, and never touches the variables |
| ExprMachine.Prod | Lab03_Johnson_Umeike_3094849/bash-4.2/expr.c:432-962 | Every production that succeeds consumes at least one token and leaves noeval at its entry value |
| ExprEvaluator.Evaluator.Readtok | Lab03_Johnson_Umeike_3094849/bash-4.2/expr.c:1122-1297 | The lexer's save, peek and restore on global state is the specified token step |
| ExprEvaluator.Evaluator.ExpComma | Lab03_Johnson_Umeike_3094849/bash-4.2/expr.c:432-445 | On every token state: value, error and final globals of the comma production |
| ExprEvaluator.Evaluator.ExpAssign | Lab03_Johnson_Umeike_3094849/bash-4.2/expr.c:447-537 | The same for assignment, detected after the fact through lasttok |
| ExprEvaluator.Evaluator.ExpCond | Lab03_Johnson_Umeike_3094849/bash-4.2/expr.c:540-582 | The same for the conditional, with noeval raised for the branch not taken |
| ExprEvaluator.Evaluator.ExpLor | Lab03_Johnson_Umeike_3094849/bash-4.2/expr.c:585-610 | The same for logical or, with noeval raised once the left side is true |
| ExprEvaluator.Evaluator.ExpLand | Lab03_Johnson_Umeike_3094849/bash-4.2/expr.c:613-638 | The same for logical and, with noeval raised once the left side is false |
| ExprEvaluator.Evaluator.ExpBinary | Lab03_Johnson_Umeike_3094849/bash-4.2/expr.c:641-817 | The same for the eight loops from bitwise or to multiplication, division by zero included |
| ExprEvaluator.Evaluator.ExpPower | Lab03_Johnson_Umeike_3094849/bash-4.2/expr.c:819-838 | The same for exponentiation, negative exponents and the early return at zero included |
| ExprEvaluator.Evaluator.Exp1 | Lab03_Johnson_Umeike_3094849/bash-4.2/expr.c:840-869 | The same for the prefix operators |
| ExprEvaluator.Evaluator.Exp0 | Lab03_Johnson_Umeike_3094849/bash-4.2/expr.c:871-962 | The same for parentheses, numbers, names and the increments, with the peek after a name undone or kept |
| ExprEvaluator.Evaluator.Subexpr | Lab03_Johnson_Umeike_3094849/bash-4.2/expr.c:394-430 | A whole evaluation gives the specified outcome, trailing tokens and the empty expression included |
| ExprTrees.DeadEvalBindsNothing | Lab03_Johnson_Umeike_3094849/bash-4.2/expr.c:540-638 | In the meaning of trees, an operand not taken binds no variable |
| ExprCorrect.PrintedTreeEvaluates | Lab03_Johnson_Umeike_3094849/bash-4.2/expr.c:432-962 | For every expression tree, needless parentheses included, and every store, evaluating its printed tokens gives the tree's value and final store, or the same error |
| ExprCorrect.SuppressedProdBindsNothing | Lab03_Johnson_Umeike_3094849/bash-4.2/expr.c:540-638 | While noeval is set no production binds a variable, on every token list, printed from a tree or not |
| ExprAssignment.ChainEvaluates | Lab03_Johnson_Umeike_3094849/bash-4.2/expr.c:447-537 | For every chain of operands each followed by an assignment operator, and every right side: each operand is evaluated in turn, the name it ends in read as zero in front of =, and its errors win; then the assignment is rejected unless the operand ends in a name and is no logical operator or conditional; otherwise the rest of the chain is evaluated and that name bound |
| ExprAssignment.ChainInParens | Lab03_Johnson_Umeike_3094849/bash-4.2/expr.c:447-537 | A chain in parentheses has the same outcome in every state and in front of every tail, with suppressed evaluation too |
| ExprAssignment.AssignmentBehindOperand | Lab03_Johnson_Umeike_3094849/bash-4.2/expr.c:447-537 | The same for one operand of any level, with the printed right side |
| ExprAssignment.SumsInChain | Lab03_Johnson_Umeike_3094849/bash-4.2/expr.c:447-537 | x + y = z + w = v binds y and w to v |
| ExprAssignment.RejectedIff | Lab03_Johnson_Umeike_3094849/bash-4.2/expr.c:447-537 | An assignment to a non-variable is reported if and only if the operand, so read, evaluates without error and is a logical operator or a conditional or its last token is not a name of its own |
| ExprAssignment.TreesAssignToVariables | Lab03_Johnson_Umeike_3094849/bash-4.2/expr.c:447-537 | No printed tree is rejected in that way |
| ExprAssignment.AssignmentBehindOperator | Lab03_Johnson_Umeike_3094849/bash-4.2/expr.c:1230-1297 | Between two names: x + y = v binds y whatever x is, and so for every operator but / and %, which divide by the zero that y is read as; x + y += v adds to the sum and binds y |
| ExprAssignment.AssignmentRejected | Lab03_Johnson_Umeike_3094849/bash-4.2/expr.c:540-638 | Behind a logical and, a logical or or a conditional between names, and behind ++x, an assignment is rejected |
| ExprAssignment.PowersGroupRight | Lab03_Johnson_Umeike_3094849/bash-4.2/expr.c:819-869 | For all operands exponentiation groups to the right, and every prefix operator binds tighter |
| ExprAssignment.OperatorsGroupLeft | Lab03_Johnson_Umeike_3094849/bash-4.2/expr.c:641-817 | For all operands, any two binary operators of one level group to the left |
| ExprAssignment.ConditionsGroup | Lab03_Johnson_Umeike_3094849/bash-4.2/expr.c:540-638 | For all operands the logical operators group to the left and the conditional to the right |
| ExprAssignment.AssignmentsGroupRight | Lab03_Johnson_Umeike_3094849/bash-4.2/expr.c:447-537 | For all right sides both kinds of assignment group to the right |
| ArrayModel.MapDeterminesEntries | Lab03_Johnson_Umeike_3094849/bash-4.2/array.c:604-652 | An ordered list of entries and the map from index to value it stands for determine each other |
| ArrayModel.InsertUpdatesMap | Lab03_Johnson_Umeike_3094849/bash-4.2/array.c:604-652 | Insertion keeps the order, is the map update, and adds an element exactly when the index was absent |
| ArrayModel.RemoveDeletesKey | Lab03_Johnson_Umeike_3094849/bash-4.2/array.c:654-678 | Removal keeps the order and deletes one key and nothing else |
| ArrayModel.ShiftKeepsOrder | Lab03_Johnson_Umeike_3094849/bash-4.2/array.c:195-256 | A left shift keeps indices increasing and, if they were, non-negative, and drops min(n, size) elements |
| ArrayModel.ShiftedMap | Lab03_Johnson_Umeike_3094849/bash-4.2/array.c:195-256 | A left shift keeps the keys from the (n+1)st on, each n lower |
| ArrayModel.RshiftedMap | Lab03_Johnson_Umeike_3094849/bash-4.2/array.c:258-297 | A right shift raises every key by n and puts the new value at index 0 |
| ArrayModel.RshiftKeepsOrderIff | Lab03_Johnson_Umeike_3094849/bash-4.2/array.c:258-297 | A right shift keeps the order if and only if a new first element stays below the old first index raised by n; with non-negative indices it always does |
| ArrayModel.PushThenPop | Lab03_Johnson_Umeike_3094849/bash-4.2/array.h:105-109 | Pushing a value and popping it again restores the array |
| ArrayModel.PopThenPushIff | Lab03_Johnson_Umeike_3094849/bash-4.2/array.h:105-109 | Popping and pushing the value back restores the array if and only if it began with that value at index 0 |
| ArrayHeap.Array.constructor | Lab03_Johnson_Umeike_3094849/bash-4.2/array.c:83-97 | A new array is a sentinel linked to itself and holds nothing |
| ArrayHeap.Array.AddBefore | Lab03_Johnson_Umeike_3094849/bash-4.2/array.c:48-54 | The four pointer assignments leave a circular doubly linked list with the element at its place |
| ArrayHeap.Array.Unlink | Lab03_Johnson_Umeike_3094849/bash-4.2/array.c:667-671 | The two pointer assignments leave a circular doubly linked list without the element |
| ArrayHeap.Array.Find | Lab03_Johnson_Umeike_3094849/bash-4.2/array.c:695-703 | The walk from any node whose predecessors have smaller indices finds the index if the map has it |
| ArrayHeap.Array.Insert | Lab03_Johnson_Umeike_3094849/bash-4.2/array.c:604-652 | The list operation inserts or replaces as specified, with links, count and largest index exact; it fails only for a negative index into an empty array |
| ArrayHeap.Array.Remove | Lab03_Johnson_Umeike_3094849/bash-4.2/array.c:654-678 | The list operation returns the element removed, with its value, or null exactly when the index is absent |
| ArrayHeap.Array.Shift | Lab03_Johnson_Umeike_3094849/bash-4.2/array.c:195-256 | The list operation shifts as specified and returns the dropped elements as a null-terminated list still holding what they held |
| ArrayHeap.Array.Rshift | Lab03_Johnson_Umeike_3094849/bash-4.2/array.c:258-297 | The list operation shifts as specified and returns the number of elements |
| ArrayCursor.Arrays.Create | Lab03_Johnson_Umeike_3094849/bash-4.2/array.c:83-97 | A further array disturbs neither the others nor the cursor |
| ArrayCursor.Arrays.Reference | Lab03_Johnson_Umeike_3094849/bash-4.2/array.c:680-706 | Reading through the roving cursor gives what the plain map gives, for every index and whichever array was touched last, and leaves the cursor on a live node or nowhere |
| ArrayCursor.Arrays.Insert | Lab03_Johnson_Umeike_3094849/bash-4.2/array.c:604-652 | Insertion changes the one array as specified and leaves the cursor on its node with the inserted index and value |
| ArrayCursor.Arrays.Remove | Lab03_Johnson_Umeike_3094849/bash-4.2/array.c:654-678 | Removal changes the one array as specified; the cursor has left the array if an element was removed and is where it was otherwise |
| ArrayCursor.Arrays.Shift | Lab03_Johnson_Umeike_3094849/bash-4.2/array.c:195-256 | A left shift with the cursor invalidated before the first pointer moves |
| ArrayCursor.Arrays.Rshift | Lab03_Johnson_Umeike_3094849/bash-4.2/array.c:258-297 | A right shift; the early return for an empty array leaves the cursor alone, which is sound because the cursor is never on an empty array |
| ArrayCursor.Arrays.Flush | Lab03_Johnson_Umeike_3094849/bash-4.2/array.c:99-116 | Flushing empties the one array and takes the cursor off it |
| ArrayCursor.Arrays.Dispose | Lab03_Johnson_Umeike_3094849/bash-4.2/array.c:118-127 | A freed array is never the cursor's |
| ArrayRuns.Perform | Lab03_Johnson_Umeike_3094849/bash-4.2/array.c:604-706 | Any sequence of operations on any number of arrays, with non-negative subscripts, performed through the lists and the cursor, gives the answers of the plain model |
| ArrayRuns.ModelStaysSound | Lab03_Johnson_Umeike_3094849/bash-4.2/array.c:195-297 | In every such run every array keeps strictly increasing, non-negative indices |
| LoopControl.Run | Lab03_Johnson_Umeike_3094849/bash-4.2/execute_cmd.c:2255-2390 | The counter-free meaning: a command on its way out of loops has as its status the last exit status, which is what the skipping code relies on |
| LoopInterpreter.Interpreter.ExecuteCommand | Lab03_Johnson_Umeike_3094849/bash-4.2/execute_cmd.c:522-541 | With a counter set a command is skipped and changes nothing; otherwise effects, status, last exit status and both counters are those of the structured meaning, and the loop level is restored |
| LoopInterpreter.Interpreter.ExecuteConnection | Lab03_Johnson_Umeike_3094849/bash-4.2/execute_cmd.c:2307-2390 | Lists, and-lists and or-lists do what the structured meaning says although they run their second command unconditionally on the counters |
| LoopInterpreter.Interpreter.ExecuteIf | Lab03_Johnson_Umeike_3094849/bash-4.2/execute_cmd.c:3216-3248 | Conditionals likewise, a missing branch included |
| LoopInterpreter.Interpreter.ExecuteFor | Lab03_Johnson_Umeike_3094849/bash-4.2/execute_cmd.c:2431-2521 | The for loop that counts breaking and continuing down is the structured loop |
| LoopInterpreter.Interpreter.ExecuteWhileOrUntil | Lab03_Johnson_Umeike_3094849/bash-4.2/execute_cmd.c:3151-3214 | The while and until loop likewise, a break or continue in the test included |
| LoopInterpreter.Interpreter.BreakBuiltin | Lab03_Johnson_Umeike_3094849/bash-4.2/builtins/break.def:64-90 | break n clamps n to the loops there are, leaves all of them for n <= 0 with status 1, and does nothing outside a loop |
| LoopInterpreter.Interpreter.ContinueBuiltin | Lab03_Johnson_Umeike_3094849/bash-4.2/builtins/break.def:104-130 | continue n clamps likewise; for n <= 0 it breaks out of all loops with status 1 |
| LoopLaws.UnwindingStaysWithin | Lab03_Johnson_Umeike_3094849/bash-4.2/execute_cmd.c:2505-2518 | If no continue that can be reached can leave a loop test, with the status that ends that loop, for more loops than surround it, no command is ever on its way out of more loops than surround it |
| LoopLaws.TopLevelIsClear | Lab03_Johnson_Umeike_3094849/bash-4.2/execute_cmd.c:534-541 | Such a program leaves both counters zero at top level, so whatever follows it runs |
| LoopLaws.EndingTestPassesOn | Lab03_Johnson_Umeike_3094849/bash-4.2/execute_cmd.c:3170-3210 | Conversely, whatever the loop and wherever it stands: a test that ends on its way to continue a loop with the status that ends this one passes the continuation on undiminished |
| LoopLaws.EndingTestLeaks | Lab03_Johnson_Umeike_3094849/bash-4.2/execute_cmd.c:3170-3210 | At top level every such loop leaves the counter set, and the command after it is skipped |
| LoopLaws.BeyondIffLeaks | Lab03_Johnson_Umeike_3094849/bash-4.2/execute_cmd.c:3170-3210 | For every command at every depth whose run finishes: it is on its way out of more loops than surround it if and only if in that run some loop ended by a test about to continue more loops than surround that loop |
| LoopLaws.TopLevelIsClearIff | Lab03_Johnson_Umeike_3094849/bash-4.2/execute_cmd.c:534-541 | So at top level both counters are zero after any command if and only if its run has no such loop |
| LoopLaws.LoopAroundIsTame | Lab03_Johnson_Umeike_3094849/bash-4.2/execute_cmd.c:3170-3210 | A for loop around until continue meets the condition, around until continue 2 it does not, and until break; continue does |
| LoopLaws.ContinueInTestLeaks | Lab03_Johnson_Umeike_3094849/bash-4.2/execute_cmd.c:3170-3210 | until continue and while ! continue are such loops, with any body |
| LoopLaws.ContinueInWhileTestResumes | Lab03_Johnson_Umeike_3094849/bash-4.2/execute_cmd.c:3177-3182 | In a while test the same continue resumes the loop, which then never ends |
| LoopLaws.BoundIsOnlyABound | Lab03_Johnson_Umeike_3094849/bash-4.2/execute_cmd.c:3170-3210 | A run that finishes within some bound on rounds finishes alike within every larger one |
| LoopLaws.ForLeavesOne | Lab03_Johnson_Umeike_3094849/bash-4.2/execute_cmd.c:2505-2518 | A for loop whose first round is on its way out of several loops is left on its way out of one loop fewer, with that round's effects and status, whatever its body |
| LoopLaws.LoopLeavesOne | Lab03_Johnson_Umeike_3094849/bash-4.2/execute_cmd.c:3190-3210 | So is a while or until loop |
| LoopLaws.ManyLevelsAreOneAtATime | Lab03_Johnson_Umeike_3094849/bash-4.2/builtins/break.def:64-130 | In a for loop, with any body that leaves k+1 loops and the same body leaving one: break k+1 is break followed behind the loop by break k, and continue k+1 is break followed by continue k |
| LoopLaws.ManyLevelsInLoops | Lab03_Johnson_Umeike_3094849/bash-4.2/builtins/break.def:64-130 | The same in while and until loops, with any test that lets the first round begin |
| LoopLaws.DoThenLeave | Lab03_Johnson_Umeike_3094849/bash-4.2/builtins/break.def:64-130 | Any command that ends normally, followed by break k+1 or continue k+1, makes such a body |
| SelectMenu.Indent | Lab03_Johnson_Umeike_3094849/bash-4.2/execute_cmd.c:2748-2765 | Padding of tabs and spaces ends exactly at its target column, for every tab width above zero, and is empty when already there |
| SelectMenu.PrintSelectList | Lab03_Johnson_Umeike_3094849/bash-4.2/execute_cmd.c:2767-2813 | For every list, width and terminal: row r lists r+1, r+1+rows and so on, every number within the list, and no row has more columns than fit; when every item fits the width, the k-th item of a row, with its padded number, starts in column k times the width |
| SelectMenu.ElementWidth | Lab03_Johnson_Umeike_3094849/bash-4.2/execute_cmd.c:2849-2858 | With the width the caller computes every item fits, with two columns to spare, for lists of fewer than a million items |
| SelectMenu.ShownExactlyOnce | Lab03_Johnson_Umeike_3094849/bash-4.2/execute_cmd.c:2767-2813 | In a menu so laid out every item number appears exactly once and nothing else does |
| PipelineGrouping.Group | QuashProj/Functions.cpp:161-213 | The grouping loop produces, for every token list, the commands and redirection lists of the stages, one pipe fewer than lists |
| PipelineGrouping.VectorsAlignIff | QuashProj/Functions.cpp:161-213 | Commands and redirection lists line up if and only if no stage has two redirections |
| PipelineGrouping.CommandsPerStage | QuashProj/Functions.cpp:161-213 | There are never fewer commands than stages, and when they line up the k-th command is what the k-th stage runs |
| PipelineGrouping.TwoRedirectionsMisalign | QuashProj/Functions.cpp:178-205 | Reading one file and writing another in one stage yields a second, empty command without a redirection list |
| PipelineGrouping.CommandPlace | QuashProj/Functions.cpp:161-213 | The words of stage j are the command at place j plus the number of redirections too many in the stages in front of it |
| PipelineWiring.WireChild | QuashProj/Functions.cpp:236-264 | After its duplications and closes child i holds only the read end before it and the write end after it; each standard descriptor refers to the file of the last redirection to it that could be opened, else to the pipe, else to what the shell had there |
| PipelineWiring.CloseAll | QuashProj/Functions.cpp:284-287 | The shell itself keeps no end of any pipe and every other descriptor |
| PipelineWiring.Launch | QuashProj/Functions.cpp:217-287 | After all closes the write end of pipe k is held by child k alone and its read end by child k+1 alone, for any number of stages and redirections |
| PipelineStatement.ExecStatement | QuashProj/Functions.cpp:151-289 | For every statement, aligned or not: child k runs the k-th command with the pipe ends and redirections of stage k, whichever stage the command is from, has its standard descriptors on that stage's last redirection that could be opened, else the pipe, else the shell's own; a child past the last list of redirections dies; and the shell keeps no pipe end |
| PipelineStatement.WordsOfStage | QuashProj/Functions.cpp:217-278 | The words of stage j are run by a later child, with another place's pipe ends and redirections or none, if and only if a stage in front of it redirects twice |
| PipelineStatement.AlignedStatement | QuashProj/Functions.cpp:217-278 | When no stage redirects twice every child runs the words of its own stage with what belongs to that stage |
| HashString.ComputeHash | Lab03_Johnson_Umeike_3094849/bash-4.2/hashlib.c:128-148 | The accumulator loop computes the 32-bit hash of every byte string, sign extension of bytes from 128 on included |
| HashString.BucketOfPower | Lab03_Johnson_Umeike_3094849/bash-4.2/hashlib.c:36-39 | In a table whose size is a power of two, masking the hash selects its remainder |
| HashString.EveryBucketIsReached | Lab03_Johnson_Umeike_3094849/bash-4.2/hashlib.c:128-148 | In a table of up to 256 buckets, a power of two, every bucket is that of some key of at most one byte, none of them zero |
| HashChains.KeysAreUnique | Lab03_Johnson_Umeike_3094849/bash-4.2/hashlib.c:163-205 | Items in different places of a table, whatever chains they are in, have different keys |
| HashChains.FiledWith | Lab03_Johnson_Umeike_3094849/bash-4.2/hashlib.c:187-202 | A new key put at the front of the chain its hash selects keeps every item in its bucket, one item a key, and the count of chained items equal to the size of the map |
| HashChains.FiledIffNew | Lab03_Johnson_Umeike_3094849/bash-4.2/hashlib.c:256-274 | An insertion that skips the search leaves a table that is filed under some map if and only if the key was new |
| HashChains.FiledWithout | Lab03_Johnson_Umeike_3094849/bash-4.2/hashlib.c:224-237 | Taking any item out of any chain keeps the same and removes exactly its key |
| HashChains.CopyIsFiled | Lab03_Johnson_Umeike_3094849/bash-4.2/hashlib.c:108-126 | Chains copied item for item, in order, make a table with the same keys in the same buckets |
| HashTable.Table.constructor | Lab03_Johnson_Umeike_3094849/bash-4.2/hashlib.c:43-65 | A new table is the empty map; zero asks for 64 buckets |
| HashTable.Table.Walk | Lab03_Johnson_Umeike_3094849/bash-4.2/hashlib.c:178-185 | The walk along one chain finds the item of the key, and the item before it, exactly when the map has the key |
| HashTable.Table.Search | Lab03_Johnson_Umeike_3094849/bash-4.2/hashlib.c:163-205 | Search is map lookup and counts the find; with creation it adds one fresh item, and the early return at zero entries is right because the count is exact |
| HashTable.Table.Insert | Lab03_Johnson_Umeike_3094849/bash-4.2/hashlib.c:242-277 | Insertion returns the item of a known key and otherwise adds a fresh one to the map |
| HashTable.Table.Unlink | Lab03_Johnson_Umeike_3094849/bash-4.2/hashlib.c:224-237 | Relinking the predecessor, or the bucket when there is none, leaves every chain whole and removes the one key |
| HashTable.Table.Remove | Lab03_Johnson_Umeike_3094849/bash-4.2/hashlib.c:207-240 | Removal deletes the key from the map and returns its item, or null |
| HashTable.Table.Flush | Lab03_Johnson_Umeike_3094849/bash-4.2/hashlib.c:279-313 | Flushing empties every bucket; it may return at once when the count is zero |
| HashTable.Table.Copy | Lab03_Johnson_Umeike_3094849/bash-4.2/hashlib.c:108-126 | A copy has the same keys, and for each a fresh item with the same hash and count and the data passed through the copying function |
| HashTable.CopyBucketArray | Lab03_Johnson_Umeike_3094849/bash-4.2/hashlib.c:74-106 | The copy of a chain, built by appending, has the items in the same order and ends in null |
| AliasScan.SkipQuotes | Lab03_Johnson_Umeike_3094849/bash-4.2/alias.c:307-331 | The index of the matching quote, backslashes respected, or the end of the line, within bounds on every string |
| AliasScan.QuotedIsFirstEnd | Lab03_Johnson_Umeike_3094849/bash-4.2/alias.c:307-331 | That index is the first delimiter with an even number of backslashes in front of it, or the end |
| AliasScan.ReadToken | Lab03_Johnson_Umeike_3094849/bash-4.2/alias.c:423-461 | The end of the token, quoted parts and escaped characters included, within bounds on every string |
| AliasScan.TokenEndIsFirstDelimiter | Lab03_Johnson_Umeike_3094849/bash-4.2/alias.c:423-461 | That end is the first delimiter outside quotes and not behind a backslash, or the end of the line |
| AliasScan.SkippedIff | Lab03_Johnson_Umeike_3094849/bash-4.2/alias.c:333-413 | Skipping raises the flag if and only if it passes a separator outside quoted text and outside words that begin with quoted text, passes nothing else but blanks and such text, and does not stop at a separator |
| AliasExpansion.Expander.SkipBlanks | Lab03_Johnson_Umeike_3094849/bash-4.2/alias.c:333-413 | Where blanks, quoted words and separators end, and whether a separator was passed |
| AliasExpansion.Expander.AliasExpand | Lab03_Johnson_Umeike_3094849/bash-4.2/alias.c:463-578 | On every line the loop ends and its output is that of the rounds: each skipped stretch as it was, each word or its alias |
| AliasExpansion.PiecesSpellInput | Lab03_Johnson_Umeike_3094849/bash-4.2/alias.c:463-578 | With any alias table the rounds spell the line in order |
| AliasExpansion.ReplacementsJustified | Lab03_Johnson_Umeike_3094849/bash-4.2/alias.c:463-578 | In every round the word is replaced, by its alias, exactly when it is due and an alias, and is copied otherwise |
| AliasExpansion.DueIff | Lab03_Johnson_Umeike_3094849/bash-4.2/alias.c:463-578 | On every line, a word is due if and only if it has no backslash and its round began at the start of the line or behind a word replaced by a value ending in a blank, or skipped a separator |
| AliasExpansion.InCommandPositionIff | Lab03_Johnson_Umeike_3094849/bash-4.2/alias.c:333-413 | A due word is in command position, with only blanks between it and that separator or the place its round began, if and only if no quoted text was skipped there |
| AliasExpansion.DueIsCommandPosition | Lab03_Johnson_Umeike_3094849/bash-4.2/alias.c:463-578 | On a line without backslashes and quotes the due words are exactly those in command position |
| AliasExpansion.QuotedCommandArgument | Lab03_Johnson_Umeike_3094849/bash-4.2/alias.c:356-398 | In \ls foo the argument foo is replaced |
| AliasExpansion.EscapedWordEnd | Lab03_Johnson_Umeike_3094849/bash-4.2/alias.c:356-398 | In \1foo the end of the word is replaced |
| AliasExpansion.LookedAtIff | Lab03_Johnson_Umeike_3094849/bash-4.2/alias.c:356-398 | On every line and in every round, the word behind an unquoted separator is looked at if and only if the separator does not stand inside a word that begins with quoted text |
| AliasExpansion.SeparatorInQuotedWord | Lab03_Johnson_Umeike_3094849/bash-4.2/alias.c:356-398 | In a \ls;foo the word behind the separator is not looked at |
| AliasExpansion.NoAliasNoChange | Lab03_Johnson_Umeike_3094849/bash-4.2/alias.c:463-578 | A line no due word of which is an alias is its own expansion, whatever its other words and substrings are |

## Left out

- Bounded buffer: simulated work, sleeping, printing, thread creation, allocation and teardown; zero producers or zero consumers, whose totals the bounds would not describe. Unlocked reads are atomic.
- Philosophers: the progress display and its reset, sleeping and random times, the unlocking of other threads' mutexes at the end of the program; the two waiter programs, whose guard lets a philosopher proceed with one free chopstick, so that exclusion is not their invariant.
- BraceScan.BraceGobbler: does not model command and process substitution inside a word, nor multibyte characters.
- BraceExpansion.BraceExpand: does not model the parsing of `{a..b}` terms; what such a term expands to is a parameter, and the loop that lists its numbers is BraceSequence.MkSeq.
- BracePrinter.ReallyMungeBraces: is stated for a list in which shared prefixes are contiguous, which every sorted list is; on an unsorted list the code can read past the end of a name. The sorting library routine itself is not modelled.
- BraceRoundTrip.QuoteFromInverse: covers the backslash form of quoting only, which is the form the printer writes.
- BraceSequence.MkSeq: is followed for a given number of rounds, since it need not end; overflow of `int` and of the 64-bit counter is taken to wrap round.
- ExprAssignment.ChainEvaluates: chains are no constructor of the expression trees; they are covered as a whole line and, by ChainInParens, in parentheses in every state.
- ExprEvaluator.Evaluator.Readtok: starts from tokens, not characters; an assignment operator carries its operator in its token.
- ExprEvaluator.Evaluator.Subexpr: an error is a result value; saving and restoring the outer evaluation and the non-local jump are not modelled.
- ExprEvaluator.Evaluator.ExpBinary: one method with a level parameter for eight productions that differ only in their operators; machine arithmetic (its width and wrap-around) is a parameter, apart from division by zero and negative exponents.
- Expression variables hold plain numbers: array subscripts, variables whose value is itself an expression and unset-variable errors are not modelled.
- ArrayHeap.Array.Insert: freeing of elements is not modelled beyond their leaving the list; counts are unbounded integers; the list part is separated from the cursor part, which in the program are one function.
- ArrayHeap.Array.Rshift: excludes an array whose first index is at most -n when there is a value to insert, on which the program leaves the list out of order; ArrayModel.RshiftKeepsOrderIff is the exact condition.
- ArrayCursor.Arrays.Rshift: the same.
- ArrayRuns.Perform: shifts always dispose of what they drop; the returned list is the subject of ArrayCursor.Arrays.Shift.
- Arrays: copying, slicing, quoting, conversion to and from words and strings, the single-element variants of the shifts.
- LoopInterpreter.Interpreter.ExecuteWhileOrUntil: gives up after a bound on the rounds of each loop, where the program would run on; BoundIsOnlyABound shows that the bound changes no result.
- LoopInterpreter.Interpreter.ExecuteFor: does not model read-only loop variables and invalid names, which return early, nor traps.
- Loop control: forking, pipelines, redirections, job control, traps, `select`, `case` and arithmetic `for`, groups (which only pass through), functions and sourced files; parsing of the argument of `break`.
- SelectMenu.PrintSelectList: a character of an item takes one column; an empty list, for which the program prints an empty line, is not covered.
- PipelineGrouping.Group: does not cover a redirection sign as the last of several words, where the program reads past its list.
- PipelineStatement.ExecStatement: what opening the files gave is a parameter; a child whose command has no words reads past its arguments in the program, which the model does not follow.
- PipelineWiring.Launch: the shell's standard descriptors are in use, so that pipes and files get other numbers; forking cannot fail; execution, waiting and printing are not modelled.
- HashTable.Table.Insert: skipping the search is allowed only to a caller who knows the key to be absent; the code would otherwise chain a second item for it (HashChains.FiledIffNew). A null table, for which the code builds one and loses it, is not modelled.
- HashString.ComputeHash: takes the character type to be signed.
- HashString.EveryBucketIsReached: up to 256 buckets, where the shell's own tables have up to 64; larger tables need longer keys.
- HashTable.Table.Flush: freeing of items, keys and data; walking a table and its statistics.
- AliasExpansion.Expander.AliasExpand: the growing of the output buffer; letters are those of ASCII; the table is a map from names to values.
- Word splitting, completion and file-system code of bash; the other labs, which are short scripts, signal and process demonstrations or do not compile; the older copy of Quash, whose redirection lists misalign across stages.
