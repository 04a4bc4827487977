# systemc-clang: from threads to clocked state machines

systemc-clang turns SystemC into hcode and from there into RTL.  The main part of this project
models the compiler that turns an `SC_THREAD`, sequential code with calls of `wait()`, into a
clocked finite state machine, and proves that the machine does what the thread does.  The rest
models the other parts of the repository whose correctness is not evident from one function:
the passes over hcode and types, the descriptor ring of the DMA driver, and the glob matcher,
subcase loop and small-buffer string of the test framework it carries.

## The thread compiler

| files | what they hold |
|---|---|
| `ThreadGraph` | CFG blocks before and after splitting; walks |
| `Segments`, `Splitting`, `SplitGraphs` | cutting blocks at waits (class `SplitCFGBuilder`), and what it keeps |
| `Unfolding`, `PathSearch` | the decision tree a search unfolds, and what the search records of it |
| `SplitCFG`, `States` | the search itself (class `SplitCFG`) and the numbering of states |
| `Reachability`, `PathIndices`, `Encoding` | which blocks a path holds; each entry of it, on any graph; its flat form |
| `Hcodes`, `HDLThreads`, `CodeOrder` | generated code and what it does; decoding a path into nested ifs (class `HDLThread`); what the code says from its beginning to its end |
| `Threads`, `Fsms`, `Refinement` | the split thread, the clocked machine, and that the machine refines the thread |
| `Exactness`, `RunExactness`, `Endings` | exactly when it does: one clock, whole runs, threads that end |
| `CfgThreads`, `ThreadExactness` | the thread as it was written, and the end-to-end theorems about it |
| `ThreadCompilers`, `ExampleThreads` | the whole compiler; threads that show what the conditions say |

Statements and conditions are opaque: `Hcodes.Sem` gives each an arbitrary effect or truth value
over an arbitrary store, and every theorem holds for all of them.  A split block is named by its
position instead of by its address.

The chain of results.  `ThreadCompilers.CompileThread` runs the splitter, the search and the code
generator and yields a machine that is `Compiled`.  For every such machine
`ThreadExactness.ThreadImplemented` says: from reset on, whenever the thread as written has come to
a sequence of waits, the machine has, after just the clocks those waits take, the thread's store in
its shadow variables, and is in the state that starts where the thread goes on from the last of
these waits, not from some other wait like it.

What the shape of thread must be (`SplitGraphs.CfgShape`): a block that branches is the header of
an if or a loop, with two different successors and no wait in it; the exit block is empty; there
is no conditional operator; every cycle passes a wait.  Termination, reachability and the recorded
indices are proved without the last condition: the search ends on any graph, cyclic or not, and
`PathIndices.RecordedEntries` gives every entry of the path it records.

What the proofs found out about the code:

- A loop header branches if and only if it has two successors in the split graph, except when the
  header is cut at a wait although the exit of the loop is not pruned: then it is searched as a
  branch, but has one successor (`SplitGraphs.LoopBranchesIff`).
- Statements that share a CFG block with a terminator (the `s` in `s; if (c) ...` when both are in
  one block, or in a block that ends in `break` or `continue`) are not generated: only the
  condition is.  This is the only way in which the machine can differ from the thread, and it
  always shows.  A state does what the thread does, for all meanings of statements and
  conditions, if and only if no block on its path holds such statements
  (`Exactness.FaithfulIff`); and the machine does what the thread as written does, over all runs
  from reset, if and only if no block that the thread can reach holds any
  (`ThreadExactness.MachineExactIff`).  `ExampleThreads.DroppingThreadDiffers` has a thread for which
  it does not.
- `wait(n)` stays in the wait state for n + 1 clocks, so `wait(1)` takes longer than `wait()`.  The
  counter is declared as an `int` register (plugins/hdl/HDLThread.cpp:633-640) and is modelled as 32
  bits that wrap around: for a negative n the wait state lasts n + 2^32 + 1 clocks
  (`Fsms.WaitLasts`).
- A thread that ends without coming to a wait stays in its last state, and each further clock runs
  that state's code once more.  The store is left alone from then on if and only if no block whose
  statements are generated lies on a way from the state's start to the end of the thread
  (`Endings.EndKeptIff`).  For `s0; wait(); s1;` it is not (`ExampleThreads.EndingThreadRunsOn`).

## The other parts

- `Subcases`: the re-run loop enters the leaves one by one, in depth-first order.
- `Wildcards`: going back to the last star only loses no match.
- `SmallStrings`: the string is the sequence of its characters, on the heap iff longer than 23.
- `MCDMA`: the ring of descriptors tiles the bytes of the transfer.  With the largest block size that
  the driver can be configured for, 2^26 bytes, the length of a full block is cut to 0;
  `MCDMA.LengthsReadIff` gives the exact condition.  Every word that is written is given too.
- `Names`, `FunctionClosure`: fresh names, and the worklist that generates the functions of a module.
  A constructor that had a name before a body is generated is called from there by a new name,
  which no function has; every other call has the right name.  `FunctionClosure.CallsMisnamed`
  generates two functions that call one constructor, and the later call is such a call.
- `AssignmentChains`, `TypeTrees`, `HcodeText`: assignment chains; type trees, however they are built
  up from nodes and edges, and the order in which they are visited and generated; and that
  hcode text can be read back if and only if no name holds white space or is `NONAME`.  The
  operation names are a parameter there; being enumerators they are distinct identifiers.

## Model

| member | source | states |
|---|---|---|
| `Splitting.SplitCFGBuilder.CreateUnsplitBlocks` | src/cfg/SplitCFG.cpp:948-978 | every CFG block gets an empty block with its flags, found under its own id |
| `Splitting.SplitCFGBuilder.AddSuccessors` | src/cfg/SplitCFG.cpp:788-796 | the successors are just those of the CFG block that are not null, each from its place in the list, in the order of the list |
| `Splitting.SplitCFGBuilder.SplitElements` | src/cfg/SplitCFG.cpp:642-703 | elements are cut into segments, each wait alone in its own |
| `Splitting.SplitCFGBuilder.CreateWaitSplitCFGBlocks` | src/cfg/SplitCFG.cpp:705-786 | the segments of a block are placed and linked; blocks placed before stay as they are, even if a derived id 10*id+k is that of another block |
| `Splitting.SplitCFGBuilder.PreparePathInfo` | src/cfg/SplitCFG.cpp:1020-1027 | empty path information for just those blocks the search recurses from that are found under an id; one whose derived id is that of another block gets none |
| `ThreadCompilers.BranchesPrepared` | src/cfg/SplitCFG.cpp:1020-1027 | in a thread of the claimed shape every block the search recurses from is found, so each has its path information |
| `Splitting.SplitCFGBuilder.ConstructSccfg` | src/cfg/SplitCFG.cpp:987-1018 | the whole graph is split: every segment is at its place; which id leads to which block, ids that are taken included; empty path information for just the branching blocks found so |
| `Segments.SplitOk` | src/cfg/SplitCFG.cpp:642-703 | segments put together are the elements; a wait is alone, no other segment holds one, two that are not waits are never neighbours, none is empty except that of an empty block |
| `SplitGraphs.PosInjective` | src/cfg/SplitCFG.cpp:705-786 | different segments are different blocks |
| `SplitGraphs.SplitBlock` | src/cfg/SplitCFG.cpp:705-786 | each split block field by field: id, CFG block, elements, whether it has a wait, and its successors |
| `SplitGraphs.BranchesIff` | src/cfg/SplitCFG.cpp:948-975 | from which split blocks the search recurses: every segment of an if except a later wait, and the first of a loop whose second listed successor is not null |
| `SplitGraphs.LoopBranchesIff` | src/cfg/SplitCFG.cpp:961-975 | a loop header branches if and only if its split block has two successors; it is so exactly unless the header is cut and its second successor is not null |
| `SplitGraphs.SplitKeepsWalks` | src/cfg/SplitCFG.cpp:642-796 | every walk of the CFG becomes a walk of the split graph with the same element sequence |
| `SplitGraphs.SplitAddsNoWalks` | src/cfg/SplitCFG.cpp:642-796 | every walk of the split graph from a first segment to a last one comes from a walk of the CFG |
| `SplitGraphs.SplitShape` | src/cfg/SplitCFG.cpp:705-786 | splitting a thread of the claimed shape gives the shape the search and the code generator rely on, a wait in every cycle included |
| `ExampleThreads.ShapeExists` | src/cfg/SplitCFG.cpp:987-1018 | the claimed shape is that of real threads: an endless loop with an if and a wait has it |
| `ExampleThreads.WhileShapeExists` | src/cfg/SplitCFG.cpp:948-975 | so has an endless loop with its own header, whose second listed successor is null |
| `ExampleThreads.WhileGraph` | src/cfg/SplitCFG.cpp:961-975 | its header has one successor and does not branch |
| `SplitCFGs.SplitCFG.GetUnvisitedSuccessor` | src/cfg/SplitCFG.cpp:472-485 | stops at the first unvisited successor and marks it, or runs out of successors |
| `SplitCFGs.SplitCFG.AddSuccessorToVisitOrPop` | src/cfg/SplitCFG.cpp:454-470 | goes down to the new block unless the parent is a wait, else up; every block below the top has had a successor taken |
| `SplitCFGs.SplitCFG.SetTruePathInfo` | src/cfg/SplitCFG.cpp:385-394 | the first true path of a block is recorded, later ones are not |
| `SplitCFGs.SplitCFG.SetFalsePathInfo` | src/cfg/SplitCFG.cpp:396-406 | the first false path of a block is recorded, later ones are not |
| `SplitCFGs.SplitCFG.CloseTruePath` | src/cfg/SplitCFG.cpp:296-325 | the false index is the end of the path; if no successor is left, the index of the last entry that comes from the last successor listed, or the end if there is none; the true path is recorded if none was |
| `SplitCFGs.SplitCFG.RecordWait` | src/cfg/SplitCFG.cpp:181-194 | a wait seen for the first time is queued in front and gets the next number, in step with the queue |
| `SplitCFGs.SplitCFG.VisitArms` | src/cfg/SplitCFG.cpp:210-366 | one nested search for each unvisited successor, each in its own copy of the visited blocks |
| `SplitCFGs.SplitCFG.DfsVisitWait` | src/cfg/SplitCFG.cpp:127-383 | ends on every graph; unfolds the decision tree from its start and records its path, path information and waits |
| `SplitCFGs.SplitCFG.DfsRework` | src/cfg/SplitCFG.cpp:520-576 | ends on every graph; state k is recorded from the block state k starts at, and next states are those of the waits in the order they were met |
| `SplitCFGs.SplitCFG.GeneratePaths` | src/cfg/SplitCFG.cpp:836-836 | all states are recorded and every numbered wait has its next state |
| `SplitCFGs.SplitCFG.AddNextStatesToBlocks` | src/cfg/SplitCFG.cpp:838-846 | each recorded wait, and no other block, has its next state |
| `States.RunWaitsFound` | src/cfg/SplitCFG.cpp:181-194 | queue and count stay in step through nested searches: first in, first out, and the count is the number of waits met |
| `States.StateNumbering` | src/cfg/SplitCFG.cpp:552-571 | state k+1 is the next state of the k-th wait and of no other, and its path is the search from that wait's successor, or from the wait if it has none |
| `Reachability.PathIsReachable` | src/cfg/SplitCFG.cpp:127-383 | a block with successors is on a state's path if and only if it is reached from the state's start without a wait before it |
| `Reachability.BranchIsSimpleWalk` | src/cfg/SplitCFG.cpp:200-341 | each branch of the tree is a walk without waits inside in which no block comes twice |
| `Reachability.NumberedIffReachable` | src/cfg/SplitCFG.cpp:552-571 | a wait has a state if and only if the thread can reach it from its entry |
| `Encoding.RunTrailFlat` | src/cfg/SplitCFG.cpp:163-176 | what a search appends to the path is the tree in preorder, each fork with the index where its false arm starts |
| `PathIndices.RecordedEntries` | src/cfg/SplitCFG.cpp:163-325 | on any graph, every entry of a state's path: its block, its index, and where its false branch starts; if the false successor was visited before, at the last entry that comes from it |
| `PathIndices.InfoFirst` | src/cfg/SplitCFG.cpp:385-406 | on any graph, what is recorded of the branches of a block: the first true and the first false branch that record anything |
| `PathIndices.SpineIsStraight` | src/cfg/SplitCFG.cpp:127-341 | what an activation records itself is a walk without branches, up to a wait, a branching block or one that leads nowhere new |
| `ExampleThreads.LookBack` | src/cfg/SplitCFG.cpp:306-325 | in `while (true) { if (c) wait(); }` the false index of the if leads back to the start of the path |
| `Encoding.BodyAgrees` | src/cfg/SplitCFG.cpp:200-341 | the tree below a block does not depend on how the search came there |
| `Encoding.RecordedIsEncoding` | src/cfg/SplitCFG.cpp:163-341 | a state's path is the flat form of its whole tree, and the recorded false paths have the lengths the decoder needs |
| `HDLThreads.HDLThread.GetFalseLength` | plugins/hdl/HDLThread.cpp:325-340 | the length of the recorded false path, 0 if there is none |
| `HDLThreads.HDLThread.ProcessHWait` | plugins/hdl/HDLThread.cpp:546-570 | a wait becomes assignments to the next state, or to counter, resume state and wait state, and a return |
| `HDLThreads.HDLThread.ProcessElements` | plugins/hdl/HDLThread.cpp:492-535 | the statements of a block in order, its waits rewritten |
| `HDLThreads.HDLThread.ProcessSplitGraphGroup` | plugins/hdl/HDLThread.cpp:343-360 | a group of the flat path gives the code of the tree it holds, and each of its indices is visited, no other |
| `HDLThreads.HDLThread.ProcessFalseBranch` | plugins/hdl/HDLThread.cpp:474-478 | the false index and the recorded length give just the false arm |
| `HDLThreads.HDLThread.ProcessBranches` | plugins/hdl/HDLThread.cpp:466-488 | the true and the false branch found by index and length are the arms of the fork |
| `HDLThreads.HDLThread.ProcessSplitGraphBlock` | plugins/hdl/HDLThread.cpp:364-544 | a fork gives a nested if statement, any other block its statements |
| `HDLThreads.HDLThread.GenerateWaitCntUpdate` | plugins/hdl/HDLThread.cpp:572-584 | the code of the wait state |
| `HDLThreads.HDLThread.GenerateCases` | plugins/hdl/HDLThread.cpp:76-95 | one case for each path, the code of its tree, and behind them the wait state's case if and only if a block on some path gives a wait with an argument |
| `CodeOrder.TreeSays` | plugins/hdl/HDLThread.cpp:343-544 | read from its beginning to its end the code of a tree has the statements and conditions of its blocks in preorder, and nothing else |
| `ThreadCompilers.CountedWaits` | plugins/hdl/HDLThread.cpp:90-95 | what the states explore needs a wait state if and only if a wait that has a state has an argument |
| `Threads.ExecWait` | plugins/hdl/HDLThread.cpp:546-570 | running the code of a wait sets next state, counter and resume state and ends the clock |
| `Threads.TreeRuns` | plugins/hdl/HDLThread.cpp:364-544 | running the code of a tree is running the thread from its root until it comes to a wait or its end |
| `Fsms.CountedWait` | plugins/hdl/HDLThread.cpp:572-584 | the wait state lasts n+1 clocks, keeps resume state and shadows and then enters the resume state |
| `Fsms.WaitLasts` | plugins/hdl/HDLThread.cpp:546-584 | `wait(n)` stays in the wait state for n+1 clocks, and for n+2^32+1 if n is negative, and is not left earlier |
| `Fsms.ResetZeroes` | plugins/hdl/HDLThread.cpp:603-615 | after a clock with reset the state, the counter, the resume state and every variable are 0, and no variable is lost |
| `Fsms.NoResetTakes` | plugins/hdl/HDLThread.cpp:617-630 | without reset they are what the main method leaves, which is what they were where no code runs |
| `Fsms.ResetInWait` | plugins/hdl/HDLThread.cpp:603-615 | a reset in the middle of a counted wait does the same |
| `Fsms.ClockRuns` | plugins/hdl/HDLThread.cpp:123-130 | a clock in a state does what the thread does from where the state starts until it halts |
| `Refinement.RoundRuns` | plugins/hdl/HDLThread.cpp:546-631 | after the clocks of one wait the machine has the thread's store and the state that goes on from there |
| `Refinement.RunRefines` | plugins/hdl/HDLThread.cpp:586-631 | the same over whole runs |
| `Refinement.FsmRefinesThread` | plugins/hdl/HDLThread.cpp:586-631 | the same from reset, for the thread with all its statements if none are dropped |
| `Refinement.EndedThreadRunsAgain` | plugins/hdl/HDLThread.cpp:123-130 | a thread that ended runs its last state's code again in the next clock |
| `Endings.EndKeptIff` | plugins/hdl/HDLThread.cpp:123-130 | further clocks leave the store of an ended thread, for all meanings, if and only if no way from the state's start to the end passes generated statements |
| `ExampleThreads.EndingThreadRunsOn` | plugins/hdl/HDLThread.cpp:123-130 | the machine for `s0; wait(); s1;` does not leave the store of the ended thread |
| `Exactness.FaithfulIff` | plugins/hdl/HDLThread.cpp:385-489 | a state does what the thread does, for all meanings, if and only if no block on its path holds statements next to a terminator |
| `RunExactness.RunFaithfulIff` | plugins/hdl/HDLThread.cpp:586-631 | over all runs from reset the machine does what the split thread does, for all meanings, if and only if no block it can reach holds statements next to a terminator |
| `RunExactness.ResetRestarts` | plugins/hdl/HDLThread.cpp:586-631 | after a reset in the middle of a counted wait the machine runs the thread from its entry with all variables 0 |
| `CfgThreads.RunSplit` | src/cfg/SplitCFG.cpp:642-796 | the split thread comes to the same waits with the same stores as the thread as written, each at the segment of that very wait |
| `CfgThreads.WaitResumes` | src/cfg/SplitCFG.cpp:181-194 | the block queued for a wait is the one at which the thread as written goes on from it |
| `ThreadExactness.KeptIff` | plugins/hdl/HDLThread.cpp:385-489 | splitting keeps whether a reachable block holds statements next to a terminator |
| `ThreadExactness.ThreadImplemented` | plugins/hdl/HDLThread.cpp:69-130 | the end-to-end statement: along every run from reset, after the clocks its waits take, the machine has the thread's store and its state starts where the thread goes on from the last wait |
| `ThreadExactness.MachineExactIff` | plugins/hdl/HDLThread.cpp:69-130 | the machine does this, and the same in the next clock, for the thread as written and all meanings if and only if no block the thread can reach holds statements next to a terminator |
| `ExampleThreads.DroppingThreadDiffers` | plugins/hdl/HDLThread.cpp:385-489 | a loop with a statement beside its `if` for which the machine differs from the thread |
| `ThreadCompilers.CompileThread` | plugins/hdl/HDLThread.cpp:58-95 | splitting, search and code generation together yield a machine for which the above holds, with one case for each state and one more if and only if a wait that has a state has an argument |
| `Subcases.ContextState.Enter` | externals/doctest/doctest.h:3941-3972 | when a subcase is entered, and when the test has to be run again |
| `Subcases.ContextState.Leave` | externals/doctest/doctest.h:3978-3984 | a subcase is passed if none was skipped |
| `Subcases.ContextState.RunBody` | externals/doctest/doctest.h:3941-3984 | what a run does in one body: nothing, or the way to one leaf, and whether another run is needed |
| `Subcases.ContextState.RunTest` | externals/doctest/doctest.h:6709-6751 | the loop ends; run i enters the subcases on the way to leaf i, one below the other, and nothing else, and there are max(1, leaves) runs |
| `Subcases.PathsAreInChains` | externals/doctest/doctest.h:3941-3972 | every subcase is on the chain to some leaf, and chains hold nothing else |
| `Subcases.LeavesDiffer` | externals/doctest/doctest.h:3941-3972 | no chain is the beginning of another: each leaf is entered in one run |
| `Subcases.PassedIffBefore` | externals/doctest/doctest.h:3960-3966 | a subcase was passed if and only if all its leaves were entered in earlier runs |
| `Wildcards.StarMeans` | externals/doctest/doctest.h:3881-3917 | a star matches any number of characters |
| `Wildcards.NextStar` | externals/doctest/doctest.h:3899-3911 | at a new star the earlier ones need not be tried again |
| `Wildcards.MatchesPlain` | externals/doctest/doctest.h:3888-3903 | a pattern without a star matches character by character: equal ones, any for a question mark, and where case does not matter either case of a letter |
| `Wildcards.MatchesItself` | externals/doctest/doctest.h:3888-3903 | a pattern without wildcards matches itself only, or itself in any case |
| `Wildcards.Wildcmp` | externals/doctest/doctest.h:3883-3917 | ends, and returns whether the pattern describes the string, with or without case |
| `Wildcards.MatchesAny` | externals/doctest/doctest.h:3929-3937 | whether some filter matches, or there are none and that counts |
| `SmallStrings.String.constructor` | externals/doctest/doctest.h:3443-3446 | the empty string |
| `SmallStrings.String.Allocate` | externals/doctest/doctest.h:3417-3433 | room for the bytes with the null behind them, on the heap iff more than 23 |
| `SmallStrings.String.Copy` | externals/doctest/doctest.h:3435-3441 | same contents, nothing shared |
| `SmallStrings.String.FromBytes` | externals/doctest/doctest.h:3417-3459 | contents are the bytes given |
| `SmallStrings.String.CopyOf` | externals/doctest/doctest.h:3435-3465 | same contents, nothing shared |
| `SmallStrings.String.Assign` | externals/doctest/doctest.h:3467-3476 | same contents; assigning a string to itself changes nothing |
| `SmallStrings.String.Append` | externals/doctest/doctest.h:3478-3526 | contents are concatenated in all four cases, on the heap iff longer than 23; the capacity fits a string that moves to the heap, is kept while it is enough, and is then doubled, or made to fit if that wraps around or is too little |
| `SmallStrings.String.Grow` | externals/doctest/doctest.h:3506-3522 | the contents move to a larger block, whose size may have wrapped around when doubled |
| `SmallStrings.String.MoveOf` | externals/doctest/doctest.h:3528-3532 | contents move, the other string becomes empty and shares nothing |
| `SmallStrings.String.MoveAssign` | externals/doctest/doctest.h:3534-3543 | contents move, the other string becomes empty and shares nothing |
| `SmallStrings.Concat` | externals/doctest/doctest.h:3580-3580 | both contents, also of one string twice |
| `MCDMA.SplitJoins` | hardware/app/MCDMA.py:19-24 | the two words of an address are its low 64 bits |
| `MCDMA.ControlReads` | hardware/app/MCDMA.py:63-75 | start, end and the low 26 bits of the length can be read back from a control word |
| `MCDMA.DumpToBuffer` | hardware/app/MCDMA.py:77-120 | the slot holds the descriptor and nothing outside it changes |
| `MCDMA.SGDMAChannel.ConstructDescriptors` | hardware/app/MCDMA.py:188-248 | every slot reads as the descriptor of its block and holds the sideband word, a status of 0 and the five application words as they were given; where the last one is; fails exactly when the number of descriptors is negative |
| `MCDMA.SGDMAChannel.FillRing` | hardware/app/MCDMA.py:215-247 | each word of each slot: both words of both addresses, control, sideband, status and application words |
| `MCDMA.RingWalk` | hardware/app/MCDMA.py:224-226 | following next pointers visits each slot once and returns to the base |
| `MCDMA.RingTiles` | hardware/app/MCDMA.py:224-236 | the blocks read cover the bytes in order without gap or overlap; just the first starts a frame, just the last ends it |
| `MCDMA.LengthsReadIff` | hardware/app/MCDMA.py:63-75 | lengths are read as meant if and only if the first block is shorter than 2^26 |
| `Names.MintedDiffer` | plugins/hdl/hNode.h:504-516 | no two names one map ever mints are the same if no prefix ends in a digit |
| `Names.MintedCanAgree` | plugins/hdl/hNode.h:511-513 | with other prefixes two can be the same |
| `Names.NewnameMap.AddEntry` | plugins/hdl/hNode.h:539-551 | a live key keeps its name, any other gets a new one: its old name, the prefix and the counter in decimal |
| `Names.NewnameMap.SetPrefix` | plugins/hdl/hNode.h:573-573 | the next names have the new prefix; nothing else changes |
| `Names.NewnameMap.InsertAll` | plugins/hdl/hNode.h:594-597 | entries that are there are kept |
| `Names.NewnameMap.FindEntryNewn` | plugins/hdl/hNode.h:552-558 | the name of a key, or the empty string |
| `Names.NewnameMap.Clear` | plugins/hdl/hNode.h:579-579 | names are forgotten and the prefix is that of local names again, the counter goes on |
| `FunctionClosure.FunctionGenerator.VisitCall` | plugins/hdl/HDLBody.cpp:649-658 | which name a call gets, and when a new one is minted: the function's own name, the prefix for functions and a counter |
| `FunctionClosure.FunctionGenerator.FindFname` | plugins/hdl/HDLBody.cpp:1300-1308 | the name in the map of the body or, failing that, of the module |
| `FunctionClosure.FunctionGenerator.RunBody` | plugins/hdl/HDLBody.cpp:75-101 | the calls of a body and their names |
| `FunctionClosure.FunctionGenerator.NameCalls` | plugins/hdl/HDLMain.cpp:496-526 | the calls of one body are named and what they call becomes known; calls of constructors named before have new names that no function has |
| `FunctionClosure.BodyIsNamed` | plugins/hdl/hNode.h:594-599 | in the end call sites have the name their function is generated under, except just those of constructors named before, whose names no function has |
| `FunctionClosure.CallsMisnamed` | plugins/hdl/HDLBody.cpp:649-658 | generating two functions that call one constructor leaves a call by a name that no function has |
| `FunctionClosure.FunctionGenerator.Pass` | plugins/hdl/HDLMain.cpp:388-397 | a pass over the growing map takes up all functions known at its start, and ends |
| `FunctionClosure.FunctionGenerator.GenerateFunction` | plugins/hdl/HDLMain.cpp:394-532 | a function is taken up, generated if it has a body, and what it calls becomes known |
| `FunctionClosure.FunctionGenerator.GenerateFunctions` | plugins/hdl/HDLMain.cpp:370-532 | ends; takes up the least set closed under calls, and generates each function with a body once |
| `AssignmentChains.BuildChain` | plugins/hdl/HDLBody.cpp:1330-1346 | any names and any expression that is no assignment make a chain of nodes that can be normalized |
| `AssignmentChains.NormalizeAssignmentChain` | plugins/hdl/HDLBody.cpp:1330-1346 | the nodes in reverse order, each assigning the variable assigned before it, the first the expression; read as assignments, the list has the meaning of the chain |
| `AssignmentChains.BreakOff` | plugins/hdl/HDLBody.cpp:1337-1342 | one node is broken off in place and the rest of the chain stays as it is |
| `AssignmentChains.ProducedAt` | plugins/hdl/HDLBody.cpp:1330-1346 | which assignment stands at which place of the list |
| `AssignmentChains.NormalizationPreservesMeaning` | plugins/hdl/HDLBody.cpp:1330-1346 | the list does what the chain does, for repeated variables and converting types too |
| `TypeTrees.Tree.AddEdge` | src/Tree.h:148-164 | the newest child comes first; an unknown parent changes nothing |
| `TypeTrees.Tree.AddNode` | src/Tree.h:141-146 | a new node has no children |
| `TypeTrees.EdgeAddsChild` | src/Tree.h:148-164 | an edge at any node of a tree makes another tree the last child of that node |
| `TypeTrees.BuiltIsForest` | src/matchers/FindTemplateTypes.cpp:73-115 | after any sequence of additions of nodes and edges that leads to trees the adjacency lists hold just these trees |
| `TypeTrees.ForestTree` | src/matchers/FindTemplateTypes.cpp:73-115 | each tree built so can be traversed and generated |
| `TypeTrees.Tree.Dft` | src/Tree.h:205-256 | visits the nodes in preorder, children in the order they were added, and records them the first time |
| `TypeTrees.Tree.GenerateType` | plugins/hdl/HDLType.cpp:93-129 | the type with its arguments in the order they were added; at a built-in or user-defined type just the name it is generated under, and nothing below it |
| `TypeTrees.SameOrder` | plugins/hdl/HDLType.cpp:122-128 | the recursion and the explicit stack give the types in the same order |
| `TypeTrees.PrunedOrderIff` | plugins/hdl/HDLType.cpp:108-121 | the recursion generates all nodes the traversal visits if and only if no built-in or user-defined type has children |
| `HcodeText.Str2HdlOpEnum` | plugins/hdl/hNode.h:179-186 | the first operation with that name, and the last of all if there is none |
| `HcodeText.WordsOfPrint` | plugins/hdl/hNode.h:188-208 | the words of the printed text are the tokens of the tree |
| `HcodeText.PrintIsLines` | plugins/hdl/hNode.h:188-208 | the text line by line: one for each node and each closing bracket, indented two spaces a level |
| `HcodeText.ReadTokens` | plugins/hdl/hNode.h:188-208 | a reader recovers the tree from its tokens |
| `HcodeText.PrintedIsReadIff` | plugins/hdl/hNode.h:188-208 | a reader recovers just the printed tree if and only if no name holds white space or is NONAME |

## Left out

The thread compiler:

- Parsing and Clang's AST: a CFG is given, its statements and conditions are opaque.
- Conditional operators: `identifyConfluenceBlocks`, `identifySkipBlocks` and the handling of confluence blocks in the code generator.
- `switch`, `goto`, `&&` and `||` terminators: they are `OtherTerm`, and a block with one has at most one successor in the refinement theorems.
- The sub-expressions that Clang lists as elements of a block although they belong to its condition: they are not counted among its statements.
- Predecessor lists, `identifyBreaks`, `addPathToSpecialNode` and all dumps: nothing the generated code depends on.
- `SGVisited` and the second visit to a declaration: declarations are statements like others.
- Arguments of `wait` that are not constants, and `wait` with two arguments: an argument is a number or absent.
- The hcode of a block's statements, variable renaming and the lists of declarations: `Hcodes.Do` stands for them.
- Code nodes are values: lists are returned where the code appends to a node it was passed.  What two nodes that share a child would do is not modelled.
- Next states are kept in a map beside the blocks instead of a field in each; the builder and the search are two classes that share the graph.
- The text of the main and the update method: `Fsms.MainMethod` and `Fsms.StateUpdate` say what they do.

The other parts:

- Subcases: filters, exceptions, `abort_after` and reporters.
- `Wildcards.ToLower` is that of the C locale.
- Strings: comparison, streams, indexing, and appending a string to itself.  Freed memory is not tracked, only that two strings never own the same block.
- MCDMA: registers, channels, start and wait; how the sideband word is packed (it is a parameter); a failing allocation.
- Function generation: parameters, return types and method objects; overridden methods; functions called only from the initialisation of modules.
- Names: the bit that says a variable was referenced.
- Type trees: how `checkusertype` finds and names user-defined types (`stops` holds its answers); edges to nodes that were never added; `bft`.
- hcode text: null children.
- Assignment chains: splicing the list into the surrounding block.
- The Verilog translator, the command-line drivers and the legacy `src/SCuitable` analysis.
