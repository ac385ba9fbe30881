# A verified model of PFQ

PFQ moves packets between network devices, the kernel and user programs. This project models the parts of it
whose correctness is not visible from one function, and proves what they are meant to guarantee.

**The filter compiler** (`Bpf`, `FlowGraph`, `Sets`, `Seqs`, `Linearize`, `Intern`, `Dataflow`, `Passes`, `Liveness`, `Values`,
`ValueTable`, `ValueNumbering`, `Pipeline`). A BPF filter is an acyclic graph of blocks. `Bpf.Run` interprets the array form and
`FlowGraph.Walk` the graph form. On top of them: levelling, dominators, edge dominators, closure and liveness as in-place
sweeps, proved exact against paths; value numbering through a hash table, proved sound along every path; dead-store
removal; merging of equal blocks; and linearisation with 8-bit branch offsets and retried long jumps, proved to preserve
the verdict of every packet. `Pipeline` puts passes together.

**The shared queues** (`RxQueue`, `RxTraces`, `TxQueue`, `TxTraces`, `Mpsc`). Each is a system of atomic steps; the theorems hold
after every step of every interleaving, across any number of counter wraps. A run can be given with its actions: then what
was queued and what was received is a function of the actions alone. Uninterrupted operations are put together from the
steps and proved to do what their callers expect.

**The signature scanner** (`Signature`). PFQ/lang types are compared and projected as text; the lemmas relate every
operation to the type that the text denotes, whatever its redundant brackets and blanks.

**Transmission and groups** (`TxFlush`, `LazyForward`, `Groups`). Conservation of packets and references in a flush, exact
counts and cloning in lazy forwarding, and an invariant of the group table and the device map over every sequence of
operations.

A step system keeps a few fields marked as history (which swap a reservation belongs to, what was reserved in each epoch).
No step reads them; they only let the theorems speak about what happened.

Where the code does not meet the expected property the model keeps the code, shows a failing input and proves when the
property holds:

- `RxQueue.WriteInsideIff`, failing at `RxQueue.OverflowLies`: the guard admits index `queue_size`.
- `Liveness.LeafSoundIff` and `Liveness.LivenessIff`: the use-def code does not count what a return reads.
- `Liveness.CleanedMeans` and `Liveness.AcceptedKept`, failing at `Liveness.DeadLoadChangesVerdict`: a dead load may have rejected.
- `Values.StepSoundIff` and `Values.LengthLoadIff`, failing at `Values.UnknownReadIsUnsound` and `Values.LdxLenIsUnsound`:
  unknown registers, and the length load into X.
- `Values.RejectKeptIff`, failing at `Values.LostRejection`: a register division rewritten because of a constant.
- `Pipeline.NumberThenClean` and `Pipeline.StaleIff`, failing at `Pipeline.StaleNumberChangesVerdict`: a pass keeps the number
  of a register whose store it removes.
- `Pipeline.JsetOnesIff`: a branch on any bit is not a branch always taken.
- `Signature.EqualSelfIff`, failing at `Signature.EmptyRepeats`: empty components.
- `Groups.JoinKeepsIff`: a first join without a class or a policy.

## Model

| member | source | states |
|---|---|---|
| `Bpf.ExecAllAppend` | user/libpcap/libpcap-1.3.0/bpf/net/bpf_filter.c:244-530 | running two statement lists one after the other is running their concatenation, rejections and undefined steps included |
| `FlowGraph.Levels` | user/libpcap/libpcap-1.3.0/optimize.c:234-255 | the length of the longest walk out of a block strictly decreases along every edge |
| `FlowGraph.MakeMarks` | user/libpcap/libpcap-1.3.0/optimize.c:1788-1799 | marking from a block adds only blocks below it and leaves the new ones closed under edges |
| `FlowGraph.MarkCode` | user/libpcap/libpcap-1.3.0/optimize.c:1805-1811 | the marked blocks are exactly those reachable from the root |
| `Linearize.Slength` | user/libpcap/libpcap-1.3.0/optimize.c:1907-1917 | the count is the number of statements left once deleted ones are skipped |
| `Linearize.CodeGen.CountStmts` | user/libpcap/libpcap-1.3.0/optimize.c:1973-1984 | counting adds the cells of exactly the blocks it newly marks, long jumps included |
| `Linearize.CodeGen.EmitStmts` | user/libpcap/libpcap-1.3.0/optimize.c:2110-2196 | the live statements are stored in order from the given cell, and no other cell changes |
| `Linearize.CodeGen.EmitTerm` | user/libpcap/libpcap-1.3.0/optimize.c:2197-2241 | both branches land on the first cell of their block, directly below 256 or over a long jump; on failure exactly one more long flag is set |
| `Linearize.CodeGen.EmitBlock` | user/libpcap/libpcap-1.3.0/optimize.c:2105-2241 | a block is laid out just below the cells already used and the layout stays a tiling of the array |
| `Linearize.CodeGen.ConvertCode` | user/libpcap/libpcap-1.3.0/optimize.c:2090-2242 | depth-first conversion places every block below it exactly once, successors first |
| `Linearize.CodeGen.Attempt` | user/libpcap/libpcap-1.3.0/optimize.c:2275-2290 | an attempt fills its array exactly with the root at offset 0, or raises one more long flag |
| `Linearize.RaisedCounts` | user/libpcap/libpcap-1.3.0/optimize.c:2205-2241 | every failed attempt sets exactly one more flag, and there are at most two per block |
| `Linearize.TilesOrdered` | user/libpcap/libpcap-1.3.0/optimize.c:2105-2115 | of two placed blocks the later one, with all its cells, lies before the earlier one in the array |
| `Linearize.LiveRuns` | user/libpcap/libpcap-1.3.0/optimize.c:1907-1917 | skipping deleted statements does not change what a list does |
| `Linearize.PlacedMeans` | user/libpcap/libpcap-1.3.0/optimize.c:2090-2242 | running the array from the first cell of any placed block gives the verdict of walking the graph from it |
| `Linearize.RootMeans` | user/libpcap/libpcap-1.3.0/optimize.c:2263-2293 | running the array from index 0 gives the verdict of the graph for every packet and register state |
| `Linearize.CodeGen.IcodeToFcode` | user/libpcap/libpcap-1.3.0/optimize.c:2263-2293 | the returned array means the same as the graph, tiles exactly with the root at 0, and at most two attempts per block fail |
| `Intern.EqSlist` | user/libpcap/libpcap-1.3.0/optimize.c:1817-1835 | true exactly when the lists agree once deleted statements are skipped |
| `Intern.EqBlk` | user/libpcap/libpcap-1.3.0/optimize.c:1837-1847 | true exactly when terminators, successors and live statements agree |
| `Intern.EqualWalks` | user/libpcap/libpcap-1.3.0/optimize.c:1837-1847 | blocks found equal give every packet the same verdict |
| `Intern.FindTwin` | user/libpcap/libpcap-1.3.0/optimize.c:1866-1874 | a block is linked to a later live block equal to it that is not linked itself, or to nothing if there is none |
| `Intern.FindLinks` | user/libpcap/libpcap-1.3.0/optimize.c:1857-1875 | every link leads from a live block to an equal one that carries no link |
| `Intern.RedirectEdges` | user/libpcap/libpcap-1.3.0/optimize.c:1876-1888 | every edge is redirected through the links in place, and it reports whether nothing changed |
| `Intern.RedirectedAcyclic` | user/libpcap/libpcap-1.3.0/optimize.c:1876-1888 | equal blocks are at equal levels, so redirection creates no cycle |
| `Intern.RedirectedMeans` | user/libpcap/libpcap-1.3.0/optimize.c:1849-1891 | one round preserves the verdict from every block |
| `Intern.RootNotLinked` | user/libpcap/libpcap-1.3.0/optimize.c:1849-1891 | the root is never merged away, because the graph is acyclic |
| `Intern.SurvivorsClosed` | user/libpcap/libpcap-1.3.0/optimize.c:1876-1888 | after redirection linked blocks are unreachable |
| `Intern.SurvivorsFewer` | user/libpcap/libpcap-1.3.0/optimize.c:1876-1890 | an unfinished round strictly reduces the reachable blocks |
| `Intern.NoLinksLeft` | user/libpcap/libpcap-1.3.0/optimize.c:1876-1890 | if no edge had to be redirected there was no link at all |
| `Intern.InternBlocks` | user/libpcap/libpcap-1.3.0/optimize.c:1849-1891 | the pass terminates, keeps every verdict from every block, and leaves no two live blocks equal |
| `Passes.LevelTable.FindLevelsR` | user/libpcap/libpcap-1.3.0/optimize.c:234-255 | every block below gets its level and stands exactly once in that level's list |
| `Passes.LevelTable.FindLevels` | user/libpcap/libpcap-1.3.0/optimize.c:263-270 | the lists hold exactly the reachable blocks and every edge leads to a strictly lower level |
| `Passes.LevelChain` | user/libpcap/libpcap-1.3.0/optimize.c:234-255 | a block at level l sits on a chain of l+1 distinct blocks, so levels fit the table |
| `Dataflow.DominatesStep` | user/libpcap/libpcap-1.3.0/optimize.c:276-305 | the dominators of a node are itself and what dominates all its reached predecessors |
| `Dataflow.DomVisit` | user/libpcap/libpcap-1.3.0/optimize.c:295-304 | one in-place visit keeps each set equal to what the visited predecessors allow |
| `Dataflow.ClosureVisit` | user/libpcap/libpcap-1.3.0/optimize.c:352-375 | one in-place visit keeps each set equal to the ancestors through visited nodes |
| `Passes.FindDom` | user/libpcap/libpcap-1.3.0/optimize.c:276-305 | each live block's set holds precisely the blocks on every path from the root to it |
| `Passes.Propedom` | user/libpcap/libpcap-1.3.0/optimize.c:307-316 | an edge joins its own set, which is intersected into both edges that follow it |
| `Passes.FindEdom` | user/libpcap/libpcap-1.3.0/optimize.c:322-343 | each edge's set holds precisely the edges on every root path through it |
| `Passes.FindClosure` | user/libpcap/libpcap-1.3.0/optimize.c:352-375 | each live block's set holds precisely its ancestors and itself |
| `Passes.SeenBlock` | user/libpcap/libpcap-1.3.0/optimize.c:295-304 | when a level is swept, every path predecessor of its blocks has been visited |
| `Liveness.ExecLocal` | user/libpcap/libpcap-1.3.0/optimize.c:383-453 | what a statement does depends only on the atom it is said to use, and changes only the atom it is said to define |
| `Liveness.UnusedNotRead` | user/libpcap/libpcap-1.3.0/optimize.c:383-432 | changing a register a statement is not said to use changes nothing it does |
| `Liveness.UsedIsRead` | user/libpcap/libpcap-1.3.0/optimize.c:383-432 | for every register a code is said to use there are an operand, a state and a packet on which it matters |
| `Liveness.BranchReads` | user/libpcap/libpcap-1.3.0/optimize.c:425-431 | a branch is said to use exactly the registers that can send it the other way |
| `Liveness.ComputeLocalUd` | user/libpcap/libpcap-1.3.0/optimize.c:466-523 | def, kill and in_use of a block together are its backward transfer of live registers |
| `Liveness.FindUd` | user/libpcap/libpcap-1.3.0/optimize.c:528-552 | the in-place sweeps leave in_use and out_use of every live block equal to the path-independent liveness |
| `Liveness.LivenessSound` | user/libpcap/libpcap-1.3.0/optimize.c:528-552 | if every leaf returns a constant or mentions the accumulator, states that agree on in_use give the same verdict from that block, even on runs that reject |
| `Liveness.LeafSoundIff` | user/libpcap/libpcap-1.3.0/optimize.c:540-551 | for any leaf the guarantee holds exactly when it returns a constant or one of its statements reads or writes the accumulator |
| `Liveness.LivenessIff` | user/libpcap/libpcap-1.3.0/optimize.c:528-552 | the guarantee holds from every block exactly when every leaf meets that condition |
| `Liveness.UseExact` | user/libpcap/libpcap-1.3.0/optimize.c:528-552 | under that condition in_use and out_use are the live registers with the reads of returns counted |
| `Liveness.RealSound` | user/libpcap/libpcap-1.3.0/optimize.c:528-552 | states that agree on the registers really live give the same verdict, whatever the leaves |
| `Liveness.DeadStmt` | user/libpcap/libpcap-1.3.0/optimize.c:1168-1192 | every earlier store is pending, was read, or is deleted, and only dead ones are deleted |
| `Liveness.OptDeadstores` | user/libpcap/libpcap-1.3.0/optimize.c:1194-1213 | exactly the stores that no later statement, branch or successor reads before they are overwritten are deleted, in place |
| `Liveness.DeadRemovedRuns` | user/libpcap/libpcap-1.3.0/optimize.c:1194-1213 | if no deleted statement rejects or is undefined on the run, the list without them ends alike, rejecting and undefined runs included, and leaves the live registers unchanged |
| `Liveness.CleanedAcyclic` | user/libpcap/libpcap-1.3.0/optimize.c:1194-1213 | removal leaves the graph acyclic |
| `Liveness.CleanedMeans` | user/libpcap/libpcap-1.3.0/optimize.c:1168-1213 | removal in all blocks keeps the verdict of every run on which no deleted statement rejects or is undefined |
| `Liveness.CoveredIsCleaned` | user/libpcap/libpcap-1.3.0/optimize.c:1208-1212 | removal may use any live-out sets that cover the real ones, those of find_ud if the leaves are fine |
| `Liveness.DisturbedRun` | user/libpcap/libpcap-1.3.0/optimize.c:1168-1213 | on every other run the original rejects or is undefined |
| `Liveness.AcceptedKept` | user/libpcap/libpcap-1.3.0/optimize.c:1168-1213 | hence no accepted packet is lost or answered differently, whatever is removed |
| `Liveness.TotalCleanedMeans` | user/libpcap/libpcap-1.3.0/optimize.c:1168-1213 | if nothing deleted is a packet load, a register division or possibly undefined, every run keeps its verdict |
| `Liveness.DeadLoadChangesVerdict` | user/libpcap/libpcap-1.3.0/optimize.c:1168-1192 | on a rejecting run it may not: removing a dead load past the packet accepts it |
| `Values.NumberExact` | user/libpcap/libpcap-1.3.0/optimize.c:593-625 | numbers are equal exactly when code and operands are |
| `Values.EnterSound` | user/libpcap/libpcap-1.3.0/optimize.c:593-625 | looking a node up keeps operands older than nodes and the number means what the node means |
| `Values.VstoreOk` | user/libpcap/libpcap-1.3.0/optimize.c:627-638 | storing a number that means the value written keeps all numbers sound, whether or not the statement is deleted |
| `Values.FoldOk` | user/libpcap/libpcap-1.3.0/optimize.c:640-695 | folding two constants computes what the machine computes |
| `Values.OptStmtSound` | user/libpcap/libpcap-1.3.0/optimize.c:980-1166 | on sound numbers that are good enough for it, a statement that runs is rewritten to one that does the same, and numbers stay sound |
| `Values.StepSoundIff` | user/libpcap/libpcap-1.3.0/optimize.c:980-1166 | given one described state in which the statement runs, the step is right from all described states exactly under a condition on the numbers, spelled out for every code |
| `Values.LengthLoadIff` | user/libpcap/libpcap-1.3.0/optimize.c:980-1166 | a length load into X, which no case handles, is harmless exactly when X is unknown or its number means the length |
| `Values.RejectKeptIff` | user/libpcap/libpcap-1.3.0/optimize.c:980-1166 | a statement that rejects still does after rewriting, exactly unless it is a register division rewritten because of a known constant |
| `Values.LostRejection` | user/libpcap/libpcap-1.3.0/optimize.c:1108-1121 | zero divided by an X of zero is such a division: the rewritten statement goes on |
| `Values.AbandonIff` | user/libpcap/libpcap-1.3.0/optimize.c:663-665 | the pass stops exactly on a division of a known constant by the constant zero |
| `Values.SameNumberAgain` | user/libpcap/libpcap-1.3.0/optimize.c:980-1166 | a value computed again from registers with the same numbers gets the same number, however much was numbered in between |
| `Values.DeletedIff` | user/libpcap/libpcap-1.3.0/optimize.c:980-1166 | with alter set exactly the redundant statements are deleted: loads and moves of the number the register has, and operations that cannot change the accumulator |
| `Values.ConstantsDropped` | user/libpcap/libpcap-1.3.0/optimize.c:980-1166 | a rewritten statement no longer reads a register known to be constant, except in moves and as a constant accumulator next to an unknown X |
| `Values.ConstantsFold` | user/libpcap/libpcap-1.3.0/optimize.c:980-1166 | what is computed from constants alone is numbered as a constant |
| `Values.NumbersUsed` | user/libpcap/libpcap-1.3.0/optimize.c:2057-2067 | a statement takes at most two new numbers |
| `Values.OptStmtsSound` | user/libpcap/libpcap-1.3.0/optimize.c:1236-1268 | a whole list is rewritten to one that ends alike, rejecting runs included, and sound numbers stay sound, if nothing is undefined and no rewritten division meets zero |
| `Values.KnownIfLive` | user/libpcap/libpcap-1.3.0/optimize.c:980-1166 | if the registers live on entry are known, every statement reads known registers |
| `Values.KnownThrough` | user/libpcap/libpcap-1.3.0/optimize.c:980-1166 | a register known on entry or written by the list is known after it, and one not written keeps its number |
| `Values.UnknownReadIsUnsound` | user/libpcap/libpcap-1.3.0/optimize.c:627-638 | reading a register numbered 0 can delete a needed load |
| `Values.LdxLenIsUnsound` | user/libpcap/libpcap-1.3.0/optimize.c:980-1166 | a length load into X keeps the old number, which then lies |
| `ValueTable.Table.F` | user/libpcap/libpcap-1.3.0/optimize.c:593-625 | chains, node array and constant map together refine the list of distinct nodes |
| `ValueTable.Table.K` | user/libpcap/libpcap-1.3.0/optimize.c:572-573 | the number of a constant is the number of its immediate-load node |
| `ValueTable.FoldM` | user/libpcap/libpcap-1.3.0/optimize.c:640-695 | folding through the real table does what the specification does |
| `ValueTable.OptStmtM` | user/libpcap/libpcap-1.3.0/optimize.c:980-1166 | the whole switch over the real table refines the specified rewriting and uses at most two new numbers |
| `ValueNumbering.OptBlkStmts` | user/libpcap/libpcap-1.3.0/optimize.c:1265-1268 | the statement loop equals the list specification and stays within the numbers counted for the block |
| `ValueNumbering.MergeEntry` | user/libpcap/libpcap-1.3.0/optimize.c:1236-1264 | a register keeps its number on entry exactly when all predecessors agree on it |
| `ValueNumbering.EntryTaken` | user/libpcap/libpcap-1.3.0/optimize.c:1236-1264 | after the pass, a number all live predecessors of a block leave for a register is the number on its entry |
| `ValueNumbering.FindInedges` | user/libpcap/libpcap-1.3.0/optimize.c:1681-1701 | each live block's list holds exactly the edges that lead to it |
| `ValueNumbering.VisitBlock` | user/libpcap/libpcap-1.3.0/optimize.c:1216-1268 | a block starts from exactly what its live predecessors agree on, is numbered and rewritten by the specified pass over its statements, or the pass stops there |
| `ValueNumbering.OptBlks` | user/libpcap/libpcap-1.3.0/optimize.c:1633-1647 | one pass numbers and rewrites every live block with fewer than the 3 * max_stmts numbers allocated, and stops only where the numbers it has make it divide by the constant zero |
| `ValueNumbering.PathSound` | user/libpcap/libpcap-1.3.0/optimize.c:1215-1314 | at the end of every path from the root the rewritten blocks have done the same, rejecting paths included, and a non-zero number equals the register's real value |
| `ValueNumbering.RewrittenMeans` | user/libpcap/libpcap-1.3.0/optimize.c:1633-1647 | the rewritten graph gives the same verdict from any block, rejecting runs included, unless something is undefined or a rewritten division meets zero |
| `ValueNumbering.PassMeans` | user/libpcap/libpcap-1.3.0/optimize.c:1633-1647 | the same from the root, whatever the registers hold |
| `ValueNumbering.SelfContainedKnown` | user/libpcap/libpcap-1.3.0/optimize.c:1215-1314 | reads are known throughout when no block uses a register it did not set |
| `ValueNumbering.CertifiedReadable` | user/libpcap/libpcap-1.3.0/optimize.c:1236-1268 | if each register a block reads before writing comes from one and the same block on all ways in, the pass reads known numbers only |
| `ValueNumbering.CertifiedMeans` | user/libpcap/libpcap-1.3.0/optimize.c:1216-1300 | and so it keeps the verdict of every such graph on every run without a rewritten division by zero |
| `ValueNumbering.BudgetFits` | user/libpcap/libpcap-1.3.0/optimize.c:2055-2067 | three numbers per statement and block end suffice for the whole pass |
| `Pipeline.BackEnd` | user/libpcap/libpcap-1.3.0/gencode.c:464-470 | merging equal blocks and laying the result out gives an array with the verdicts of the original graph |
| `Pipeline.OptStmtsValid` | user/libpcap/libpcap-1.3.0/optimize.c:980-1166 | rewriting keeps scratch-memory accesses in range |
| `Pipeline.NumberThenClean` | user/libpcap/libpcap-1.3.0/optimize.c:1267-1302 | one pass of numbering, then removal with the live-out sets found before it, keeps the verdict, rejecting runs included, if no removed pending store leaves its number to a successor that mentions the register again |
| `Pipeline.NumberThenCleanAccepts` | user/libpcap/libpcap-1.3.0/optimize.c:1267-1302 | under that guard every accepted packet keeps its verdict |
| `Pipeline.DeadStays` | user/libpcap/libpcap-1.3.0/optimize.c:1236-1268 | a register unknown and dead on entry of a block is still dead there after rewriting |
| `Pipeline.StoredOnceSuffices` | user/libpcap/libpcap-1.3.0/optimize.c:1208-1212 | the guard follows from the graph and its live-out sets alone: a register stored in a block and dead at its end is not mentioned below |
| `Pipeline.StaleIff` | user/libpcap/libpcap-1.3.0/optimize.c:1208-1212 | without the guard, exactly: once the only store of an unknown register is gone, the number left for it is right from all described states iff it is 0 |
| `Pipeline.StaleNumberChangesVerdict` | user/libpcap/libpcap-1.3.0/optimize.c:1208-1212 | an input: a sound pass that removes only stores dead before it turns an accepted packet into a rejected one |
| `Pipeline.JsetOnesIff` | user/libpcap/libpcap-1.3.0/optimize.c:920-925 | taking jset #0xffffffff as always true keeps the verdict of a run that gets there exactly when the accumulator is not zero or both branches give the same verdict |
| `RxQueue.ReserveTiles` | kernel/pf_q-shared-queue.c:77-86 | a reservation starts exactly where the previous one of its epoch ended |
| `RxQueue.ReservationsTile` | kernel/pf_q-shared-queue.c:77-86 | over every run, in bounds or not: the reservations of an epoch are pairwise disjoint, cover every slot of [0, LEN) and nothing else |
| `RxQueue.WordKept` | kernel/linux/pf_q.h:75-76 | every step, in bounds or not, keeps index and length in their own bits of the word |
| `RxQueue.WordNeverCarries` | kernel/pf_q-shared-queue.c:77-86 | over every run with queue_size + 64 N < 2^24 the length never carries into the index |
| `RxQueue.ReserveStep` | kernel/pf_q-shared-queue.c:77-86 | a check, add and new reservation keep the queue's invariant |
| `RxQueue.FillStep` | kernel/pf_q-shared-queue.c:94-149 | filling a slot touches no slot another producer or the reader relies on |
| `RxQueue.CommitStep` | kernel/pf_q-shared-queue.c:151-167 | a commit byte is set only on a slot completely written in its epoch |
| `RxQueue.ResetSlotStep` | user/C/libpfq.c:923-932 | the reset at indices 255 and 0 writes only the half nobody uses |
| `RxQueue.SwapStep` | user/C/libpfq.c:945-957 | after a swap no slot of the new half carries the new index, across the wrap at 256 |
| `RxQueue.DrainDoneStep` | user/C/libpfq.c:975-996 | once drained, a half has no producer left and only past indices |
| `RxQueue.StepKept` | kernel/pf_q-shared-queue.c:61-171 | every step that stays within queue_size keeps the invariant |
| `RxQueue.RunInv` | user/C/libpfq.c:908-957 | the invariant holds after every step of every interleaving in bounds, over any number of wraps |
| `RxQueue.CommitNeverLies` | user/C/pfq.h:116-125 | a slot carries the reader's index exactly when it was completely written in exactly that epoch, and then holds that epoch's packet |
| `RxQueue.RunCommit` | user/C/pfq.h:116-125 | the same at every moment of every run in bounds |
| `RxQueue.ReceivesInOrder` | user/C/libpfq.c:975-996 | what the reader receives is a prefix of all reservations in order; between reads it is all of the past epochs |
| `RxQueue.WriteInsideIff` | kernel/pf_q-shared-queue.c:94-111 | a slot passes the guard iff its index is at most queue_size, and lies in its half iff it is below |
| `RxQueue.OverflowLies` | kernel/pf_q-shared-queue.c:94-111 | a reachable state in which a write at index queue_size replaced a committed packet of the next epoch |
| `RxTraces.RunTold` | kernel/pf_q-shared-queue.c:77-167 | over every run, in bounds or not, the actions alone tell what each epoch reserved, what each producer has committed and how much was delivered |
| `RxTraces.CheckIff` | kernel/pf_q-shared-queue.c:77-80 | a burst is admitted exactly when at most queue_size slots are reserved since the last swap; a refused one changes nothing |
| `RxTraces.RunCheckIff` | kernel/pf_q-shared-queue.c:77-80 | the same over every run, with the bursts reserved since the last swap read off the actions |
| `RxTraces.ReceivesAdmitted` | user/C/libpfq.c:908-996 | what the reader has received are the first packets of the admitted bursts, one for each delivery; between reads only the bursts since the last swap are missing |
| `RxTraces.WritesAll` | kernel/pf_q-shared-queue.c:88-167 | a producer left alone writes and commits its whole burst and disturbs nobody |
| `RxTraces.EnqueueWhole` | kernel/pf_q-shared-queue.c:61-171 | an enqueue that fits and is not interrupted adds exactly its burst, completely written |
| `RxTraces.LoadIff` | user/C/libpfq.c:919-943 | a read resets slots exactly at indices 255 and 0 and gives up exactly when nothing is reserved |
| `RxTraces.ResetStamps` | user/C/libpfq.c:923-932 | the reset stamps every slot of the half out of use with the parity of the index, and nothing else |
| `RxTraces.SwapTakes` | user/C/libpfq.c:945-957 | a swap takes what was reserved, at most queue_size slots, and starts the next index with length 0 |
| `RxTraces.DeliverIff` | user/C/pfq.h:116-125 | a slot is delivered exactly when it is completely written, and what is delivered is its packet |
| `RxTraces.ReadWhole` | user/C/libpfq.c:908-996 | a read that is not interrupted delivers the batch in order up to the first slot not yet written, or comes back empty if nothing is reserved |
| `RxTraces.EnqueueThenRead` | user/C/libpfq.c:908-996 | with nobody else at work, what is enqueued is what the next read returns behind what was waiting |
| `TxQueue.Exclusive` | user/C/libpfq.c:1057-1091 | at every reachable moment producer and thread touch words of different halves |
| `TxQueue.WordsFewest` | kernel/pf_q-transmit.c:278 | a packet's bytes take the fewest 8-byte words that hold them |
| `TxQueue.WalkInside` | kernel/pf_q-transmit.c:206-218 | the walk stands on the next accepted packet, whole and inside the half, or on the terminator |
| `TxQueue.StoreStep` | user/C/libpfq.c:1059-1063 | acknowledging a swap moves the producer to an empty half and leaves the other complete |
| `TxQueue.PlaceStep` | user/C/libpfq.c:1065-1074 | the write pointer restarts exactly when the index changed, also when 32-bit counters wrap |
| `TxQueue.AcceptIff` | user/C/libpfq.c:1065-1090 | an injection is accepted exactly when it fits with a terminator behind those accepted since the last swap |
| `TxQueue.Terminated` | user/C/libpfq.c:1076-1085 | a written packet followed by a zero length extends the framed packets by exactly that one |
| `TxQueue.FinishStep` | user/C/libpfq.c:1076-1091 | completing an injection keeps the invariant |
| `TxQueue.WakeIff` | kernel/pf_q-transmit.c:184-191 | the wait ends exactly when the producer has acknowledged the swap, also across counter wraps |
| `TxQueue.WakeStep` | kernel/pf_q-transmit.c:184-207 | the thread goes on only when the producer has left the half it will walk |
| `TxQueue.ReadStep` | kernel/pf_q-transmit.c:215-278 | each round of the walk takes the next accepted packet |
| `TxQueue.StopStep` | kernel/pf_q-transmit.c:218 | the walk stops only when the whole half has been taken |
| `TxQueue.ClearStep` | kernel/pf_q-transmit.c:326-329 | clearing the first header empties the half for its next use |
| `TxQueue.RunInv` | kernel/pf_q-transmit.c:184-329 | the invariant holds after every step of every interleaving, over any number of wraps |
| `TxQueue.WalksInOrder` | kernel/pf_q-transmit.c:184-329 | the packets walked over all swaps are a prefix, in order, of the accepted injections |
| `TxQueue.RunExclusive` | kernel/pf_q-transmit.c:184-329 | over every run the sides never touch the same word, and the walk ends at a terminator inside its half |
| `TxTraces.RunTold` | user/C/libpfq.c:1057-1091 | over every run the actions alone tell what was accepted, into which half, and how much was walked |
| `TxTraces.PlaceIff` | user/C/libpfq.c:1065-1080 | a packet that fits is written as offered, right behind those accepted in the half; any other is refused |
| `TxTraces.RunPlaceIff` | user/C/libpfq.c:1065-1080 | the same over every run, with the packets already in the half read off the actions |
| `TxTraces.WalksInjected` | kernel/pf_q-transmit.c:184-329 | what the thread has walked are the first packets injected, one for each step of its walks |
| `TxTraces.InjectWhole` | user/C/libpfq.c:1057-1091 | an injection that is not interrupted follows the last swap and adds exactly its packet if it fits, otherwise nothing |
| `TxTraces.ReadIff` | kernel/pf_q-transmit.c:215-278 | the walk goes on exactly while packets of its half are left and takes the next one |
| `TxTraces.WalkWhole` | kernel/pf_q-transmit.c:206-329 | a walk takes all its half holds, in order, and leaves it cleared |
| `TxTraces.FlushWhole` | kernel/pf_q-transmit.c:159-329 | a flush answered by one injection sends all packets accepted before, and the new one waits in the other half |
| `Mpsc.InitInv` | kernel/pf_q-skbuff-mpsc.h:39-53 | a new queue holds its stub alone |
| `Mpsc.ExchangeStep` | kernel/pf_q-skbuff-mpsc.h:72-81 | after the head exchange the list is broken exactly behind the former head |
| `Mpsc.LinkStep` | kernel/pf_q-skbuff-mpsc.h:79 | linking repairs exactly that break |
| `Mpsc.TakeStep` | kernel/pf_q-skbuff-mpsc.h:84-97 | the popped node was linked, and its successor becomes the tail |
| `Mpsc.RunInv` | kernel/pf_q-skbuff-mpsc.h:39-97 | the invariant holds after every step of every interleaving |
| `Mpsc.PopsInOrder` | kernel/pf_q-skbuff-mpsc.h:39-97 | popped nodes followed by held ones are the stub and the pushed buffers in order of exchange; none is held twice and the newest is held back |
| `Mpsc.PopIff` | kernel/pf_q-skbuff-mpsc.h:84-97 | a pop is empty exactly when only the newest is held or the next link is still missing |
| `Mpsc.ExchangeIs` | kernel/pf_q-skbuff-mpsc.h:72-81 | the exchange makes the buffer the head and the last in order, and the link behind the former head is still to be set |
| `Mpsc.PopsPushed` | kernel/pf_q-skbuff-mpsc.h:39-97 | over every run: the pops return the stub and then the pushed buffers, one for each exchange and in that order; the others are held |
| `Mpsc.PushWhole` | kernel/pf_q-skbuff-mpsc.h:72-81 | a push that is not interrupted appends its buffer, linked |
| `Mpsc.PopWhole` | kernel/pf_q-skbuff-mpsc.h:84-97 | a pop that is not interrupted returns the oldest node exactly when a linked one follows, otherwise changes nothing |
| `Mpsc.PopsHeld` | kernel/pf_q-skbuff-mpsc.h:84-97 | with no producer at work pops return the nodes held, in order, all but the newest |
| `Signature.CountOutmostBrackets` | kernel/pf_q-signature.c:34-61 | the loop computes the lowest depth of an arrow, or the deepest nesting if there is none |
| `Signature.OutmostCounts` | kernel/pf_q-signature.c:34-61 | on a well written signature that is the number of brackets around the whole |
| `Signature.FindNextArrow` | kernel/pf_q-signature.c:67-110 | the loop computes the specified scan |
| `Signature.HeadTailShow` | kernel/pf_q-signature.c:113-138 | a signature is split at its outermost arrow and nowhere else |
| `Signature.StringViewTrim` | kernel/pf_q-string-view.h:103-117 | the loops remove exactly the outer blanks |
| `Signature.SimplifySignature` | kernel/pf_q-signature.c:165-181 | the stripping loops compute the specified simplification |
| `Signature.StripsFind` | kernel/pf_q-signature.c:165-181 | on a well written signature every round finds both its brackets |
| `Signature.SimplifyShow` | kernel/pf_q-signature.c:165-181 | simplification removes exactly the redundant brackets and blanks and keeps the type |
| `Signature.SimplifyIdempotent` | kernel/pf_q-signature.c:165-181 | simplifying twice does no more than once |
| `Signature.ArityShow` | kernel/pf_q-signature.c:183-202 | arity is the number of spine arrows |
| `Signature.BindShow` | kernel/pf_q-signature.c:204-224 | bind(n) is a signature of the type left after n arguments, or empty past the end |
| `Signature.ArgShow` | kernel/pf_q-signature.c:226-246 | arg(i) is a signature of the i-th component, or empty past the end |
| `Signature.ArgBind` | kernel/pf_q-signature.c:204-246 | arg(bind(s, n), i) and arg(s, n + i) are the same text |
| `Signature.CompareArgument` | kernel/pf_q-signature.c:306-330 | the loop compares the simplified texts up to the length of blank runs |
| `Signature.AtomsEqual` | kernel/pf_q-signature.c:306-330 | comparison with an atom is true exactly for the same words, whatever the other side |
| `Signature.EqualShow` | kernel/pf_q-signature.c:333-361 | equality of well written signatures ends and is true exactly when the types are equal |
| `Signature.EqualEquivalence` | kernel/pf_q-signature.c:333-361 | it is reflexive, symmetric and transitive |
| `Signature.EqualSelfIff` | kernel/pf_q-signature.c:333-361 | for every text: compared with itself it is equal, or the call does not end, exactly according to whether it has an empty component |
| `Signature.StallsBlank` | kernel/pf_q-signature.c:333-361 | for any two texts: a call that does not end has met an empty component of the first |
| `Signature.WellWrittenNotBlank` | kernel/pf_q-signature.c:333-361 | a well written signature has none |
| `Signature.EmptyRepeats` | kernel/pf_q-signature.c:333-361 | the simplest such text: on empty texts the call repeats itself without progress |
| `TxFlush.Batch.Push` | kernel/pf_q-skbuff-batch.h:70-76 | appends the buffer, or refuses exactly when 64 are held |
| `TxFlush.Batch.DropN` | kernel/pf_q-skbuff-batch.h:53-67 | shifting in place removes the first n buffers, or all |
| `TxFlush.Xmit` | kernel/pf_q-transmit.c:361-396 | whatever happens to it, an attempt costs the buffer one reference and succeeds iff the driver answers 0 |
| `TxFlush.BatchAttempt` | kernel/pf_q-transmit.c:424-462 | the driver takes a prefix in order, and every buffer of the batch loses exactly one of its two references |
| `TxFlush.BatchXmit` | kernel/pf_q-transmit.c:106-131 | taken buffers are freed and dropped; the others are back at two references |
| `TxFlush.TurnIff` | kernel/pf_q-transmit.c:218-279 | the batch is handed over exactly when it is full or holds something and the next packet is early; a packet is batched unless the driver took nothing, and only a give-up or a failed allocation ends the loop |
| `TxFlush.FillLoop` | kernel/pf_q-transmit.c:218-279 | after any events, packets below sent are on the wire and freed and the rest of the prefix is batched, as far as the reference recursion gets; the push never fails |
| `TxFlush.DrainLoop` | kernel/pf_q-transmit.c:281-295 | the final flush keeps the same accounting and sends as many as the reference recursion |
| `TxFlush.Discard` | kernel/pf_q-transmit.c:297-309 | unsent buffers lose both references and are freed once |
| `TxFlush.QueueXmit` | kernel/pf_q-transmit.c:159-332 | sent + disc is the number of packets, the sent ones are a prefix in order, every buffer is freed exactly once, and nothing is discarded without a give-up, a failed allocation or endless refusal |
| `TxFlush.PatientSendsBatched` | kernel/pf_q-transmit.c:218-295 | unless told to give up, every packet that got a buffer is sent, whatever allocation failed and however often the driver refused |
| `TxFlush.WillingSends` | kernel/pf_q-transmit.c:218-295 | with a willing driver exactly the packets before the first failed allocation are sent |
| `TxFlush.UndisturbedSends` | kernel/pf_q-transmit.c:218-295 | without a failed allocation or a give-up all packets are sent |
| `TxFlush.LastAttempt` | kernel/pf_q-transmit.c:281-295 | told to give up, the flush makes exactly one attempt with what is batched |
| `LazyForward.GcData.Reset` | kernel/pf_q-GC.c:30-38 | clearing only the used logs leaves every log blank |
| `LazyForward.GcData.MakeBuff` | kernel/pf_q-GC.c:41-55 | a packet joins a pool of 128 with a blank log, or is refused exactly when it is full |
| `LazyForward.GcData.LazyXmit` | kernel/pf_q-transmit.c:503-519 | the device is noted exactly when fewer than 16 are |
| `LazyForward.Targets.AddDev` | kernel/pf_q-GC.c:116-138 | the table stays the distinct devices in order of appearance with exact counts, also when full |
| `LazyForward.GcData.GetFwdTargets` | kernel/pf_q-GC.c:141-156 | the table is exact for the annotations of all packets, and the total is their sum |
| `LazyForward.CountInLog` | kernel/pf_q-GC.h:92-102 | the number of occurrences of the device |
| `LazyForward.GcData.Exec` | kernel/pf_q-transmit.c:554-622 | the loops make exactly the specified attempts, return the number of those accepted and spend the logs accordingly |
| `LazyForward.ExecTotal` | kernel/pf_q-transmit.c:554-622 | there are as many attempts as the counts add up to |
| `LazyForward.MoreIff` | kernel/pf_q-transmit.c:599-606 | more is announced exactly when the device will be attempted again |
| `LazyForward.CloneIff` | kernel/pf_q-transmit.c:599-606 | a packet's k-th attempt is cloned exactly when it goes to the kernel or k is below its annotations |
| `LazyForward.TodoNeverUnderflows` | kernel/pf_q-transmit.c:602 | the unsigned count of remaining transmissions never drops below zero |
| `LazyForward.ClonedButLast` | kernel/pf_q-transmit.c:554-622 | with room for all devices a non-kernel packet is cloned on every forward but its last and forwarded once per annotation |
| `LazyForward.ForwardingExact` | kernel/pf_q-transmit.c:554-622 | all of this for the table collected from the logs |
| `Groups.JoinKeepsIff` | kernel/pf_q-group.c:198-234 | a join keeps the invariant iff the group was in use or the join brings a class and a policy |
| `Groups.AccessIff` | kernel/pf_q-group.c:63-88 | a private group in use is open to its only member, a restricted one to the process all members joined from, a shared one to the shared policy |
| `Groups.LeaveKeeps` | kernel/pf_q-group.c:237-262 | leaving keeps the invariant, and the last to leave takes the group off the map |
| `Groups.LeaveOnly` | kernel/pf_q-group.c:237-262 | the socket, and only it, is out of every class of that group, and other groups are unchanged |
| `Groups.ClearedEverywhere` | kernel/pf_q-devmap.h:47-60 | clearing with both wildcards removes the group from every queue of every device |
| `Groups.UpdateKeeps` | kernel/pf_q-devmap.c:54-102 | binding a group in use, or unbinding, keeps the map and the monitor flags right |
| `Groups.MatchIff` | kernel/pf_q-devmap.h:47-60 | a queue matches exactly when device and queue are each asked for as any or by these low eight bits |
| `Groups.UpdatedIff` | kernel/pf_q-devmap.c:54-102 | after an update a queue has the group iff it matches and it was a bind, or it does not match and had it; other groups stay |
| `Groups.BindingIff` | kernel/pf_q-sockopt.c:363-419 | the same for the socket options, which refuse exactly those who are not members, with exact flags afterwards |
| `Groups.TouchedCount` | kernel/pf_q-devmap.c:54-102 | the cells counted are those in the set described by matching |
| `Groups.JoinIff` | kernel/pf_q-group.c:198-234 | exactly whom the policy admits is let in, in exactly the classes asked for; a group out of use is founded, one in use keeps process, owner, policy and members |
| `Groups.JoinFreeIff` | kernel/pf_q-group.c:357-375 | the first group out of use is founded, and there is none exactly when all are in use |
| `Groups.LeaveIff` | kernel/pf_q-group.c:237-262 | the socket is gone from every class and everybody else stays; group and map change exactly if it was the last |
| `Groups.ReleaseLeaves` | kernel/pf_q-group.c:395-406 | after a release the socket is in no class of any group, and everybody else is where they were |
| `Groups.ApplyKeeps` | kernel/pf_q-group.c:63-406 | every operation keeps the invariant |
| `Groups.EveryRun` | kernel/pf_q-group.c:63-406 | after every sequence of operations: in use iff it has a member, mapped groups are in use, flags are exact, private groups hold only their owner, restricted ones only sockets joined from their process |
| `Groups.Registry.MonitorUpdate` | kernel/pf_q-devmap.c:38-51 | the flag of a device is 1 exactly when some queue of it has a group |
| `Groups.Registry.DevmapUpdate` | kernel/pf_q-devmap.c:54-102 | exactly the matching cells change, and the count is the number of cells that match and, when unbinding, had the group |
| `Groups.Registry.JoinGroup` | kernel/pf_q-group.c:198-234 | the new table and the error code are those of the specified operation |
| `Groups.Registry.JoinFreeGroup` | kernel/pf_q-group.c:357-375 | the first group out of use is joined, or none is left |
| `Groups.Registry.GroupFree` | kernel/pf_q-group.c:155-195 | the group leaves the map and is marked out of use |
| `Groups.Registry.LeaveGroup` | kernel/pf_q-group.c:237-262 | the new table and the error code are those of the specified operation |
| `Groups.Registry.LeaveAllGroups` | kernel/pf_q-group.c:395-406 | leaves the groups one after the other |
| `Groups.Registry.SetBinding` | kernel/pf_q-sockopt.c:363-419 | only members bind or unbind, on exactly the matching queues |

## Left out

- opt_j, or_pullup, and_pullup and opt_root: their soundness rests on what the code generator emits.
- opt_peep, apart from Pipeline.JsetOnesIff.
- Block-local jumps inside statement lists and the deletion of whole blocks in opt_blk.
- The word representation of bit sets in the data-flow passes: sets of numbers stand for them, and each pass returns its sets instead of overwriting block fields.
- Allocation failures of the optimizer and the bound of a C int on the array length and on long-jump displacements.
- Runs that meet what the C code leaves undefined (a shift by 32 or more, a constant division by zero, an access outside scratch memory) have no meaning to preserve. Where fold_op folds such a shift the model takes the count modulo 32.
- ValueNumbering.PassMeans: requires the numbers to be good enough for every statement, in the exact sense of Values.StepSoundIff, and no rewritten division by zero; ValueNumbering.CertifiedReadable and ValueNumbering.SelfContainedKnown give conditions on the graph.
- Pipeline.NumberThenClean: the converse for verdicts is out of reach, since whether a wrong number changes a verdict depends on which later block uses the register and on the branches that lead there; Pipeline.StaleIff is the exact statement for the number itself.
- Pipeline.StaleNumberChangesVerdict: concerns one opt_blks pass with do_stmts set; the passes before it and opt_peep, which does not touch the sample, are left out.
- RxQueue.RunInv: the initial stamping is the one the initialisation is meant to make; the code uses a slot count as a byte extent there.
- RxQueue.ReceivesInOrder: speaks of runs whose reservations stay within queue_size; RxQueue.OverflowLies shows what happens otherwise. The polling variant of pfq_read, which may swap an empty queue, is not modelled.
- Copy failures in the receive path, relaxed memory ordering, and a thread told to stop while it waits for a swap.
- TxQueue.RunInv: injections have at least one byte, a packet is copied in whole 8-byte words, and the flush without a kernel thread is not modelled.
- Mpsc.RunInv: the back pointer stored in a popped node is not modelled, since no step reads it.
- Signature.EqualShow: signatures with empty atoms or with constructors applied to bracketed types are outside the grammar. For other malformed texts the C scanner may read outside its view; the model stops at the end of the view.
- Signature views are strings and not pairs of pointers, so aliasing of views is not captured.
- TxFlush.QueueXmit: requires 0 < batch_len <= 64; with a larger value the push can fail. Copying, truncation to max_len and hardware queue selection are left out.
- Buffers and tables of fixed size in LazyForward and Groups are sequence fields reassigned by the methods.
- Groups: filters, computations, counters and persistent data attached to a group, and the semaphores, since every operation runs under one.
- pfq_receive, pfq_batch_xmit_by_mask, the PFQ/lang engine, symbol tables, proc files, shared-memory mapping, the C++ library and the tools.
