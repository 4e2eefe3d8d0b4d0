# Verification of the XSB emulator core

This project models five parts of the XSB emulator that keep state across calls, and proves what they are for:

1. **The dynamic clause store** (`biassert.c`): the compiler from body terms to code, with its ring queues, register table,
   flattening of structures and parallel register moves; the try/retry/trust chains of clauses; the one-argument index of
   SOB records and hash buckets, with what a call tries when its instructions run; and the reclamation of retracted clauses while
   choice points still point into the chains.
2. **The dependency graph of incremental tabling** (`call_graph_xsb.c`): edge bookkeeping, invalidation, the
   "nothing changed" propagation, the recomputation list and the labelling of strongly connected components.
3. **The trail** (`binding.h`, `cut_xsb.h`, `sw_envs.h`): value and pre-image frames, freeze registers, backtracking, tidying at a
   cut, and the switch to a frozen environment, which reverses trail links on its way.
4. **Threads that share tables** (`conc_compl.c`, `deadlock.c`, the wait loop in `bineg_xsb_i.h`): the dependency fixpoint and
   the waits-for protocol.
5. **Boxed numbers** (`cell_xsb.h`, `box_defines.h`, `cell_xsb_i.h`).

`dafny verify dfyconfig.toml` checks everything.

## How the model is laid out

| files | content |
|---|---|
| `graphs.dfy`, `sequences.dfy` | paths in finite graphs; sequences without repetitions, filters |
| `scc_spec.dfy`, `scc_proof.dfy`, `scc.dfy` | the component labelling: specification, proof, and the pass over node arrays |
| `invalidation.dfy`, `invalidation_pass.dfy` | what invalidation and its undo do; the explicit-stack loop and the propagation |
| `recompute.dfy`, `edge_tables.dfy`, `edges.dfy` | the recomputation list; in-edge lists, out-edge tables and counts |
| `chains.dfy`, `index_spec.dfy`, `index.dfy`, `chain_run.dfy` | clause chains; SOB records, buckets and lookups; running the chain instructions |
| `reclaim_spec.dfy`, `retract.dfy`, `delcf.dfy` | safe reclamation; the doubly linked lists of deferred deletions |
| `compiler_state.dfy`, `machine.dfy`, `move_spec.dfy`, `move_run.dfy`, `moves.dfy`, `term_spec.dfy`, `build_spec.dfy`, `terms.dfy`, `body.dfy` | ring queue and register table; the machine that runs the code; moves, terms, and both together |
| `trail_spec.dfy`, `trail_env.dfy`, `trail_switch.dfy`, `trail.dfy` | the trail in word-addressed memory; what each step keeps of choice points and frozen environments; resuming a frozen environment; the trail stack |
| `thread_deps.dfy`, `deadlock.dfy` | thread dependencies; waits for shared tables |
| `boxed64.dfy`, `boxed32.dfy` | tagged and boxed numbers in 64-bit and 32-bit words |

A C structure that is updated in place is a class with its fields; a field of many records is a map from the record's name
(a number or a `Ref`) to the field's value, so a write through a pointer is a map update. Node arrays, the instruction ring and
the register table are arrays. Each method that changes state is tied to an abstract value (a list per chain, a set of edges,
a sequence of pending moves), and the main results are about those values. Error exits of the source (`xsb_abort`,
`longjmp`) are results `ok == false`.

## Where the code does not do what it is for

These are stated as they are in the code, each with the exact condition or a concrete input:

* The component labelling is wrong as soon as some node reaches a higher-numbered node without out-edges
  (`call_graph_xsb.c:1601` does not pop): `SccLabelling`, `SinkMislabelled`. The same condition for lists of calls is in
  `GetIncrSccs`.
* Invalidating a node and reporting it unchanged is an undo exactly if no cycle runs through the other invalid nodes:
  `UndoExactly`, `CycleNotUndone`. A leaf is never flagged (`call_graph_xsb.c:681`), so it is counted at every invalidation.
* `(int)int_val(...)` in the build branch of `db_geninst` (`biassert.c:971`) cuts a list number to 32 bits before the range test:
  `BuiltIffFaithful`, `BigNumberChanged`. The unify branch at 961 does not.
* The scans of `db_genmvs` do not wrap around the ring (`biassert.c:1046`, `1057`): in a wrapped ring they see nothing
  (`TargetIsNotSource`), and a register may be written that a pending move still reads. The code is right exactly if that does not
  happen (`DbGenMvs`); a body with at most 122 arguments is safe (`SmallQueueCannotWrap`), and so are moves whose targets are no
  sources. `WrappedRingClobbers` is a body of 180 arguments whose finished code loads a wrong value.
* `CheckForSCC` does what its comment says for the listed threads, but not for the caller: `SccOneWay`. Its success means one
  component with the caller exactly if a listed thread names the caller, or none is listed: `OneComponentIff`.
* `reset_other_threads` releases the mutex between its two loops. With a leader whose earlier wait is still recorded (the second
  turn of the wait loop), another thread can close a cycle meanwhile: `WaitingLeaderCycle`. Without an outstanding wait no
  interleaving can: `NeverCyclic`.

## Model

| member | source | states |
|---|---|---|
| SccProof.SccLabelling | XSB/emu/call_graph_xsb.c:1546-1602 | for every numbered graph, two nodes get the same component exactly when each reaches the other, if and only if no node reaches a higher-numbered node without out-edges (the branch at 1601 leaves its node on the stack) |
| SccProof.SccLabellingWithoutSinks | XSB/emu/call_graph_xsb.c:1546-1602 | the labels are right for every graph in which each node has an out-edge |
| SccProof.SinkMislabelled | XSB/emu/call_graph_xsb.c:1600-1602 | the single edge 0 -> 1 is already labelled wrongly |
| SccProof.VisitCorrect | XSB/emu/call_graph_xsb.c:1559-1602 | one recursive call visits what its node reaches, keeps the stack and low-link invariants, and closes every component it completes, unless a sink was left on the stack |
| SccProof.EdgesCorrect | XSB/emu/call_graph_xsb.c:1577-1591 | the same for the loop over the out-edges of an open node; low links are lowered by the low link, not the number, of a stacked successor |
| SccProof.TopIsComponent | XSB/emu/call_graph_xsb.c:1593-1599 | when a node keeps its own number as low link, the stack from it upwards is exactly its strongly connected component |
| SccPass.NodeTable.ComputeScc | XSB/emu/call_graph_xsb.c:1559-1602 | the recursive pass over the node array ends and leaves the arrays in the state of the specification |
| SccPass.NodeTable.Follow | XSB/emu/call_graph_xsb.c:1577-1591 | one turn of the edge loop equals one step of the specification |
| SccPass.NodeTable.ComputeAll | XSB/emu/call_graph_xsb.c:1546-1552 | the driver loop leaves the components of the specification |
| SccPass.NumberCalls | XSB/emu/call_graph_xsb.c:1483-1545 | distinct listed calls get the numbers 0, 1, 2, ... in list order, and the table holds no other call |
| SccPass.GetIncrSccs | XSB/emu/call_graph_xsb.c:1483-1556 | for a list of calls closed under dependence, labels agree with mutual reachability if and only if no call reaches a later-listed call without dependants |
| InvalidationFacts.ExactInvalidation | XSB/emu/call_graph_xsb.c:664-738 | from flags that no edge leaves, the nodes newly flagged are exactly those reachable from r (a leaf r excepted), and each counter grows by the number of its newly flagged predecessors, r included, plus one for r itself; no edge leaves the flags afterwards if and only if r is no leaf or no flagged node leads to r |
| InvalidationFacts.RepeatedInvalidation | XSB/emu/call_graph_xsb.c:664-738 | leaves having no in-edges, after any sequence of invalidations the flagged nodes are those flagged before and those reachable from an invalidated one, leaves excepted, and no edge leads out of them |
| InvalidationPass.CallNodes.InvalidateCall | XSB/emu/call_graph_xsb.c:969-979 | does nothing to a deleted node; otherwise succeeds exactly if every node it would invalidate is a leaf or completed, so always if all non-leaf nodes reachable from it are completed; then flags and counters are exactly those of the specification; on failure only nodes to be invalidated are flagged and no counter has dropped |
| InvalidationPass.CallNodes.DfsOutEdges | XSB/emu/call_graph_xsb.c:664-738 | the explicit-stack loop ends on every graph, cyclic ones included, and does what InvalidateCall promises |
| InvalidationPass.CallNodes.CheckNonCompleted | XSB/emu/call_graph_xsb.c:626-640 | a leaf is never checked, any other node must be completed |
| InvalidationPass.CallNodes.FollowEdge | XSB/emu/call_graph_xsb.c:719-735 | one edge: counts the new invalid predecessor, flags and pushes a fresh target; fails exactly if the target is fresh and its table incomplete; the edges still to follow get fewer |
| InvalidationPass.CallNodes.PopExhausted | XSB/emu/call_graph_xsb.c:687-718 | afterwards the top frame, if any, has an edge left to follow, and every node with edges left is still on the stack |
| InvalidationPass.CallNodes.PropagateNoChange | XSB/emu/call_graph_xsb.c:495-516 | ends on every graph; the nodes revalidated, in order, are exactly those whose counters drop to zero, each after all its reported predecessors; flags are cleared for them and no others |
| InvalidationFacts.RevalidatedAfterPredecessors | XSB/emu/call_graph_xsb.c:495-516 | on any graph a node is revalidated only after all its invalid predecessors, and the start node never is |
| InvalidationFacts.UndoExactly | XSB/emu/call_graph_xsb.c:495-516 | invalidating r and then reporting r unchanged resets every counter but that of r if and only if no cycle runs through the invalidated nodes other than r |
| InvalidationFacts.CycleNotUndone | XSB/emu/call_graph_xsb.c:495-516 | on 0 -> 1, 1 -> 2, 2 -> 1 reporting 0 unchanged leaves 1 with its invalid predecessor 2 |
| InvalidationPass.CallNodes.InvalidateThenUnchanged | XSB/emu/call_graph_xsb.c:969-979 | from a clean state the two calls together are an undo exactly under that condition; the flags left are then r alone, or none if r is a leaf |
| RecomputeOrder.RecomputeListExact | XSB/emu/call_graph_xsb.c:919-966 | the finished list holds exactly the non-leaf calls reached backwards through affected calls, each once; on an acyclic graph a call comes before every listed call it depends on |
| RecomputeOrder.BlackenedExactly | XSB/emu/call_graph_xsb.c:919-966 | a visit blackens exactly the calls reachable through unvisited affected calls |
| RecomputeOrder.CallList.DfsDependencyEdges | XSB/emu/call_graph_xsb.c:919-966 | adds exactly the calls newly reached, in front of the list, dependents first up to cycles; succeeds exactly if the start call is a leaf or completed and, unless it was visited before, so is every affected call on an in-edge of a call it reaches; never fails with all tables completed; a failure empties the list |
| RecomputeOrder.CallList.MeetsExactly | XSB/emu/call_graph_xsb.c:924-931 | what it means that an incomplete table is met, in terms of leaves, completed tables and in-edges |
| RecomputeOrder.CallList.WalkInEdges | XSB/emu/call_graph_xsb.c:947-960 | the loop over in-edges does so for every affected predecessor |
| RecomputeOrder.CallList.FollowInEdge | XSB/emu/call_graph_xsb.c:949-958 | one in-edge: visits an affected, unvisited predecessor; fails only if an incomplete one is met |
| DependencyEdges.EdgeStore.MakeCallNode | XSB/emu/call_graph_xsb.c:210-232 | a new node without edges; nothing else changes |
| DependencyEdges.EdgeStore.AddCallEdge | XSB/emu/call_graph_xsb.c:537-573 | afterwards the edge is there and no other edge is new; in-lists and out-tables describe the same relation, out-counts and the edge count are right |
| DependencyEdges.EdgeStore.DeleteDependencyEdges | XSB/emu/call_graph_xsb.c:271-313 | takes the node out of the out-tables of its in-neighbours other than itself, with counts adjusted |
| DependencyEdges.EdgeStore.DeleteOutEdges | XSB/emu/call_graph_xsb.c:318-372 | takes the node out of the in-lists of its out-neighbours other than itself, and discounts every out-edge, the self-edge included |
| DependencyEdges.EdgeStore.DeleteCallNode | XSB/emu/call_graph_xsb.c:404-417 | frees a node whose out-count is zero, aborts otherwise; the node count drops either way |
| DependencyEdges.EdgeStore.RemoveNode | XSB/emu/call_graph_xsb.c:271-417 | full removal keeps all edges among the other nodes, loses all edges of the node, self-edge included, and keeps lists, tables and counts consistent |
| ClauseChains.ChainPrefix | XSB/emu/biassert.c:1482-1501 | the words written when a clause is put first make a chain of the longer list: alone is a noop, the first a try, middles are retries, the last a trust, with mutual links |
| ClauseChains.ChainAppend | XSB/emu/biassert.c:1504-1524 | the same for a clause put last |
| ClauseChains.ChainRemove | XSB/emu/biassert.c:1980-2024 | the words written when any element is unlinked make a chain of the list without it, opcodes promoted |
| ClauseChains.OneChainChanged | XSB/emu/biassert.c:1482-1551 | changing one chain of the store leaves every other chain, its head and the separation of chains as they were |
| ClauseChains.ClauseStore.PrefixToChain | XSB/emu/biassert.c:1482-1501 | writes exactly those words, by the opcode of the old first element |
| ClauseChains.ClauseStore.AppendToChain | XSB/emu/biassert.c:1504-1524 | writes exactly those words, by the opcode of the old last element |
| ClauseChains.ClauseStore.DbAddBuff | XSB/emu/biassert.c:1527-1551 | adds a clause or SOB record at the front or back of its predicate: the abstract list grows at that end |
| ClauseChains.ClauseStore.AddToAllChain | XSB/emu/biassert.c:1741-1767 | the same for the list of all clauses of a SOB record |
| ClauseChains.ClauseStore.AddToHashChain | XSB/emu/biassert.c:1701-1738 | the same for a hash bucket, whose end is found by walking to the trust |
| ClauseChains.ClauseStore.DeleteFromChain | XSB/emu/biassert.c:1980-2024 | writes exactly the words of unlinking, by the opcode of the element |
| ClauseChains.ClauseStore.DeleteFromSobChain | XSB/emu/biassert.c:2076-2104 | the abstract list of the predicate loses exactly the element; head, first and last pointers follow |
| ClauseChains.ClauseStore.DeleteFromAllChain | XSB/emu/biassert.c:2047-2073 | the same for the all-chain of a SOB record |
| ClauseChains.ClauseStore.DeleteFromHashChain | XSB/emu/biassert.c:2028-2044 | the same for a bucket; reports whether it became empty |
| IndexSpec.HashResizeBig | XSB/emu/biassert.c:1558-1585 | the table size chosen for a clause with a bound argument is always at least 17 |
| IndexSpec.HashResizeIs | XSB/emu/biassert.c:1558-1585 | a table is kept exactly if at most (size/4)*3 buckets are used and it is as large as asked for; otherwise the new size is the first one of the list above the old one, two more if there is none, or the one asked for if that is larger; an empty predicate gets the first size not below the one asked for, or the last |
| ClauseIndex.SegmentRemove | XSB/emu/biassert.c:2882-2918 | a SOB record whose buckets hold exactly the words of its clauses, in order, still does after a clause and its word have left, and its count of nonempty buckets is right |
| ClauseIndex.IndexAdd | XSB/emu/biassert.c:1770-1801 | a clause put into the end segment keeps every segment, bucket and count right |
| ClauseIndex.LookupAgreesWithScan | XSB/emu/biassert.c:1807-1969 | what a lookup with the argument bound finds is, in scan order, exactly the clauses in the key's bucket of each table and those with a variable there; no clause that could unify is missed |
| ClauseIndex.HitExactly | XSB/emu/biassert.c:1807-1882 | a clause is a hit exactly if its argument is a variable or leaves the same remainder as the key by the table size of its record |
| ClauseIndex.IndexedPred.AddClause | XSB/emu/biassert.c:1770-1801 | asserta and assertz put the clause first or last in the scan and keep the whole index right; a new SOB record is opened at that end exactly if the one there is too full or has not the size asked for |
| ClauseIndex.IndexedPred.EnterClause | XSB/emu/biassert.c:1788-1800 | the clause comes first or last in its bucket and in its record, and so in the scan; the SOB records stay |
| ClauseIndex.IndexedPred.ChooseSob | XSB/emu/biassert.c:1770-1787 | the SOB record at the wanted end is kept exactly if, for a variable, it has one bucket or, for a bound argument, at most three quarters of its buckets are used and it is as large as asked for; else an empty one is put there, with one bucket, or the first listed size above the old one or the size asked for if larger, or for an empty predicate the first listed size not below the one asked for; the scan is unchanged |
| ClauseIndex.IndexedPred.AddSob | XSB/emu/biassert.c:1770-1801 | a new, empty segment at one end leaves the scan and all other chains as they were |
| ClauseIndex.IndexedPred.NewSobBlock | XSB/emu/biassert.c:1672-1698 | a block with an empty all-chain and the given number of empty buckets |
| ClauseIndex.IndexedPred.DeleteClause | XSB/emu/biassert.c:2882-2918 | the clause leaves its all-chain and its bucket, and only those; the scan loses exactly it; the SOB record is reported if emptied |
| ClauseIndex.IndexedPred.DropSob | XSB/emu/biassert.c:2917-2923 | an emptied SOB record leaves the predicate; the scan is unchanged |
| ClauseIndex.IndexedPred.ReallyDelete | XSB/emu/biassert.c:2866-2931 | the scan loses exactly the clause and no segment stays empty |
| ClauseIndex.IndexedPred.FirstClauseSob | XSB/emu/biassert.c:1807-1882 | from a segment on, the first word of the first nonempty bucket for the key, or none |
| ClauseIndex.IndexedPred.FirstClref | XSB/emu/biassert.c:1885-1907 | the first matching word, or none exactly if nothing matches |
| ClauseIndex.IndexedPred.NextClref | XSB/emu/biassert.c:1910-1969 | the matching word after a given one, along the bucket and then through later segments, or none exactly if it was the last |
| ClauseIndex.IndexedPred.CollectMatches | XSB/emu/biassert.c:1885-1969 | repeated calls give all matching words, in order |
| ClauseIndex.IndexedPred.Lookup | XSB/emu/biassert.c:1885-1969 | those clauses are the hits of the plain scan, in scan order, and include every clause that could unify; a clause is found exactly if it has a variable there or the same remainder as the key by the table size of its record |
| ChainRun.ClausesTried | XSB/emu/emuloop_aux.h:36-106 | running a chain from any element tries the rest of it in order and leaves the choice points of the caller: a try adds one, a retry moves it on, a trust drops it |
| ChainRun.RecordTried | XSB/emu/emuloop.c:1475-1518 | a SOB record puts the next record in a choice point, goes to the bucket of a bound argument or else to all its clauses, and tries these |
| ChainRun.CallTriesAll | XSB/emu/emuloop.c:1192-1268 | a call of any valid predicate with its argument unbound tries exactly the clauses of the scan, in order, and leaves its caller's choice points |
| ChainRun.CallTriesHits | XSB/emu/emuloop.c:1475-1518 | a call with the argument bound tries exactly the clauses that Lookup returns, in the same order, and leaves its caller's choice points |
| ReclaimSpec.StillTries | XSB/emu/biassert.c:2948-2974 | a choice point on a surviving element still sits on it, the element is still not the first of its chain, and what follows is what followed before without the deleted elements |
| ReclaimSpec.AllContinue | XSB/emu/biassert.c:2948-2974 | whatever was unlinked, every live choice point goes on at the same element, which is not the first of its chain, and will try what it would have tried without the deleted elements |
| ReclaimSpec.StaysPinned | XSB/emu/biassert.c:2948-2974 | a clause that may not be deleted because of a marked record may not be deleted after other deletions either |
| ReclaimSpec.ScanStillTries | XSB/emu/biassert.c:2866-2931 | through a SOB record: the clauses of it and all later segments lose exactly the deleted ones |
| ReclaimSpec.MatchesStillTried | XSB/emu/biassert.c:2866-2931 | the same for the words of one key, for a choice point of a bound lookup |
| ReclaimSpec.ClauseGone | XSB/emu/biassert.c:2948-2974 | if no marked record is the clause or would be promoted by unlinking it, every choice point stays on a retry or trust |
| ReclaimSpec.AllAliveOne | XSB/emu/biassert.c:2948-2974 | the same for one unlinked element |
| ReclaimSpec.UnpinnedExactly | XSB/emu/biassert.c:2948-2974 | the safety test succeeds exactly if unlinking the record leaves every retry or trust instruction of the records that choice points are in a retry or trust |
| ReclaimSpec.TidyOne | XSB/emu/biassert.c:2903-2924 | a record is left empty only if it was empty before, is marked, or is the first one with the second one marked |
| ReclaimSpec.TidyTrans | XSB/emu/biassert.c:2699-2741 | and this still holds after any number of deletions |
| ClauseReclamation.Reclaimer.AliveIsDynamic | XSB/emu/biassert.c:2136-2140 | an element a choice point may refer to carries one of the two opcodes the markers look for |
| ClauseReclamation.Reclaimer.MarkCpStack | XSB/emu/biassert.c:2185-2227 | a match is reported exactly if a choice point is in the clause or in a difficult block; otherwise exactly the records of all choice points are marked |
| ClauseReclamation.Reclaimer.UnmarkCpStack | XSB/emu/biassert.c:2231-2255 | no mark is left, although deletions happened since marking |
| ClauseReclamation.Reclaimer.DetermineIfSafeToDelete | XSB/emu/biassert.c:2948-2974 | true exactly if no marked record is the clause or would become first of one of its chains |
| ClauseReclamation.Reclaimer.DetermineIfSobSafeToDelete | XSB/emu/biassert.c:2934-2945 | the same for a SOB record |
| ClauseReclamation.Reclaimer.DropSobIfSafe | XSB/emu/biassert.c:2903-2924 | an emptied SOB record leaves its chain exactly if that is safe; otherwise only its instruction is made to fail |
| ClauseReclamation.Reclaimer.ReallyDelete | XSB/emu/biassert.c:2866-2931 | every choice point stays alive, and every chain is the old one without the clause, its word and the dropped SOB record; a record of the predicate that it leaves empty was empty before, or is marked, or heads the chain with its second record marked, and its instruction fails |
| ClauseReclamation.Reclaimer.TryReclaim | XSB/emu/biassert.c:3032-3039 | deletes at once exactly if no choice point is in the clause, would be promoted, or sits in a difficult block; marks are cleared either way; an emptied record stays only if a choice point is in it, or if it is the first one and a choice point is in the second; without choice points none does |
| ClauseReclamation.Reclaimer.MarkDelcfSubchain | XSB/emu/biassert.c:2593-2613 | marks the frames of the clause, or all of them for an incomplete table |
| ClauseReclamation.Reclaimer.MarkDynamic | XSB/emu/biassert.c:2627-2666 | unless a choice point sits in a difficult block, marks exactly the records of all choice points, and exactly the frames of their clauses, or all frames if the predicate has an incomplete table and some choice point is in a dynamic clause |
| ClauseReclamation.Reclaimer.SweepFrame | XSB/emu/biassert.c:2704-2739 | a marked frame loses its mark; an unmarked one goes with its clause exactly if that is safe |
| ClauseReclamation.Reclaimer.SweepDynamic | XSB/emu/biassert.c:2699-2741 | every frame left was marked before or belongs to a clause that still may not be deleted; chains lose exactly the clauses of the frames that went; the count returned is the number of frames left; none is marked; a record left empty was empty before or is pinned by a mark |
| ClauseReclamation.Reclaimer.GcDynamic | XSB/emu/biassert.c:2749-2783 | returns -1 exactly if collection is off or a choice point sits in a difficult block; otherwise every frame left was marked before, or its clause may not be deleted, or the predicate has an incomplete table and a choice point in a dynamic clause; choice points stay alive and marks are cleared; the marks of frames are cleared if a sweep was made, kept if nothing was tried, and those set before a difficult block was met stay |
| ClauseReclamation.Reclaimer.GcIfDue | XSB/emu/biassert.c:3018-3025 | every 256th retract collects; the others leave chains, frames and marks as they were |
| ClauseReclamation.Reclaimer.RetractClause | XSB/emu/biassert.c:3020-3053 | every chain loses exactly the clauses reclaimed; the clause itself goes exactly if that is allowed and no choice point would notice in the chains left by the collection, if one ran first, otherwise a frame for it is put in front; every choice point goes on with what it would have tried without the deleted clauses; a record left empty was empty before or is pinned by a choice point, so with no choice point the index has no empty record if it had none before; the marks of frames change only by a collection |
| ClauseReclamation.Reclaimer.DeleteOrDefer | XSB/emu/biassert.c:3026-3052 | the clause fails from then on and is deleted exactly if allowed and unnoticed, else deferred |
| ClauseReclamation.Reclaimer.ReclaimableExactly | XSB/emu/biassert.c:2948-2974 | so a clause is deleted at once exactly if no choice point sits in a difficult block and none would notice |
| DeletedFrames.LinkedPush | XSB/emu/biassert.c:2413-2435 | a frame put in front gives a well-formed doubly linked list |
| DeletedFrames.LinkedUnlink | XSB/emu/biassert.c:2441-2460 | unlinking any frame gives a well-formed list of the others |
| DeletedFrames.PushAll | XSB/emu/biassert.c:2413-2435 | after a push every predicate's list is again the part of the global list with its frames, in order |
| DeletedFrames.UnlinkAll | XSB/emu/biassert.c:2441-2460 | the same after any frame was freed |
| DeletedFrames.FrameLists.NewDelCF | XSB/emu/biassert.c:2387-2435 | puts an unmarked frame in front of both lists, for deleted clauses and deleted predicates alike |
| DeletedFrames.FrameLists.FreeDelCF | XSB/emu/biassert.c:2441-2460 | takes the frame out of both lists; its own next link survives, which the callers read afterwards |
| DeletedFrames.FrameLists.FreeClauseFrames | XSB/emu/biassert.c:2475-2488 | exactly the frames of the predicate's deleted clauses go |
| DeletedFrames.FrameLists.CheckInsertDelCFPred | XSB/emu/biassert.c:2475-2491 | they are superseded by one predicate frame in front, which is unmarked; no other mark changes |
| DeletedFrames.FrameLists.SweepFrame | XSB/emu/biassert.c:2704-2739 | one visit: stays if marked or an unsafe clause, and loses its mark |
| DeletedFrames.FrameLists.SweepDynamic | XSB/emu/biassert.c:2699-2741 | the frames left are the marked ones and those of unsafe clauses, in order, in both lists; the count returned is their number; none is marked |
| CompilerState.InstQueue.Push | XSB/emu/biassert.c:529-538 | adds at the top of the ring; the overflow error arises exactly with 255 entries |
| CompilerState.InstQueue.Pop | XSB/emu/biassert.c:540-548 | takes the last entry |
| CompilerState.InstQueue.Rem | XSB/emu/biassert.c:550-557 | takes the first entry |
| CompilerState.InstQueue.Add | XSB/emu/biassert.c:559-570 | adds at the bottom and counts; the overflow error arises exactly with 255 entries |
| CompilerState.InstQueue.Rotate | XSB/emu/biassert.c:572-579 | the counted entries go behind the others, so that the first added is taken next; it never overflows |
| CompilerState.RegStat.constructor | XSB/emu/biassert.c:600-607 | registers up to the size are taken for ever, the others are free |
| CompilerState.RegStat.Get | XSB/emu/biassert.c:610-626 | hands out a free register, never one in use; fails exactly when none below 256 is left |
| CompilerState.RegStat.Release | XSB/emu/biassert.c:628-635 | frees exactly a register held for an introduced variable |
| CompilerState.RegStat.ReleasePerm | XSB/emu/biassert.c:637-643 | frees exactly a register held for a real variable |
| CompilerState.GetTemp | XSB/emu/biassert.c:610-626 | a register for an introduced variable, exactly if one is free; one register fewer is free then |
| CompilerState.FewRegisters | XSB/emu/biassert.c:600-643 | at most 255 registers are free |
| MoveCompiler.TargetIsNotSource | XSB/emu/biassert.c:1042-1051 | exact unless the ring has wrapped; then the scan sees nothing |
| MoveCompiler.SourceIsNotTarget | XSB/emu/biassert.c:1053-1061 | exact unless the ring has wrapped; then the scan sees nothing |
| MoveSpec.WriteTarget | XSB/emu/biassert.c:1083-1103 | writing a target no pending move reads keeps all other moves and finished targets right |
| MoveSpec.Requeue | XSB/emu/biassert.c:1104-1114 | delaying a move, or saving its source in a free register, keeps everything right |
| MoveRun.PendingTurn | XSB/emu/biassert.c:1078-1115 | a turn leaves the other moves pending, with the registers they need in use; a move that was put off once is not put off again, so the loop ends |
| MoveCompiler.GenMove | XSB/emu/biassert.c:1078-1115 | one turn of the loop, wrapped ring or not: what the scans see decides whether the move is dropped, emitted, delayed or its source saved; the new queue, code, registers in use and free registers are exactly those of that case; fails exactly if a source must be saved and no register is free |
| MoveRun.TurnMeans | XSB/emu/biassert.c:1078-1115 | a move of a register to itself is dropped; any other is put off exactly if the ring is straight and a pending move reads its target, and then saved exactly if a pending move writes its source, else only delayed; otherwise it is emitted |
| MoveRun.OnTrackTurn | XSB/emu/biassert.c:1078-1115 | a turn that writes no register a pending move reads keeps every pending move and every finished target right |
| MoveRun.ClobberSpoils | XSB/emu/biassert.c:1081-1100 | run from a state in which all registers differ, writing a register that a pending move reads leaves that move with a wrong value |
| MoveRun.SpoiledTurn | XSB/emu/biassert.c:1078-1115 | and no later turn repairs it |
| MoveCompiler.DbGenMvs | XSB/emu/biassert.c:1072-1115 | for distinct targets and any overlap, cycles included, the loop ends, and the code leaves each target with the initial value of its source, its constant, or a new variable of its own, whatever the registers hold, if and only if the turns of the first pass, by what their scans see in the ring, write no register that a pending move reads; it is generated exactly if as many registers are free as sources have to be saved |
| MoveRun.NoOverlap | XSB/emu/biassert.c:1098-1114 | if no target is a source, no move is lost and no register needed, even in a wrapped ring |
| MoveRun.RoomForAll | XSB/emu/biassert.c:1042-1061 | if the ring has room for every move whose target is a source, no move is lost, and at most one register is needed for each of these |
| MoveCompiler.StraightLosesNothing | XSB/emu/biassert.c:1042-1061 | the same for the contents of a queue |
| MoveCompiler.SmallQueueCannotWrap | XSB/emu/biassert.c:519-522 | with the start position of the source, up to 122 moves always have that room |
| MoveCompiler.OverlappingLost | XSB/emu/biassert.c:1042-1051 | 90 constants for registers 1 to 90 followed by moves from these registers are shut out by that condition |
| MoveCompiler.WrappedRingClobbers | XSB/emu/biassert.c:1042-1051 | 90 constants for registers 1 to 90 followed by moves from these registers: after 66 delays the ring has wrapped, the scans see nothing and the pending moves are emitted in order; run from any state the finished code leaves register 157, which should get the initial value of register 67, with the constant meant for register 67 |
| MoveCompiler.InOrderRun | XSB/emu/biassert.c:1078-1115 | what the first instructions emitted in order leave in the registers 67 and 157 |
| TermSpec.BuiltIffFaithful | XSB/emu/biassert.c:968-977 | the term the code builds is the term itself if and only if no number in a fused position lies outside of 0..65535 |
| TermSpec.BigNumberChanged | XSB/emu/biassert.c:971-973 | f([4294967296]) is compiled to f([0]) |
| TermSpec.TruncIs | XSB/emu/biassert.c:971 | the conversion keeps the lowest 32 bits as a signed number, and changes exactly the numbers that do not fit |
| TermSpec.SmallIntsBuilt | XSB/emu/biassert.c:968-977 | if all numbers of a term fit 32 bits, the built term is the term |
| BuildSpec.BuildVar | XSB/emu/emuloop.c:1052-1058 | a new variable becomes a hole of its own |
| BuildSpec.BuildPair | XSB/emu/emuloop.c:1084-1093 | the fused instruction builds a list cell with its number and leaves the rest as next word |
| BuildSpec.OpenWaiting | XSB/emu/emudef.h:258-302 | opening the structure of a waiting register fills its hole and makes its words the next holes |
| TermCompiler.DbGenInst | XSB/emu/biassert.c:899-983 | the code for one argument builds one word of the structure, or for the last one a fused run; a structure, also one at the end of a fused run, waits with a register that no waiting term uses; fails exactly if the argument is a structure and no register is free, or the queue of waiting terms is full |
| TermCompiler.DbGenArgs | XSB/emu/biassert.c:866-886 | the same for all arguments: exactly the structures among them, or at the end of the last one, wait, the first one nearest the end; fails exactly if fewer registers are free than structures are among the arguments, or the queue gets full |
| TermCompiler.DbGenTerms | XSB/emu/biassert.c:841-897 | for ground terms of atoms, small integers, lists and structures, the code, run from any state, leaves the start register denoting the built term and changes no old cell and no other register in use; it ends, gives back all registers, and fails exactly if fewer are free than the term needs at one time |
| TermCompiler.NeedNext | XSB/emu/biassert.c:841-897 | opening the next waiting term and adding its structures to the waiting ones does not change whether the registers suffice |
| TermCompiler.PeakAtMostSize | XSB/emu/biassert.c:841-897 | a term never needs more registers than it has symbols |
| TermCompiler.OneRegisterEnough | XSB/emu/biassert.c:841-897 | one free register is enough exactly for the terms in which no structure has two structures as arguments |
| TermCompiler.FlatArguments | XSB/emu/biassert.c:841-897 | a term whose arguments hold no further structures needs one register for each argument that is a structure |
| BodyCompiler.DbGenAput | XSB/emu/biassert.c:985-1039 | constants only wait for their register; a structure is built in a register of its own; fails exactly if that and the registers the structure needs are not free |
| BodyCompiler.AllLoaded | XSB/emu/biassert.c:771-783 | structures built first and moved last still denote the same |
| BodyCompiler.BodyPeakExactly | XSB/emu/biassert.c:771-783 | n registers are enough exactly if, for every structure among the arguments, the structures before it, the register it is built in and its own code need no more |
| BodyCompiler.DbGenAputs | XSB/emu/biassert.c:778-780 | the loop over the arguments: all are prepared, or it fails exactly if they need more registers than are left |
| BodyCompiler.DbGenBody | XSB/emu/biassert.c:771-783 | for ground arguments, code and moves together load every argument register of the body goal with what its argument is compiled to; fails exactly if some argument, with those before it, needs more registers than the argument registers leave |
| Trail.TrailStack.PushTrail0 | XSB/emu/binding.h:72-92 | a three-word frame above both trail registers, with a lower parent; no word at or below them changes |
| Trail.TrailStack.PushPreImageTrail0 | XSB/emu/binding.h:95-118 | the same with four words and the old value |
| Trail.TrailStack.BindCopy | XSB/emu/binding.h:215 | the cell is bound, with a frame exactly if it is conditional; all choice points and all frozen environments can still be restored; the frame names the cell and its new value |
| Trail.TrailStack.UpdateCell | XSB/emu/binding.h:127-128 | with the write its callers make, the cell gets its new value, the old one kept in a frame exactly if the cell is conditional; all choice points and frozen environments can still be restored; the frame holds the old value |
| Trail.TrailStack.MakeChoicePoint | XSB/emu/emuloop_aux.h:36-64 | records the trail register and the tops of the stacks; from then on exactly the cells below these or below the freeze registers are conditional |
| TrailEnv.SoundPushed | XSB/emu/binding.h:72-118 | a frame above both registers that undoes the write keeps all choice points and frozen environments restorable, and every frame of the chain of a conditional cell, with its value |
| Trail.TrailStack.Untrail2 | XSB/emu/binding.h:223-229 | puts back the old value, or frees the cell |
| Trail.TrailStack.UndoBindings | XSB/emu/sw_envs.h:96-101 | walks the parents back to the saved register |
| TrailSpec.UntrailTwice | XSB/emu/sw_envs.h:96-101 | untrailing to a frame and from there on equals untrailing at once |
| Trail.TrailStack.Freeze | XSB/emu/sw_envs.h:33-42 | records the environment: from now on the cells below the tops of the stacks, which are at or above those of the last choice point, are conditional, and the trail up to its top is never overwritten |
| Trail.TrailStack.FrozenRestored | XSB/emu/binding.h:120-121 | after any run the trail below a freeze is word for word as it was, and while its top is on the current chain, untrailing to it gives every cell frozen then the value it had |
| Trail.TrailStack.Backtrack | XSB/emu/sw_envs.h:86-101 | after any run of bindings, updates, choice points, freezes, switches, cuts and earlier failures, every cell that was conditional when the choice point was made, older or frozen, has the value it had then, and older choice points stay restorable |
| Trail.TrailStack.DropChoicePoint | XSB/emu/emuloop_aux.h:91-106 | taking the last alternative, after failing back, removes the choice point and keeps the others restorable |
| Trail.TrailStack.UnwindTrail | XSB/emu/cut_xsb.h:191-206 | ends; the tidied segment keeps exactly its conditional frames, in order; no word at or below the limit changes, and above it only parent links; what is restored below is the same for every conditional cell |
| TrailSpec.TidySkip | XSB/emu/cut_xsb.h:200-202 | skipping an unconditional frame keeps what is restored below |
| TrailSpec.TidyKeep | XSB/emu/cut_xsb.h:203-205 | keeping a conditional frame does so too |
| TrailSpec.RelinkUntrail | XSB/emu/cut_xsb.h:200-202 | untrailing over the relinked chain gives conditional cells the same values, for any cell contents |
| Trail.TrailStack.CutTo | XSB/emu/cut_xsb.h:122-146 | after a cut, untrailing to any choice point or freeze left gives every cell conditional then its value, and the trail above the limit is the old one without its unconditional frames |
| TrailEnv.SoundCut | XSB/emu/cut_xsb.h:186-206 | tidying above limit keeps all choice points left and all frozen environments restorable; every frame left is of a conditional cell and records its value |
| Trail.TrailStack.WalkTo | XSB/emu/sw_envs.h:49-84 | the walk ends at the common frame of the two chains; the cells are untrailed to it and the frames of the other chain done again; every parent link turned around on the way is turned back, so no word of the trail has changed |
| TrailSwitch.ReverseOne | XSB/emu/sw_envs.h:64-69 | turning one more link around keeps the way back and touches no other word |
| TrailSwitch.RestoreOne | XSB/emu/sw_envs.h:71-83 | turning the last one back gives its word again |
| TrailSpec.UntrailRedone | XSB/emu/sw_envs.h:59-82 | doing frames again on cells that agree with what untrailing them left gives the cells from before, and untrailing them once more leads back |
| TrailSwitch.SoundResumed | XSB/emu/sw_envs.h:49-84 | with untrailing to any common frame and doing the frames of a frozen environment again, its frozen cells have their values, its choice points can be restored, and all other frozen environments still can be resumed |
| Trail.TrailStack.SwitchEnvs | XSB/emu/sw_envs.h:49-84 | after any run, switching to any environment frozen before gives every cell frozen then the value it had, changes no word of the trail, and leaves its choice points and all other frozen environments restorable |
| ThreadDeps.CheckInsSubg | XSB/emu/conc_compl.c:42-63 | keeps one entry per thread, with the oldest subgoal; reports exactly whether the dependency is new; aborts exactly if the list is full and the thread is not in it |
| ThreadDeps.PropagateDeps | XSB/emu/conc_compl.c:109-131 | takes in exactly the unfinished foreign subgoals; leader becomes the oldest own unfinished one met, if that is older; reports exactly whether one was new; aborts exactly if list and subgoals name more than 255 threads |
| ThreadDeps.ThreadTable.OnePass | XSB/emu/conc_compl.c:157-173 | deals with every dependency of the list and takes in exactly what they bring; a new dependency found was not covered before; aborts exactly if that and the list name more than 255 threads |
| ThreadDeps.PassEnd | XSB/emu/conc_compl.c:152-177 | a pass without new dependencies has reached the fixpoint |
| ThreadDeps.Fewer | XSB/emu/conc_compl.c:152-177 | every other pass covers more of the finitely many subgoals, so the loop ends |
| ThreadDeps.ThreadTable.UpdateDeps | XSB/emu/conc_compl.c:145-177 | the list has one entry for exactly each thread reached through blocked threads, at least as old as every subgoal reached and itself reached; leader is the oldest own subgoal met or the old leader; busy holds exactly if a reached thread is not blocked; aborts exactly if more than 255 threads are reached, so never with 256 threads in all |
| ThreadDeps.FixpointMeans | XSB/emu/conc_compl.c:145-177 | the fixpoint in terms of the tables: the list covers the direct dependencies and what listed blocked threads depend on, and lies in every set closed under both; busy holds exactly if a listed thread is not blocked; leader is the old one or the age of an own subgoal that a listed blocked thread depends on |
| ThreadDeps.ThreadTable.CheckForSCC | XSB/emu/conc_compl.c:226-257 | true exactly if every thread listed has an SCC leader at least as old as the subgoal depended on, names only listed threads and the caller, and names all other listed ones, and conversely |
| ThreadDeps.SccExactly | XSB/emu/conc_compl.c:226-257 | the check in terms of ages and lists: the leader of every listed thread is at least as old as the subgoal depended on, and the two lists name each other's threads, these two threads aside |
| ThreadDeps.LeaderDecides | XSB/emu/conc_compl.c:238-240 | with one dependency of age 3 and lists that agree, the check succeeds exactly for a leader of age 3 or more |
| ThreadDeps.SccClosed | XSB/emu/conc_compl.c:226-257 | then the caller and the listed threads depend on no other thread, and listed threads name each other |
| ThreadDeps.OneComponentIff | XSB/emu/conc_compl.c:226-257 | when the check succeeds, all listed threads depend on the caller if and only if one of them has the caller in its list, or none is listed |
| ThreadDeps.SccOneWay | XSB/emu/conc_compl.c:226-257 | the check does not ask that the listed threads depend on the caller: it succeeds for a caller that depends on two threads that depend on each other only |
| WaitsFor.ClosesCycle | XSB/emu/deadlock.c:22-36 | a new wait closes a cycle exactly if the waiter is reached from the thread waited for |
| WaitsFor.WaitTable.WouldDeadlock | XSB/emu/deadlock.c:22-36 | ends and answers exactly that |
| WaitsFor.WaitTable.WaitForTable | XSB/emu/bineg_xsb_i.h:143-155 | a wait is added exactly if it closes no cycle |
| WaitsFor.WaitTable.ClearPath | XSB/emu/deadlock.c:123-129 | exactly the threads on the path to the leader stop waiting; the path is remembered |
| WaitsFor.WaitTable.RedirectPath | XSB/emu/deadlock.c:132-139 | exactly those threads then wait for the leader, without a cycle |
| WaitsFor.WaitTable.ResetOtherThreads | XSB/emu/deadlock.c:118-140 | both together: exactly the waiting threads met on the way to the leader now wait for it; all others wait as before |
| WaitsFor.StepSound | XSB/emu/deadlock.c:118-140 | every single step keeps the waits acyclic, with the mutex released between clearing and redirecting, if a leader starts with no outstanding wait |
| WaitsFor.NeverCyclic | XSB/emu/bineg_xsb_i.h:143-157 | so in every interleaved run the waits never form a cycle |
| WaitsFor.WaitingLeaderCycle | XSB/emu/deadlock.c:131-139 | a leader that still waits when it starts always allows an interleaving that closes a cycle |
| Boxed64.OverflowOutside61 | XSB/emu/cell_xsb.h:370-371 | tagging loses bits exactly outside of 61 bits |
| Boxed64.SplitFloat | XSB/emu/box_defines.h:56-61 | splitting any pattern 16/24/24 beside the box id and rejoining gives it back |
| Boxed64.Heap.BldBoxedInt | XSB/emu/cell_xsb.h:373-379 | the boxed number is read back unchanged |
| Boxed64.Heap.BldOint | XSB/emu/cell_xsb.h:382-385 | every number is read back unchanged and is boxed exactly outside of 61 bits |
| Boxed64.Heap.BldBoxedFloat | XSB/emu/cell_xsb_i.h:38-50 | every float pattern is read back unchanged, and is not taken for a boxed integer |
| Boxed32.OverflowOutside29 | XSB/emu/cell_xsb.h:370-371 | tagging loses bits exactly outside of 29 bits |
| Boxed32.SplitFloat | XSB/emu/box_defines.h:65-72 | splitting the two words of any pattern and rejoining gives them back |
| Boxed32.Heap.BldBoxedInt | XSB/emu/cell_xsb.h:373-379 | the boxed number is read back unchanged |
| Boxed32.Heap.BldOint | XSB/emu/cell_xsb.h:382-385 | every number is read back unchanged and is boxed exactly outside of 29 bits |
| Boxed32.Heap.BldBoxedFloat | XSB/emu/cell_xsb_i.h:38-50 | every float pattern is read back unchanged, and is not taken for a boxed integer |

## Left out

- WaitsFor.StepSound: a suspended thread on the path is taken to stay suspended until it is redirected; spurious wake-ups of
  condition variables in between are not modelled.
- ReclaimSpec.UnpinnedExactly: marks are kept per clause and not per chain, so "would notice" speaks of all instructions of the records
  choice points are in, not only of the one each is at; a deletion that only touches another chain of the clause may be refused.
- ChainRun.CallTriesAll: every clause entered fails at once, so that all alternatives are tried; bodies, cuts and changes of the
  predicate during the call are not part of these runs.
- RecomputeOrder.CallList.DfsDependencyEdges: tables in use by answer-trie choice points (`find_the_visitors`) are not modelled; in
  the compiled configuration that call does not change the traversal.
- ClauseReclamation.Reclaimer.DropSobIfSafe: an emptied SOB record that cannot be dropped stays in its chain with a failing
  instruction; later additions to the predicate, which could put clauses into it, are outside of the model.
- InvalidationPass.CallNodes.InvalidateCall: the stack grows as needed; the lost result of `mem_realloc` at
  `call_graph_xsb.c:654` is not modelled.
- Predicates indexed on several arguments, jointly or nested, lookups without a bound argument on mixed chains, and unindexed
  predicates beyond their chain operations.
- The clause compiler for heads (unify mode), variables inside structures, pre-counted `$assertVAR` terms, attributed variables,
  floats and interned terms; boxed integers in arguments (a body argument number is loaded as one cell); reference chains inside
  the asserted term (terms are values).
- Layout of emitted code in bytes, heap tests, register initialisation flags and profiling segments.
- Retractall and abolish beyond the lists of deferred deletions; collection with several threads or private predicates; other
  predicates on the choice point stack only appear as choice points of no interest.
- Trail.TrailStack.Freeze: the register `bfreg` of the choice point stack, which decides whether a switch freezes first, is not
  modelled; a freeze can happen at any time.
- Attributed-variable interrupts at a cut; the resetting of the freeze registers when tables are completed (a freeze lasts for the
  rest of the run here); which frozen environment is resumed next.
- Waking other threads, the search for further answers and the completion that follow the thread-dependency update; the resetting
  of stacks of redirected threads.
- Memory exhaustion, machine addresses (records are named by numbers), 32-bit wrap-around of counters, and the order in which
  hash tables are iterated (any fixed order of a node's edges is allowed).
- Byte order of doubles and the conversion between `Float` and its bits; a float is its bit pattern.
