# Models and proofs for a serving stack and its benchmarks

A Dafny model of the algorithms in this repository whose correctness cannot be read off their code:
the router's multi-tenant prefix tree, the random token eviction of the key-value cache, the
four-stage parallel expert sort, three closed-loop load generators, an incremental event-stream
reader, and some smaller pieces. `dafny verify dfyconfig.toml` checks everything.

| files | what is modelled | main results |
|---|---|---|
| `RadixNodes`, `RadixCounts`, `RadixEviction`, `RadixSteps`, `RadixOrder`, `RadixTree` | the router's prefix tree | insertion, matching, eviction and removal refine a set of stored texts per tenant; counts equal the number of stored texts; access times change exactly on the way to a text; eviction takes no node of a tenant that is within the limit, and takes them in the order of last use exactly if times never grow away from the root |
| `TokenEviction` | random token-level eviction from the cache | exactly the tokens asked for leave, or nothing is left to take; tokens are conserved; what stays is a front part of what was there, in the same place; marked and locked nodes are safe; when a phase begins |
| `MoeCounting`, `MoeAlign`, `MoeSchedule`, `MoeAccesses` | the four Triton kernels and their launcher | the sort is a stable, padded counting sort in closed form, under every interleaving of single loads and stores |
| `MultiTurn`, `MultiTurnReplies` | overlapping tasks on shared conversations | every history is that of the finished turns and their replies, although the counter may go back; what holds at exit, and that it is reached |
| `ClosedLoop`, `ClosedLoopRuns`, `ClosedLoopHistories`, `LostResponse`, `SenderStops`, `Workload`, `Sums` | sender and response thread | one place per client, the bound on parallel requests without a lock, conservation of prompts, draining; what every history says; exactly when a response is lost and when the sender stops |
| `Requeue`, `RequeueReplies` | conversations that requeue themselves | never queued twice, never blocked, turns and queue in order, replies recorded, drained at the end |
| `EventStream`, `EventPayloads` | the reader of server-sent events | the result of a stream without CR CR LF does not depend on where it is cut, and only for such streams do all cuts give the same events; what the result says about the payloads; events written as lines are read back |
| `LineLinks` | redirect chains with ring detection | exact rings, paths and values despite overwriting in place |
| `FixFracs` | rewriting of fractions | idempotent; only braces change; exactly when anything changes |
| `FloatMax`, `WarpReduce` | maximum by integer atomics and by butterfly exchange | the maximum, in any order; exactly when it fails |
| `TokenLatency`, `OverlapMerge` | latency accounting and overlap merging | sums and counts; the shortest merge |
| `Common` | declarations that several modules use | |

How the models are built:

- Code that updates fields or buffers in place is a class, or a method on arrays, whose loops follow
  the source; each is proved against a function or a state machine, about which the lemmas speak.
- Concurrency is a state machine whose steps are the source's atomic pieces: a single load or store
  in the kernels, the code between two awaits of a task, a single statement of a thread on shared
  state. A run is any sequence of events; results are about all runs.
- Linked nodes are entries of an arena and references are indices, so a node reached by two
  references is one node. The ghost map of paths in the prefix tree and the `places` and `sent` logs
  of the load generators serve the proofs; no step looks at them.
- The clock, the random choices, the order in which a hash map is walked, the server's answers, JSON
  and the tokenizer are parameters or arbitrary choices.

Where code and expectation differ, the code is followed, a lemma shows a case, and the exact condition
is proved:

- `long.py` rewrites CR LF in the buffer each time a chunk arrives. The events cut from a stream and
  the leftover are the same for every cut exactly if the stream has no CR CR LF
  (`CutsAgreeExactlyIf`), and then so is the result; this is weaker than having no two CR in a row.
  With CR CR LF the result may or may not depend on the cut (`CutMatters` is a stream where it does).
- `atomicMaxFloat` treats negative zero as a value not below zero and then leaves a negative cell as
  it is (`NegativeZeroIsLost`, `MaximumExactlyIf`); `blockReduceMax` lets missing lanes count as zero
  (`MissingLanesCount`, `BlockMaximumExactlyIf`) and gives the other warps zero.
- The response thread of the first load generator can leave before the last response has arrived
  (`ResponseCanBeLost`): exactly if at that moment a response is queued or a request is between its
  update of the progress bar and its `put` (`NothingLostExactlyIf`).
- Once every request has been answered the sender of that generator need not stop: with the response
  thread gone it goes round for ever if as many requests as allowed are outstanding (`SenderCanRunOn`,
  `StopsExactlyIf`).
- The output length reported by the latency accounting is the last count of the events after the first
  one, not the largest, and zero if there are none (`LengthCanDiffer`, `ReportedLengthExactlyIf`).
- If the clock goes back, eviction from the prefix tree need not be least recently used
  (`OlderIsKept`). It is, for every limit and every way to break ties, exactly if times never grow away
  from the root (`LeastRecentlyUsedExactlyIf`), which insertion and matching keep while the clock does
  not go back.
- `collect_leaves` misses a node that becomes a leaf when its children without tokens are deleted, as
  it has been passed by then (`LeafMissed`): exactly if there is such a node
  (`NothingMissedExactlyIf`). `Evict` says so. With as many values as keys the cache's own insertion
  and split give tokens to every node but the root (`radix_cache_lrt.py`, lines 156-192), and an eviction
  keeps that (`StillFilled`).

Three tests in the eviction of tokens can never succeed: those for a leaf without an entry and for an
empty leaf in `evict_core`, and that for an empty leaf at the end of `evict`, since an entry always has
tokens left. The model proves that and leaves the branches out.

## Model

| member | source | states |
|---|---|---|
| RadixTree.Tree.constructor | sglang-0.4.6/sgl-router/src/tree.rs:93-103 | a new tree stores nothing for anyone and counts no one |
| RadixSteps.SharedPrefixCount | sglang-0.4.6/sgl-router/src/tree.rs:63-78 | the number of characters two texts have in common at the front, and no more |
| RadixTree.Tree.Walk | sglang-0.4.6/sgl-router/src/tree.rs:254-285 | the descent stops exactly where the longest held prefix of the text ends, and at a node of the tenant asked for |
| RadixTree.Tree.Insert | sglang-0.4.6/sgl-router/src/tree.rs:105-247 | the tenant has afterwards stored the text and all its prefixes, nobody else gains or loses any text, counts of others are unchanged, every count still equals the characters in the nodes of its tenant; the tenant was last seen now at exactly the nodes on the way to the text and no other access time has changed; unless the clock goes back access times never grow away from the root |
| RadixTree.Tree.InsertStep | sglang-0.4.6/sgl-router/src/tree.rs:125-246 | one pass through the loop: a new leaf, a split, or moving on to the child |
| RadixSteps.InsertedKeeps | sglang-0.4.6/sgl-router/src/tree.rs:125-246 | whichever of the three it was, the pass advances in the text, adds exactly the longer prefixes for the tenant, and keeps shape, counts and access times |
| RadixTree.Tree.TouchUp | sglang-0.4.6/sgl-router/src/tree.rs:306-313 | exactly the nodes on the way to the root get the new access time |
| RadixTree.Tree.PrefixMatch | sglang-0.4.6/sgl-router/src/tree.rs:250-318 | the longest prefix of the text that anyone has stored, with a tenant who has stored it, or "empty" if nothing is stored at all; that tenant, unless its name is "empty", is seen now at exactly the nodes on the way to the one where the prefix ends, and nothing else changes |
| RadixTree.Tree.PrefixMatchTenant | sglang-0.4.6/sgl-router/src/tree.rs:320-383 | the longest prefix of the text that this tenant has stored; if it has stored anything it is seen now at exactly the nodes on the way to that prefix, otherwise nothing changes |
| RadixTree.Tree.PrefixLenTenantNoTouch | sglang-0.4.6/sgl-router/src/tree.rs:386-428 | the length of that prefix, with nothing changed |
| RadixTree.Tree.EvictTenantBySize | sglang-0.4.6/sgl-router/src/tree.rs:453-530 | afterwards no tenant holds more than the limit; nobody gains a text and tenants within the limit lose none; the losses, listed in the order in which they happen, each once, account for all that is gone, and before each of them its tenant still held more than the limit; if times never grow away from the root no lost node of a tenant was used later than one it keeps; the outcome is that of a run of the loop, always taking an oldest entry |
| RadixTree.Tree.EvictNext | sglang-0.4.6/sgl-router/src/tree.rs:483-524 | the entry with the oldest access time is taken; it is skipped if its tenant is within the limit |
| RadixTree.Tree.RemoveTenant | sglang-0.4.6/sgl-router/src/tree.rs:532-570 | the tenant has no stored text and no count left; everyone else is unaffected |
| RadixNodes.Below | sglang-0.4.6/sgl-router/src/tree.rs:18-23 | a node whose path extends another node's path is reached through the child for the next character |
| RadixNodes.Unique | sglang-0.4.6/sgl-router/src/tree.rs:18-23 | no two nodes stand for the same text |
| RadixNodes.SplitStores | sglang-0.4.6/sgl-router/src/tree.rs:183-217 | splitting a node changes no stored text |
| RadixNodes.DropStores | sglang-0.4.6/sgl-router/src/tree.rs:502-513 | a tenant taken off a leaf loses exactly the texts that end inside that leaf |
| RadixNodes.DropSound | sglang-0.4.6/sgl-router/src/tree.rs:502-513 | unlinking a node left without tenants and children keeps the shape of the tree, and no node without tenants stays behind |
| RadixEviction.OldestLeaf | sglang-0.4.6/sgl-router/src/tree.rs:483-524 | the oldest queued leaf of a tenant over the limit is the least recently used of all its nodes, inner ones included |
| RadixEviction.NothingQueued | sglang-0.4.6/sgl-router/src/tree.rs:483-524 | when the queue runs empty nobody is over the limit |
| RadixOrder.LeastRecentlyUsedExactlyIf | sglang-0.4.6/sgl-router/src/tree.rs:453-530 | whatever the limit and however ties are broken, no tenant loses a node seen later than one it keeps, exactly if times never grow away from the root |
| RadixOrder.OlderIsKept | sglang-0.4.6/sgl-router/src/tree.rs:453-530 | not promised by the code: after three insertions with a clock that goes back the oldest entry is taken although an older node is kept |
| RadixCounts.UsedCountsTexts | sglang-0.4.6/sgl-router/src/tree.rs:601-625 | the character count of a tenant is the number of different non-empty texts it has stored |
| TokenEviction.RandomRadixCache.Evict | sglang-0.4.6/python/sglang/srt/mem_cache/radix_cache_lrt.py:202-242 | exactly the number of tokens asked for is freed, or no unmarked, unlocked leaf with tokens is left apart from nodes that had a child without tokens; freed and remaining tokens together are the tokens from before and the size is kept in step; whatever stays was there before, under the same parent, and holds a front part of its old tokens, all of them unless it is a leaf; root and locked nodes keep their tokens, and so do marked ones unless a new phase began, which happens exactly if marked count plus need reach the limit or the candidates hold less than the need; the count of marked tokens is then zero and else unchanged, and if it was the number of tokens in marked nodes it still is |
| TokenEviction.RandomRadixCache.ChooseLeaves | sglang-0.4.6/python/sglang/srt/mem_cache/radix_cache_lrt.py:206-220 | a new phase unmarks every node, and it begins exactly if marked count plus need reach the limit or the candidates hold less than the need; the leaves chosen are the candidates |
| TokenEviction.RandomRadixCache.StartNewPhase | sglang-0.4.6/python/sglang/srt/mem_cache/radix_cache_lrt.py:50-73 | every node but the root is unmarked |
| TokenEviction.RandomRadixCache.CollectLeaves | sglang-0.4.6/python/sglang/srt/mem_cache/cy_evict.pyx:6-37 | leaves without tokens are deleted, and exactly the unmarked, unlocked leaves with tokens are collected, each once, with their number of tokens; only nodes that this turns into leaves are missed |
| TokenEviction.PrunedCandidates | sglang-0.4.6/python/sglang/srt/mem_cache/cy_evict.pyx:6-37 | which leaves are candidates after the deletion: those from before, and the nodes that only had children without tokens |
| TokenEviction.NothingMissedExactlyIf | sglang-0.4.6/python/sglang/srt/mem_cache/cy_evict.pyx:6-37 | every candidate that is left has been collected exactly if no node becomes a leaf by the deletion, and none does if only the root may be without tokens |
| TokenEviction.LeafMissed | sglang-0.4.6/python/sglang/srt/mem_cache/cy_evict.pyx:6-37 | a tree with a leaf without tokens in which the one candidate left is not collected |
| TokenEviction.StillFilled | sglang-0.4.6/python/sglang/srt/mem_cache/radix_cache_lrt.py:202-242 | if no node is without tokens to begin with then this stays so, and an eviction that falls short leaves only locked leaves |
| TokenEviction.RandomRadixCache.EvictCore | sglang-0.4.6/python/sglang/srt/mem_cache/cy_evict.pyx:40-87 | the loop stops short of the need only when no candidate is left and the capacity was below the need; tokens taken and tokens freed stay in balance, and the list of leaves is only written inside its bounds |
| TokenEviction.RandomRadixCache.TakeOne | sglang-0.4.6/python/sglang/srt/mem_cache/cy_evict.pyx:49-84 | one random pick: a token off the end of a leaf, deletion of a leaf that runs empty, and its parent joining the list when it has become a candidate |
| TokenEviction.TakenKeeps | sglang-0.4.6/python/sglang/srt/mem_cache/cy_evict.pyx:49-84 | whatever leaf is picked, the list stays the set of candidates without repetition; a picked leaf always has an entry with tokens left |
| TokenEviction.RandomRadixCache.CutEnds | sglang-0.4.6/python/sglang/srt/mem_cache/radix_cache_lrt.py:226-235 | the tokens taken off the ends of the leaves that stay are freed, and all the books close |
| MoeCounting.OwnerExists | sglang-0.4.6/sgl-kernel/benchmark/bench_moe_align_block_size.py:27-33 | every token before the end of some slice lies in the slice of a program |
| MoeCounting.OwnerUnique | sglang-0.4.6/sgl-kernel/benchmark/bench_moe_align_block_size.py:27-33 | no token lies in the slices of two programs |
| MoeCounting.StartAligned | sglang-0.4.6/sgl-kernel/benchmark/bench_moe_align_block_size.py:57-63 | every segment start is a multiple of the block size |
| MoeCounting.PaddedTotalBounds | sglang-0.4.6/sgl-kernel/benchmark/bench_moe_align_block_size.py:57-63 | the padded total lies between the number of entries and the size of the buffers and is a multiple of the block size |
| MoeCounting.PosInSegment | sglang-0.4.6/sgl-kernel/benchmark/bench_moe_align_block_size.py:86-93 | the slot of a token lies in the used part of the segment of its own expert |
| MoeCounting.PosOrder | sglang-0.4.6/sgl-kernel/benchmark/bench_moe_align_block_size.py:86-93 | slots are ordered by expert first and by position in the input second, both ways: the sort is stable |
| MoeCounting.PosInjective | sglang-0.4.6/sgl-kernel/benchmark/bench_moe_align_block_size.py:86-93 | no two tokens share a slot |
| MoeCounting.PosSurjective | sglang-0.4.6/sgl-kernel/benchmark/bench_moe_align_block_size.py:86-93 | the used part of a segment has no holes |
| MoeAlign.Stage1Program | sglang-0.4.6/sgl-kernel/benchmark/bench_moe_align_block_size.py:17-33 | a program adds to its own row the number of times each expert occurs in its slice, once per token |
| MoeAlign.BumpedContents | sglang-0.4.6/sgl-kernel/benchmark/bench_moe_align_block_size.py:29-33 | adding one per token is counting occurrences; no other row changes |
| MoeAlign.Stage2Program | sglang-0.4.6/sgl-kernel/benchmark/bench_moe_align_block_size.py:36-46 | a program replaces its column by the running sums of that column and touches no other |
| MoeAlign.ColumnOfSlices | sglang-0.4.6/sgl-kernel/benchmark/bench_moe_align_block_size.py:36-46 | the running sum of slice counts is the number of occurrences before the slice |
| MoeAlign.Stage3 | sglang-0.4.6/sgl-kernel/benchmark/bench_moe_align_block_size.py:49-63 | the buffer becomes the running sums of the counters of the last row, each rounded up to whole blocks, and the total is their sum |
| MoeAlign.SumsAreStarts | sglang-0.4.6/sgl-kernel/benchmark/bench_moe_align_block_size.py:49-63 | on the counts of stage 2 these sums are the starts of the padded segments |
| MoeAlign.LabelBlocks | sglang-0.4.6/sgl-kernel/benchmark/bench_moe_align_block_size.py:79-83 | exactly the blocks of the segment of the program's expert get its label |
| MoeAlign.ScatterSlice | sglang-0.4.6/sgl-kernel/benchmark/bench_moe_align_block_size.py:85-93 | each token of the slice goes to its slot, whose number is read off the table |
| MoeAlign.ScatteredContents | sglang-0.4.6/sgl-kernel/benchmark/bench_moe_align_block_size.py:85-93 | every token is found at its slot and every other slot keeps its value |
| MoeAlign.MoeAlignBlockSize | sglang-0.4.6/sgl-kernel/benchmark/bench_moe_align_block_size.py:96-140 | after the four stages token i is at the start of its expert's segment plus the number of earlier tokens of that expert, all other slots and all labels past the total are untouched, and every block of a segment carries its expert |
| MoeAlign.BuffersSuffice | sglang-0.4.6/sgl-kernel/benchmark/bench_moe_align_block_size.py:151-159 | the buffers as allocated are large enough for every input |
| MoeAlign.AlignInFreshBuffers | sglang-0.4.6/sgl-kernel/benchmark/bench_moe_align_block_size.py:151-175 | the whole sort on fresh buffers filled with the sentinel |
| MoeAlign.EachTokenOnce | sglang-0.4.6/sgl-kernel/benchmark/bench_moe_align_block_size.py:96-140 | every slot holds either the sentinel or the one token whose slot it is, inside the segment of its expert |
| MoeAlign.LabelsMatchTokens | sglang-0.4.6/sgl-kernel/benchmark/bench_moe_align_block_size.py:79-93 | the label of the block of a token is its expert |
| MoeAlign.EveryBlockLabelled | sglang-0.4.6/sgl-kernel/benchmark/bench_moe_align_block_size.py:79-83 | every block below the padded total carries the label of the one expert whose segment holds it |
| MoeSchedule.NoConflict1 | sglang-0.4.6/sgl-kernel/benchmark/bench_moe_align_block_size.py:17-33 | two programs of stage 1 never touch a cell that one of them writes, in whatever two reachable states they access it |
| MoeSchedule.NoConflict2 | sglang-0.4.6/sgl-kernel/benchmark/bench_moe_align_block_size.py:36-46 | the same for stage 2 |
| MoeSchedule.NoConflict4 | sglang-0.4.6/sgl-kernel/benchmark/bench_moe_align_block_size.py:66-93 | the same for stage 4, over slots, labels and counters |
| MoeAccesses.AccessIs1 | sglang-0.4.6/sgl-kernel/benchmark/bench_moe_align_block_size.py:17-33 | a turn of stage 1 changes no cell but the one its access stores to, and depends on no cell but the one its access loads |
| MoeAccesses.AccessIs2 | sglang-0.4.6/sgl-kernel/benchmark/bench_moe_align_block_size.py:36-46 | the same for stage 2 |
| MoeAccesses.AccessIs4 | sglang-0.4.6/sgl-kernel/benchmark/bench_moe_align_block_size.py:66-93 | the same for stage 4 and its three buffers |
| MoeSchedule.AnySchedule1 | sglang-0.4.6/sgl-kernel/benchmark/bench_moe_align_block_size.py:17-33 | under every interleaving of single loads and stores stage 1 ends with the slice counts |
| MoeSchedule.AnySchedule2 | sglang-0.4.6/sgl-kernel/benchmark/bench_moe_align_block_size.py:36-46 | under every interleaving stage 2 ends with the counts before each slice |
| MoeSchedule.AnySchedule4 | sglang-0.4.6/sgl-kernel/benchmark/bench_moe_align_block_size.py:66-93 | under every interleaving stage 4 ends with the aligned result |
| MoeSchedule.AlignedUnique | sglang-0.4.6/sgl-kernel/benchmark/bench_moe_align_block_size.py:96-140 | input and previous buffer contents determine the result |
| MoeSchedule.ScheduleIndependence | sglang-0.4.6/sgl-kernel/benchmark/bench_moe_align_block_size.py:110-140 | under any schedules of the three parallel stages, with the serial stage 3 run on what stage 2 leaves, the buffers end up exactly as when the programs run one after another |
| MultiTurn.RequestFuncInput.Begin | multi-turn.py:318-327 | index, prompt and history are captured together; an exhausted conversation raises |
| MultiTurn.RequestFuncInput.Finish | multi-turn.py:393-397 | prompt, history and counter are replaced together, from what was captured |
| MultiTurn.CompleteKeeps | multi-turn.py:393-397 | a reply that arrives when the conversation is further on, or back at an earlier turn, still leaves a consistent history |
| MultiTurn.RunInv | multi-turn.py:571-612 | the invariant holds after any sequence of launches, completions, failures and collections |
| MultiTurn.HistoriesAlwaysMatch | multi-turn.py:577-612 | in every reachable state the history is exactly that of the finished turns (roles alternate, the k-th user message is prompt k forced to its length), the counter does not exceed the number of prompts, and no more tasks are in flight than allowed |
| MultiTurn.ExitState | multi-turn.py:591-612 | when the loop exits nothing is in flight, the outputs are those of all tasks that did not raise, every conversation is complete, and successful outputs number at least the turns |
| MultiTurn.DriverNeverStuck | multi-turn.py:577-612 | until the loop has ended the driver can launch a task or go on |
| MultiTurn.TaskNeverStuck | multi-turn.py:318-397 | a task that is not done can begin or be replied to |
| MultiTurn.DriverExits | multi-turn.py:591-612 | once all tasks are done and every conversation is complete the loop ends within seven steps of the driver |
| MultiTurn.OneLaunchARound | multi-turn.py:591-597 | with a limited rate at most one task is launched before the wait of each round |
| MultiTurnReplies.MessagesAreReplies | multi-turn.py:393-397 | in every run the assistant message of a finished turn is the text of a reply to a task that played this turn, and the token budget of its prompt is that of such a reply; budgets without a reply are unchanged |
| MultiTurnReplies.OutcomesAre | multi-turn.py:318-397 | a task is over because it was replied to, or failed, or began when its conversation was complete |
| ClosedLoop.ReadyQueue.Pop | sglang-0.4.6/benchmark/hicache/bench_multiturn.py:206-217 | an empty queue gives nothing, FIFO the first item, random any one item, another policy raises; the rest stays in order |
| Workload.WorkloadGenerator.constructor | sglang-0.4.6/benchmark/hicache/bench_multiturn.py:221-257 | the initial state of the machine |
| Workload.WorkloadGenerator.HandleResponse | sglang-0.4.6/benchmark/hicache/bench_multiturn.py:302-328 | one round of the response thread is the corresponding steps of the machine |
| Workload.AlwaysAtHand | sglang-0.4.6/benchmark/hicache/bench_multiturn.py:302-328 | in every state that a run can reach the supply has a prompt for the follow-up, if one is needed |
| Workload.TurnIsRun | sglang-0.4.6/benchmark/hicache/bench_multiturn.py:302-328 | that round is a run of the machine in which only the response thread moves |
| ClosedLoop.RunInv | sglang-0.4.6/benchmark/hicache/bench_multiturn.py:259-331 | the invariant over places, queues and counters holds after any interleaving of the two threads and the requests |
| ClosedLoopRuns.EachClientOnce | sglang-0.4.6/benchmark/hicache/bench_multiturn.py:259-331 | a client is in exactly one place until its rounds are finished |
| ClosedLoopRuns.ParallelBound | sglang-0.4.6/benchmark/hicache/bench_multiturn.py:269-294 | the two unlocked counters never differ by more than the limit, and neither do the requests in flight exceed it |
| ClosedLoopRuns.SupplyConserved | sglang-0.4.6/benchmark/hicache/bench_multiturn.py:234-256 | prompts left and follow-ups handed out add up to all follow-ups, and the supply is never empty when one is taken |
| ClosedLoopRuns.SupplyLasts | sglang-0.4.6/benchmark/hicache/bench_multiturn.py:319-323 | the supply is not empty where a prompt is popped |
| ClosedLoopRuns.FullMeansDrained | sglang-0.4.6/benchmark/hicache/bench_multiturn.py:269-331 | once the progress bar is full nothing is ready or in flight, for ever, and the sender stops only then |
| LostResponse.NothingLostExactlyIf | sglang-0.4.6/benchmark/hicache/bench_multiturn.py:302-331 | in every run in which the response thread has left, every client has been served all its rounds exactly if, when it left, no request was between its update of the progress bar and its put and no response was waiting |
| LostResponse.ResponseCanBeLost | sglang-0.4.6/benchmark/hicache/bench_multiturn.py:302-331 | not promised by the code: a run in which the response thread leaves before the last response arrives |
| ClosedLoopHistories.HistoryIs | sglang-0.4.6/benchmark/hicache/bench_multiturn.py:302-328 | in every run a history is the first prompt followed, for each recorded round, by the text of the successful answer of that round and, if another round is due, by a follow-up; follow-ups come from the end of the supply, each given once; requests carry the history |
| ClosedLoopHistories.ResponsesInOrder | sglang-0.4.6/benchmark/hicache/bench_multiturn.py:259-310 | responses are taken in the order of the answers, and none is lost or added on the way |
| SenderStops.StopsInFive | sglang-0.4.6/benchmark/hicache/bench_multiturn.py:269-300 | once the progress bar is full and a request may be started, five statements of the sender are enough to stop it, however the threads interleave |
| SenderStops.StopsExactlyIf | sglang-0.4.6/benchmark/hicache/bench_multiturn.py:269-331 | when the response thread has ended, the sender can stop exactly if it is past its test or fewer requests than allowed are outstanding |
| SenderStops.SenderCanRunOn | sglang-0.4.6/benchmark/hicache/bench_multiturn.py:269-331 | not promised by the code: a run after which the sender never stops |
| Requeue.RequestFuncInput.Begin | sglang-0.4.6/benchmark/hicache/bench_serving.py:97-114 | the user message goes into the stored history at once; an exhausted conversation raises |
| Requeue.RequestFuncInput.Finish | sglang-0.4.6/benchmark/hicache/bench_serving.py:170-188 | the reply completes the turn, and the conversation goes back to the queue unless it was the last |
| Requeue.RunInv | sglang-0.4.6/benchmark/hicache/bench_serving.py:97-188 | the invariant over queue, tasks and histories holds after any sequence of events |
| Requeue.NeverTwice | sglang-0.4.6/benchmark/hicache/bench_serving.py:97-188 | a conversation is queued at most once or played by one task, never both; its user messages are its prompts in order, and texts and input lengths of prompts never change |
| Requeue.PutNeverBlocks | sglang-0.4.6/benchmark/hicache/bench_serving.py:184-188 | a conversation can always be put back into the bounded queue |
| Requeue.TurnsInOrder | sglang-0.4.6/benchmark/hicache/bench_serving.py:97-104 | turns are sent in order and each at most once |
| Requeue.DrainedAtTheEnd | sglang-0.4.6/benchmark/hicache/bench_serving.py:261-281 | after as many gets as there are turns the queue is empty and stays so |
| Requeue.MoreToCome | sglang-0.4.6/benchmark/hicache/bench_serving.py:261-281 | before that, and if no turn has failed, some conversation is queued or being played, and something other than a failure can happen |
| RequeueReplies.MessagesAreReplies | sglang-0.4.6/benchmark/hicache/bench_serving.py:170-188 | in every run each assistant message is the text of the reply to its turn, and the output length of a prompt is that of the reply or the one given |
| RequeueReplies.FirstInFirstOut | sglang-0.4.6/benchmark/hicache/bench_serving.py:261-281 | conversations leave the queue in the order in which they entered it |
| EventStream.ReadStream | long.py:184-234 | the three nested loops compute the chunk-by-chunk reader, with its early returns |
| EventPayloads.ReadChunksIs | long.py:199-234 | the result is good exactly if the last payload is [DONE]; no payload is looked at after one that ends the stream; after an exception the length is 0, and else it is the last token count, raised to 1 if a text without count follows, or without any count 1 or 0 according to whether there is a text; the payloads are those of the events |
| EventPayloads.DataLinesAre | long.py:200-207 | a data line counts with what follows the field name, without spaces in front; comments and other fields do not count |
| EventPayloads.StripIs | long.py:211-211 | white space is taken off both ends of a payload and nothing else |
| EventPayloads.LinesOfJoin | long.py:201-211 | splitting an event gives back the lines that were joined |
| EventPayloads.ReadsBack | long.py:184-234 | events written as lines, with LF or CR LF, are read back from whatever chunks: the payloads are those of their data lines |
| EventStream.FeedAllIsWhole | long.py:184-234 | after any chunks exactly the events of the text so far have been interpreted and the buffer holds what they leave over |
| EventStream.CutsAgreeExactlyIf | long.py:184-213 | the events cut from a stream and the leftover are the same for all chunks exactly if the stream has no CR CR LF |
| EventStream.ChunkInvariance | long.py:184-234 | for a stream without CR CR LF every cut into chunks gives the same payloads, outcome and count |
| EventStream.NoDoubleCrIsClean | long.py:190-191 | a stream without two CR in a row has no CR CR LF |
| EventStream.CleanIffPiecewise | long.py:190-191 | line ends can be rewritten piece by piece exactly if there is no CR CR LF |
| EventStream.CutMatters | long.py:190-213 | with CR CR LF the outcome can depend on the cut |
| LineLinks.BuildLinks | sglang-0.4.6/benchmark/line_retrieval/gen_data.py:56-77 | a line is in the rings exactly if its chain never ends; otherwise its link is the path and its value the original value at the end of the path, although values are overwritten on the way: wherever the chain from a line meets a line that holds a value, the line gets that value |
| LineLinks.RingNeverEnds | sglang-0.4.6/benchmark/line_retrieval/gen_data.py:67-74 | a line met twice means that the chain never ends |
| LineLinks.PathIsSimple | sglang-0.4.6/benchmark/line_retrieval/gen_data.py:64-77 | a path repeats no line |
| LineLinks.PathUnique | sglang-0.4.6/benchmark/line_retrieval/gen_data.py:64-77 | there is only one path |
| LineLinks.GroupByNumHoops | sglang-0.4.6/benchmark/line_retrieval/gen_data.py:79-84 | each group lists its members in the order of the file, each once, and no group is empty |
| LineLinks.GroupsPartition | sglang-0.4.6/benchmark/line_retrieval/gen_data.py:79-84 | every ring-free line is in exactly one group, one above that of its target |
| FixFracs.FixFracs | sglang-0.4.6/benchmark/reasoning_benchmark/answer_extraction.py:8-37 | the loop with its early return computes the rewriting of all pieces |
| FixFracs.JoinSplit | sglang-0.4.6/benchmark/reasoning_benchmark/answer_extraction.py:9-9 | joining the pieces gives back the string |
| FixFracs.SplitFixed | sglang-0.4.6/benchmark/reasoning_benchmark/answer_extraction.py:8-37 | splitting the rewritten string finds exactly the rewritten pieces |
| FixFracs.Idempotent | sglang-0.4.6/benchmark/reasoning_benchmark/answer_extraction.py:8-37 | rewriting twice is rewriting once, for every string |
| FixFracs.OnlyBracesChange | sglang-0.4.6/benchmark/reasoning_benchmark/answer_extraction.py:8-37 | without braces, input and output are the same text |
| FixFracs.ChangedExactlyIf | sglang-0.4.6/benchmark/reasoning_benchmark/answer_extraction.py:8-37 | the string changes exactly if every piece can be rewritten and some piece has no brace in front |
| FixFracs.ArgumentsBraced | sglang-0.4.6/benchmark/reasoning_benchmark/answer_extraction.py:15-34 | every rewritten \frac that had no brace behind it has two braced arguments, the next character and the one after it or the group that begins there |
| FloatMax.AtomicMaxFloat | sglang-0.4.6/sgl-kernel/include/utils.h:297-302 | signed maximum for values not below zero, unsigned minimum otherwise; the old value is returned |
| FloatMax.KeyOrder | sglang-0.4.6/sgl-kernel/include/utils.h:297-302 | bit patterns are ordered like the numbers they stand for (section 3.4 of IEEE 754-2019) |
| FloatMax.NumbersExactlyIf | sglang-0.4.6/sgl-kernel/include/utils.h:297-302 | the patterns that are not NaN are exactly those of numbers between minus and plus 2^128, infinities included |
| FloatMax.UpdateIsMaximum | sglang-0.4.6/sgl-kernel/include/utils.h:297-302 | one update computes the maximum exactly if it is not negative zero meeting a cell below zero |
| FloatMax.EndsAtMaximum | sglang-0.4.6/sgl-kernel/include/utils.h:297-302 | after any updates without negative zero the cell holds the maximum of all numbers, and one of them |
| FloatMax.MaximumExactlyIf | sglang-0.4.6/sgl-kernel/include/utils.h:297-302 | with negative zeros, exactly when the maximum of all numbers is still reached |
| FloatMax.NegativeZeroIsLost | sglang-0.4.6/sgl-kernel/include/utils.h:297-302 | not promised by the code: minus one is not raised to negative zero |
| FloatMax.AnyOrder | sglang-0.4.6/sgl-kernel/include/utils.h:297-302 | the order of the updates does not matter, down to the bits |
| WarpReduce.WarpMaximum | sglang-0.4.6/sgl-kernel/include/utils.h:304-311 | after the exchanges along all k bits every one of 2^k lanes holds the maximum |
| WarpReduce.WarpReduceMax | sglang-0.4.6/sgl-kernel/include/utils.h:304-311 | every lane of a warp gets the maximum of the warp, where NaN counts only if there is nothing else, and other warps are untouched |
| WarpReduce.BlockReduceMax | sglang-0.4.6/sgl-kernel/include/utils.h:313-327 | every lane of the first warp gets the maximum of the block and of zero for the missing lanes, the others get zero |
| WarpReduce.BlockMaximumExactlyIf | sglang-0.4.6/sgl-kernel/include/utils.h:313-327 | that is the block maximum exactly if no lane is missing or some input is zero or above |
| WarpReduce.MissingLanesCount | sglang-0.4.6/sgl-kernel/include/utils.h:313-327 | not promised by the code: a warp of minus ones gets zero |
| TokenLatency.Account | sglang-0.4.6/python/sglang/bench_serving.py:537-561 | the loop computes the accounting of all events, whatever the clock does |
| TokenLatency.NotStarted | sglang-0.4.6/python/sglang/bench_serving.py:537-543 | the event taken for the first one is the first after which the clock has moved, and nothing is counted before it |
| TokenLatency.LatenciesAddUp | sglang-0.4.6/python/sglang/bench_serving.py:537-561 | the latencies add up to the time between the event taken for the first one and the last accepted one, whatever the counts say and whatever the clock does |
| TokenLatency.LatenciesPositive | sglang-0.4.6/python/sglang/bench_serving.py:537-561 | with an advancing clock every latency is positive |
| TokenLatency.GapIsSplit | sglang-0.4.6/python/sglang/bench_serving.py:545-561 | an accepted event shares its gap evenly among the tokens it stands for; any other leaves the latencies as they are |
| TokenLatency.OnePerEvent | sglang-0.4.6/python/sglang/bench_serving.py:545-561 | without counts each event after the first is one token, whose latency is the time since the event before |
| TokenLatency.OneLatencyPerToken | sglang-0.4.6/python/sglang/bench_serving.py:545-561 | with counts on every event there is one latency for each token up to the largest count seen after the first event |
| TokenLatency.ReportedLengthExactlyIf | sglang-0.4.6/python/sglang/bench_serving.py:545-570 | if an event follows the first one, the length finally reported is the last count, and agrees with the number of latencies exactly if it is the largest; otherwise both are zero |
| TokenLatency.LengthCanDiffer | sglang-0.4.6/python/sglang/bench_serving.py:545-570 | not promised by the code: three tokens are timed and two reported |
| OverlapMerge.TrimOverlap | sglang-0.4.6/python/sglang/utils.py:475-486 | the longest overlap is dropped |
| OverlapMerge.Shortest | sglang-0.4.6/python/sglang/utils.py:475-486 | the result is the one shortest string that begins with the text and ends with the chunk |
| OverlapMerge.StreamAndMerge | sglang-0.4.6/python/sglang/utils.py:489-500 | the loop merges the chunks one by one |
| OverlapMerge.EachStepIsShortest | sglang-0.4.6/python/sglang/utils.py:489-500 | after each chunk the text is the one shortest string that begins with the text before and ends with the chunk |
| OverlapMerge.MergeGrows | sglang-0.4.6/python/sglang/utils.py:489-500 | the text only grows at its end and always ends with the latest chunk |
| OverlapMerge.CumulativeChunks | sglang-0.4.6/python/sglang/utils.py:489-500 | chunks that each extend the one before merge to the last one |
| OverlapMerge.ShorterOverlapRepeats | sglang-0.4.6/python/sglang/utils.py:475-486 | dropping a shorter overlap than the longest gives a longer string |

## Left out

- Router: policies, request forwarding, health checks and the prediction models; the router takes a lock around every operation on the tree, an exclusive one if the operation changes it (`sglang-0.4.6/sgl-router/src/router.rs:680-730`, `sglang-0.4.6/sgl-router/src/router.rs:1287-1332`), so the node-level concurrency of the tree is not modelled.
- Prefix tree: `get_smallest_tenant`, `get_used_size_per_tenant` and printing would only add easy members; the loops that collect leaves visit nodes by index instead of depth first, which the priority queue makes irrelevant; counts are unbounded integers.
- RadixTree.Tree.EvictTenantBySize: that lost nodes are the least recently used ones is promised only for times that never grow away from the root, which is exactly when it holds for every limit (`LeastRecentlyUsedExactlyIf`); the code does not ensure that the clock never goes back.
- Cache: insertion, matching and locking of the key-value cache, the order within a phase of marking, and the keys that are trimmed along with the values; `TokenEviction` starts from any tree, and does not exclude a separate ring of nodes that the root does not reach.
- TokenEviction.RandomRadixCache.Evict: the `disable` switch, which returns at once, is not modelled.
- Expert sort: the CUDA and vLLM versions and the comparison between them; 32-bit width (no stored value exceeds the size of the slot buffer, so nothing overflows if that size is representable); the token ids are a sequence because they are only read; single loads and stores are taken as atomic and seen by all programs at once.
- MultiTurn: HTTP, streaming and the semaphore, which can only delay a task since no more are in flight than the target; liveness of the driver when requests keep failing.
- ClosedLoop: metrics, sleeping times and the steps inside `sample_random_requests`; after a failed response the response thread is dead, as in the code. `HandleResponse` is one uninterrupted round (`TurnIsRun`); the machine also has every interruption of it.
- Requeue: shared-prefix mode, adapters and the timeout of a get; conversations are assumed not to be empty.
- EventStream: decoding of bytes, which drops characters split across chunks, `ttft` and the error texts; `parse` stands for JSON and may be any function of the payload.
- LineLinks: random generation of lines, and the few-shot and suffix parts; the value left in a line on a ring is not specified.
- FixFracs: the other rewritings of the file and `extract_boxed_answers` would only add easier members.
- FloatMax, WarpReduce: updates of the atomic that are NaN, partial warps (a shuffle with lanes that do not take part is undefined), and visibility of the shared array before the barrier.
- TokenLatency: rounding.
- OverlapMerge: the asynchronous variant, which yields the same trimmed chunks one by one.
