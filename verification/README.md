# Input-sensitive profiling, verified

A Dafny model of the algorithmic parts of the valgrind tools in this repository. Most of it is
about aprof, which measures how the cost of a routine grows with the size of its input; the
rest is about the data structures and algorithms of cachegrind, callgrind and the debuginfo
server. Code that updates objects in place is modelled as classes and methods over the same
fields, tables and pointers, each proved against a specification on values; what the tools
promise is then proved about the specification, for all inputs and all runs.

`dafny verify dfyconfig.toml` checks the whole project.

## What is modelled

**Read memory size** (`ActivationStack`, `Rms`, `RmsCompression`, `ActivationWords`,
`RmsThread`, `CallMatching`, `RmsEvents`). One identifier per memory granule and one partial count per stacked activation:
a read adds one on top and takes one from an activation further down, a return adds the
partial count to the parent. The specification looks at the whole history of accesses and
counts the granules whose first access since the entry of an activation was a read. The
suffix sums of the partial counts are that number in every run, also when identifiers wrap
around and everything is renumbered. `RmsThread` is the code on 32-bit fields.
`CallMatching` and `RmsEvents` tell the same from the stream of events alone: a call is open until a
return matches it, an access is profiled when some call is open and none of a skipped function
is, and the size recorded is the number of granules such accesses read first since the call.

**Dynamic read memory size** (`DrmsHistory`, `Drms`, `DrmsExact`, `DrmsEvents`, `DrmsStrays`, `DrmsSelf`,
`DrmsInvisible`, `DrmsCompression`, `DrmsOverflow`, `DrmsTables`, `DrmsRuntime`, `InputSizes`). Many threads, a
global counter, a shadow memory of latest writes and one of latest accesses per thread, and
kernel writes. Every interleaving of switches, calls, returns, accesses, system calls and
thread ends is a run. The counter is bounded: at its limit the stacks are merged and all
timestamps renumbered, and the machine still does what one with an unbounded counter does.
`DrmsEvents` tells from the actions alone what the history holds; `DrmsStrays` and `DrmsSelf` say
what the statistics count. `DrmsRuntime` is the code, down to the flag bit in the global words and the handler's merge
and binary search. `InputSizes` relates the two measures.

**Shadow memory and accesses** (`ShadowMap`, `LookupTable`, `Granules`), **event merging**
(`EventQueue`, `EventMerging`) and **cost accounting** (`Cost`, `CostEvents`, `CostThread`).
`CostEvents` says which blocks of the event stream each recorded cost counts.

**WordFM** (`Bindings`, `AvlTree`, `AvlMap`, `AvlNodes`, `AvlRemoval`, `WordFM`,
`WordFMCopy`, `SparseMap`). The in-place AVL map of the merging program, with its iterator over an explicit
stack and its deep copy.

**Profiles** (`Profiles`, `ProfileMerge`, `ProfileText`, `ProfileFiles`, `ProfileIO`,
`ProfileReading`, `Decimals`, `MergeCode`). Merging two cachegrind profiles, printing and parsing
them. `ProfileReading` says of every text whether it is read and which of its lines each count sums
up. `MergeCode` is the merge on objects and arrays.

**Cache simulation** (`LruStack`, `CacheSim`, `Caches`), **Adler-32** (`Adler32`), callgrind's
**quicksort** (`Partition`, `Quicksort`, `QuicksortCode`) and its **index of call arcs**
(`CallArcs`).

## Where the code does less than it says

- The statistic of input from other threads counts too much once the counter has run out: the
  renumbering turns the zero of an allocated but unwritten global word into one, so that the
  first read of it by a thread that had not used the segment is charged to somebody else.
  `DrmsStrays.ThreadInputIsExact` accounts for every such read over whole runs,
  `DrmsStrays.OverchargedRun` is a run with one.
- The comment above the counter's overflow handler announces three times the number of
  collected timestamps as the new counter; the code returns three times one more
  (`DrmsCompression.CounterAhead`).
- An access of size zero at an unaligned address touches one granule (`Granules.RangeIsExact`).
- callgrind's quicksort does not sort every range with ties (`Quicksort.NotAlwaysSorted`): the
  swap of the lower blocks should be clamped to the smaller of the two, for which a macro is
  defined and not used.
- cg_merge prints unsigned counts with a signed format, so that a file with a number of 2^63
  or more cannot be merged again (`ProfileText.RoundTrip`); the sum of two readable files can be
  such a file (`ProfileFiles.SumNotRead`).
- The comment on the iterator stack of WordFM promises 2^32 entries. The stack is deep enough
  just for the trees with `WordFMs.Need` at most 32: for every map below 9227464 bindings
  (`WordFMs.StackSuffices`), and not for a map of that many that is made by adding keys level by
  level (`WordFMs.SparseNeedsAll`, `SparseMaps.AddLevels`).
- The assertion on the sum of squared costs fails when that sum does not fit its 64-bit word
  (`CostThreads.SquaresHold`, `CostThreads.SquaresWrap`).
- A fresh cache answers a first reference to block 0 with a hit (`LruStack.MissIsDistance`).

## Model

| member | source | states |
|---|---|---|
| ActivationStack.CreditSum | valgrind/aprof/memory.c:68-76 | One read adds one to the top partial size and takes one from the activation the pointer walk finds; the sums that grow are exactly those of the activations entered after the old timestamp. |
| ActivationStack.FoldSum | valgrind/aprof/function.c:269-281 | A return changes no suffix sum of the activations that stay, for the sizes and both statistics. |
| ActivationStack.GetActivationByAid | valgrind/aprof/aprof.h:235-240 | The pointer walk from the second activation downwards ends at the topmost one whose identifier is at most the given one. |
| Rms.ReadMemorySizeStep | valgrind/aprof/memory.c:68-70 | By the history: an access enlarges the read memory size of an activation just when it is a read and the granule was not accessed since its entry. |
| Rms.EnterKeeps | valgrind/aprof/function.c:70-75 | Entering keeps the invariant (ids increasing, every cell between the right ids, suffix sums exact), renumbering included. |
| Rms.ExitKeeps | valgrind/aprof/function.c:269-276 | Returning keeps the invariant for all activations that stay. |
| Rms.TouchLocates | valgrind/aprof/memory.c:65-80 | After an access every cell still orders its granule's latest access among the entries of all live activations. |
| Rms.TouchCounts | valgrind/aprof/memory.c:65-80 | After an access every suffix sum is again the read memory size of its activation. |
| Rms.RunKeeps | valgrind/aprof/memory.c:36-81 | The invariant holds after every run of enters, exits and accesses, skipped functions and renumberings included. |
| Rms.SizesAreExact | valgrind/aprof/memory.c:65-80 | In every run, for every activation on the stack the partial sizes from it upwards, which may be negative one by one, add up to the number of granules whose first access since its entry was a read. |
| Rms.RecordedIsReadMemorySize | valgrind/aprof/function.c:186-196 | The input size recorded at a return is that number for the returning activation. |
| Rms.WrapAroundIsInvisible | valgrind/aprof/overflow.c:218-244 | Two runs of the same events with any two identifier ranges agree on all partial sizes: the wrap-around of the identifiers cannot be observed. |
| Rms.TouchesAreEvents | valgrind/aprof/memory.c:65-80 | Touching n granules one after the other continues a run with exactly n access events, the first and the last granule included. |
| Rms.TouchesHistory | valgrind/aprof/memory.c:57-80 | A whole access adds one entry for each of its granules to the history, or nothing outside profiled code. |
| CallMatching.OpenCallsAreOpen | valgrind/aprof/function.c:59-68 | The stack of calls holds, in order, exactly the calls that no return has matched: those from which on the calls always outnumber the returns. |
| CallMatching.PartsTell | valgrind/aprof/memory.c:57 | Something is on the stack and the skip counter is zero if and only if some call is open and none of a skipped function. |
| RmsEvents.RunFromEvents | valgrind/aprof/memory.c:57-80 | For every stream of events, from the stream alone: the history is the list of the accesses made while a call is open and none of a skipped function; the activations are the open calls below the first skipped one, each entered after the accesses before its call. |
| RmsEvents.InputIsReadFirst | valgrind/aprof/memory.c:68-76 | The granules that the history counts for a call are those of the stream that a profiled access reads before any other profiled access touches them since the call. |
| RmsEvents.SizesFromEvents | valgrind/aprof/memory.c:65-80 | For every stream and open profiled call, the partial sizes from it upwards add up to the number of granules that were read first since the call. |
| RmsEvents.RecordedFromEvents | valgrind/aprof/function.c:186-196 | At every point where the stream is profiled, the size a return would record is that number for the innermost open call. |
| RmsCompression.CompressionKeepsOrder | valgrind/aprof/lookup_table.c:468-526 | Renumbering answers every later comparison of a cell with a live identifier as before. |
| RmsCompression.CompressionKeepsOwner | valgrind/aprof/lookup_table.c:468-526 | After renumbering the pointer walk still finds the same activation. |
| ActivationWords.CreditFollows | valgrind/aprof/memory.c:70-75 | On 32-bit fields that wrap around, a credited read gives the words of the credited integers, negative partial sizes included. |
| ActivationWords.FoldFollows | valgrind/aprof/function.c:274-281 | The same for the sums a return adds to the parent. |
| ActivationWords.StackParts | valgrind/aprof/function.c:59-68 | What a stack whose upper activations belong to a skipped function shows: profiled ones below, and the skip count. |
| RmsThreads.RmsThread.OverflowHandler | valgrind/aprof/overflow.c:218-244 | The handler leaves the renumbered stack and the renumbered shadow memory, and returns depth + 1. |
| RmsThreads.RmsThread.FunctionEnter | valgrind/aprof/function.c:59-90 | On fields and reused stack slots: one enter step of the machine, with the identifier wrapping at 2^32. |
| RmsThreads.RmsThread.FunctionExit | valgrind/aprof/function.c:156-281 | One exit step; the recorded size is the read memory size of the exiting activation modulo 2^32, and nothing is recorded just for discarded routines and inside skipped regions. |
| RmsThreads.RmsThread.TouchGranule | valgrind/aprof/memory.c:65-80 | One loop iteration on shadow table and stack fields is one access of the machine. |
| RmsThreads.RmsThread.TraceAccess | valgrind/aprof/memory.c:57-81 | With a call on the stack and a skip counter of zero a whole access is one access to each granule of its range, in order, in the machine and in the history; otherwise it is none. |
| DrmsHistory.InputStep | valgrind/aprof/memory.c:174-200 | By the interleaved history: which read counts as dynamic input of an activation, and whether it is charged to the kernel or to another thread. |
| InputSizes.SizesRelate | valgrind/aprof/memory.c:174-200 | For every history: the read memory size bounds the dynamic one from below, exceeded by at most the reads of foreign values, and both are equal without foreign writes. |
| DrmsExact.EnteredKeeps | valgrind/aprof/function.c:76-86 | Entering keeps the invariant of all threads, with the counter renumbered before the new activation gets its identifier. |
| DrmsExact.ReturnedKeeps | valgrind/aprof/function.c:269-281 | Returning keeps it. |
| DrmsExact.SwitchedKeeps | valgrind/aprof/thread.c:143-168 | A thread switch, which bumps the counter and may start a thread, keeps it. |
| DrmsExact.StartedKeeps | valgrind/aprof/thread.c:36-74 | A new thread, also under a reused number, keeps it. |
| DrmsExact.FinishedKeeps | valgrind/aprof/thread.c:116-122 | A finished thread keeps it. |
| DrmsExact.TouchedKeeps | valgrind/aprof/memory.c:113-204 | An access of the running thread keeps the invariant of its own counts and of all other threads. |
| DrmsExact.AllKernelStoredKeeps | valgrind/aprof/syscall.c:121-131 | The kernel's stores to a buffer, after a bump of the counter, keep it. |
| DrmsExact.BumpKeeps | valgrind/aprof/overflow.c:129-214 | A bump of the counter keeps it, also when everything is renumbered. |
| DrmsExact.RunKeeps | valgrind/aprof/memory.c:83-205 | The invariant holds after every legal interleaving of switches, calls, returns, accesses, system calls and thread ends. |
| DrmsExact.SizesAreExact | valgrind/aprof/memory.c:174-200 | In every interleaving, for every thread and stacked activation the partial sizes from it upwards add up to its dynamic read memory size over the history; kernel input likewise exactly; both statistics together never exceed it; input from threads exactly while the counter never ran out. |
| DrmsExact.RecordedIsExact | valgrind/aprof/function.c:251-266 | What is recorded at a return: the dynamic size and the kernel input exactly, input from threads at least and, while the counter never ran out, exactly; together the statistics stay within the input size, as the code asserts. |
| Drms.KernelStoresAll | valgrind/aprof/syscall.c:121-131 | In profiled code a list of kernel stores gives every granule listed, and no other, the counter and the kernel's mark, and puts one kernel write for each into the history; otherwise it changes nothing. |
| Drms.TouchesAreActions | valgrind/aprof/memory.c:113-204 | Touching n granules one after the other continues a run with exactly n access actions. |
| Drms.TouchesHistory | valgrind/aprof/memory.c:108-205 | A whole access adds one entry for each of its granules, by the running thread, or nothing outside profiled code. |
| DrmsEvents.RunFromActions | valgrind/aprof/memory.c:108-204 | For every legal run, from the actions alone: which thread runs, which threads have data, and that the history is the list of accesses and kernel writes made while the thread concerned has an open call and none of a skipped function. |
| DrmsEvents.ThreadFromActions | valgrind/aprof/function.c:59-86 | Every thread's profiled activations are its open calls below the first skipped one, each entered after the history that precedes its call. |
| DrmsEvents.SizesFromActions | valgrind/aprof/memory.c:174-200 | The partial sizes and the kernel statistics from an open profiled call upwards, as counts over that list since the call. |
| DrmsCompression.LocalAnswer | valgrind/aprof/lookup_table.c:365-434 | Renumbering keeps the answer of every comparison of a private timestamp with a live identifier. |
| DrmsCompression.GlobalAnswer | valgrind/aprof/lookup_table.c:365-455 | It keeps the answer of every comparison with the latest write, except exactly for a never written granule in an allocated global segment where the thread has no segment. |
| DrmsCompression.CounterAhead | valgrind/aprof/overflow.c:186-214 | The returned counter exceeds every renumbered timestamp. |
| DrmsInvisible.CompressionIsInvisible | valgrind/aprof/overflow.c:56-215 | The same actions under two counter ranges give the same partial sizes and kernel statistics in every thread. |
| DrmsInvisible.BoundedSimulatesUnbounded | valgrind/aprof/overflow.c:56-215 | Every legal run of the bounded machine is a legal run of one whose counter never runs out, with the same sizes, and there all statistics are exact. |
| DrmsStrays.BumpStrays | valgrind/aprof/lookup_table.c:436-450 | One renumbering exposes to a thread exactly the never written granules of segments that were written and that the thread never used. |
| DrmsStrays.RunStrays | valgrind/aprof/memory.c:174-200 | The invariant behind the next three holds after every legal run, with any number of overflows. |
| DrmsStrays.ChargedExactlyWhen | valgrind/aprof/memory.c:175-176 | In every state of every run a granule tests as newer than the thread's last access if and only if somebody else wrote it since, or it is stale: never written, never accessed by the thread, and exposed by some overflow. |
| DrmsStrays.ThreadInputIsExact | valgrind/aprof/memory.c:174-186 | For every legal run, thread and stacked activation the counts of thread input from it upwards add up to the input that other threads produced and the reads of stale granules since its entry; so they are right if and only if there is no such read. |
| DrmsStrays.RecordedThreadInput | valgrind/aprof/function.c:251-266 | The same for what is recorded at a return. |
| DrmsStrays.OverchargedRun | valgrind/aprof/memory.c:174-186 | For every limit of the counter and every segment of at least two granules there is a legal run in which one read is charged to another thread and nobody ever wrote what it reads. |
| DrmsSelf.RunSelf | valgrind/aprof/memory.c:180-186 | The invariant of the self counts holds after every legal run. |
| DrmsSelf.SelfCountsAreExact | valgrind/aprof/memory.c:180-186 | For every legal run and stacked activation the self counts are the charged reads that it made itself, its callees left out, for the kernel and for other threads (stale granules included); none exceeds its cumulative count, as function.c:258-259 asserts. |
| DrmsOverflow.FindMax | valgrind/aprof/overflow.c:129-160 | Finds the largest identifier on top of the remaining stacks. |
| DrmsOverflow.MergeStacks | valgrind/aprof/overflow.c:86-183 | The k-way merge: for increasing, distinct, positive identifiers the list becomes 0 and all live identifiers in increasing order and every activation gets three times its rank; an identifier 0 anywhere, and only that, makes it follow a null pointer. |
| DrmsOverflow.BinarySearch | valgrind/aprof/lookup_table.c:189-229 | Returns the greatest index of the range whose entry is at most the key, in bounds and terminating. |
| DrmsOverflow.IndexIsRank | valgrind/aprof/lookup_table.c:189-229 | That index is the number of live identifiers that are at most the key. |
| DrmsTables.CompressCell | valgrind/aprof/lookup_table.c:369-433 | The five-way case distinction with its two restricted searches computes the renumbered private timestamp. |
| DrmsTables.CompressChunk | valgrind/aprof/lookup_table.c:340-458 | The loop over one segment renumbers its global and all private words, the private ones against the old global ones. |
| DrmsTables.CompressTables | valgrind/aprof/lookup_table.c:275-466 | The loops over all levels treat every allocated segment and no other. |
| DrmsTables.LocalContents | valgrind/aprof/lookup_table.c:365-434 | The private table then holds the renumbered private shadow memory. |
| DrmsTables.GlobalContents | valgrind/aprof/lookup_table.c:436-456 | The global table then holds the renumbered timestamps and the same syscall flags. |
| DrmsRuntimes.Runtime.TouchGranule | valgrind/aprof/memory.c:113-204 | One loop iteration on the global table, the private table, the flag bit and the stack fields is one access of the machine. |
| DrmsRuntimes.Runtime.TraceAccess | valgrind/aprof/memory.c:108-205 | With a call on the running thread's stack and a skip counter of zero a whole access is one access to each granule of its range, in order; otherwise it is none. |
| DrmsRuntimes.Runtime.OverflowHandler | valgrind/aprof/overflow.c:56-215 | Collects the stacks, merges, rewrites all identifiers and tables: afterwards memory shows the renumbered machine. |
| DrmsRuntimes.Runtime.IncreaseGlobalCounter | valgrind/aprof/aprof.h:294-298 | A bump of the counter, running the handler at its limit. |
| DrmsRuntimes.Runtime.ThreadStart | valgrind/aprof/thread.c:36-74 | Registers fresh data for a thread number without data. |
| DrmsRuntimes.Runtime.ThreadSwitch | valgrind/aprof/thread.c:128-172 | A switch to another, a new, the same or no thread. |
| DrmsRuntimes.Runtime.FunctionEnter | valgrind/aprof/function.c:59-98 | Enter on the running thread, with the skip count and the stack slot hidden from the overflow handler. |
| DrmsRuntimes.Runtime.FunctionExit | valgrind/aprof/function.c:156-281 | Records the dynamic read memory size (modulo 2^32) and the four statistics of the exiting activation: those of the machine's top activation, of which DrmsExact, DrmsStrays and DrmsSelf say what they count. Nothing is recorded just for discarded routines and inside skipped regions. |
| DrmsRuntimes.Runtime.ThreadExit | valgrind/aprof/thread.c:76-122 | Unwinds the stack of a thread, then drops its data. |
| DrmsRuntimes.Runtime.KernelStoreRange | valgrind/aprof/memory.c:113-142 | In profiled code the global word of every granule that the buffer reaches becomes the counter with the syscall flag, and every other word stays. |
| DrmsRuntimes.Runtime.PostSyscallStore | valgrind/aprof/syscall.c:121-131 | A system call that fills a buffer: after the bump, by the switch or by the call, in profiled code every granule that the buffer reaches holds the flagged counter, is the kernel's, and is one kernel write in the history. |
| LookupTables.SlotOfAddress | valgrind/aprof/lookup_table.c:105-125 | The three indices computed from an address below 2^46 are those of its granule, in bounds. |
| LookupTables.SlotsDiffer | valgrind/aprof/lookup_table.c:105-125 | Two addresses have the same three indices if and only if they are in the same granule. |
| LookupTables.LookupTable.Insert | valgrind/aprof/lookup_table.c:105-158 | Returns the old word of the granule, zero for none, and leaves the table as the map with the new one, its segment allocated. |
| LookupTables.LookupTable.Lookup | valgrind/aprof/lookup_table.c:161-187 | Reads the map, zero where nothing is allocated. |
| LookupTables.LookupTable.CompressRms | valgrind/aprof/lookup_table.c:468-526 | Renumbers every word to the rank of the deepest identifier at most it. |
| LookupTables.ContentsAfter | valgrind/aprof/lookup_table.c:126-158 | Writing one word of one segment changes the map at one granule and allocates the rest of the segment as zero. |
| LookupTables.RenumberedContents | valgrind/aprof/lookup_table.c:468-526 | All allocated segments renumbered is the whole map renumbered. |
| Granules.RangeIsExact | valgrind/aprof/memory.c:59-80 | The loop touches exactly the granules that meet the access, each once, if and only if the access is not an empty unaligned one; that one touches one granule. |
| Granules.RangeReaches | valgrind/aprof/memory.c:59-80 | For every size: a granule is touched if and only if it ends after the address and starts before the end. |
| Granules.AlignedRange | valgrind/aprof/aprof.h:287-292 | Aligning the address and widening the size fixes the number of iterations. |
| Granules.CountStep | valgrind/aprof/memory.c:78-79 | One iteration moves on by one granule and one from the count. |
| EventQueues.EventQueue.Flush | valgrind/aprof/events.c:63-172 | A flush emits one call for every queued data event, in order, and empties the queue. |
| EventQueues.EventQueue.Add | valgrind/aprof/events.c:183-211 | A full queue of four is flushed before an event is added; what is emitted and queued, taken apart, stays the stream. |
| EventQueues.EventQueue.AddIr | valgrind/aprof/events.c:183-196 | An instruction fetch is queued last, so that a read before it is merged no more. |
| EventQueues.EventQueue.AddDr | valgrind/aprof/events.c:198-211 | A read is queued last. |
| EventQueues.EventQueue.AddDw | valgrind/aprof/events.c:213-240 | A write right after a read of the same address and size turns it into a modify; otherwise it is queued. |
| EventQueues.MergeFaithful | valgrind/aprof/events.c:213-240 | Merging keeps the stream of accesses that the calls stand for. |
| EventMerging.RmsLoadStore | valgrind/aprof/memory.c:65-80 | A load and then a store of a range leave what a modify leaves. |
| EventMerging.DrmsLoadStore | valgrind/aprof/memory.c:113-204 | The same with both shadow memories and all statistics. |
| EventMerging.RmsMergingIsInvisible | valgrind/aprof/events.c:183-240 | For every stream, the emitted calls leave the same thread state as the unmerged stream. |
| EventMerging.DrmsMergingIsInvisible | valgrind/aprof/events.c:183-240 | For every stream, they leave the same counter, threads, memories and flags. |
| EventMerging.RmsMergedRun | valgrind/aprof/events.c:183-240 | The emitted calls leave the thread that a run leaves which makes all accesses of all events, granule by granule. |
| EventMerging.DrmsMergedRun | valgrind/aprof/events.c:183-240 | The same for the machine of all threads. |
| Cost.ClockKeeps | valgrind/aprof/function.c:150-172 | The profiled clock counts the blocks outside skipped regions only. |
| Cost.SkippedRegionIsFree | valgrind/aprof/function.c:156-166 | Leaving a skipped region puts the clock back to its value at the entry. |
| Cost.SpanKeeps | valgrind/aprof/function.c:273-275 | The costs of the children never exceed what has elapsed for any live activation. |
| Cost.SelfCostsAddUp | valgrind/aprof/function.c:168-172 | The self costs recorded in an exited subtree, with the root's, add up to the root's cumulative cost. |
| Cost.PendingKeeps | valgrind/aprof/function.c:88-172 | The recursion counter of a routine is the number of its activations on the stack. |
| Cost.RealCostIsBusyTime | valgrind/aprof/function.c:249-251 | The real costs recorded for a routine total the time with at least one of its activations pending, recursion counted once. |
| Cost.RunKeeps | valgrind/aprof/function.c:50-276 | All cost invariants hold after every run. |
| CostEvents.TimeFromEvents | valgrind/aprof/cost.c:36-38 | For every stream of events, from the stream alone: the profiled time is the number of blocks executed while no call of a skipped function is open, and each of them is recorded with the routines of the calls open then. |
| CostEvents.RecordFromEvents | valgrind/aprof/function.c:150-172 | A return at a profiled point records for the innermost open call: the number of those blocks since the call, the number of them with that call innermost, and whether no other open call is of its routine. |
| CostThreads.CostThread.BasicBlock | valgrind/aprof/cost.c:35-37 | The clock goes up by one at every block, inside skipped functions too, as the block event of the machine says. |
| CostThreads.CostThread.FunctionEnter | valgrind/aprof/function.c:50-90 | The fields after an enter show the machine's step. |
| CostThreads.CostThread.FunctionExit | valgrind/aprof/function.c:150-276 | The fields and tuples after an exit show it: minima and maxima per routine and input size are those of all recorded calls; calls, sums and sums of squares likewise, modulo 2^64. |
| CostThreads.SquaresHold | valgrind/aprof/function.c:223-227 | The asserted min * min * calls <= squares, computed in 64-bit words, holds as long as the sum of the squares is below 2^64. |
| CostThreads.SquaresWrap | valgrind/aprof/function.c:212-227 | Beyond that it can fail: two calls that cost 3037000499 and 3037000501 blocks. |
| CostThreads.TuplesStep | valgrind/aprof/function.c:174-251 | Updating one tuple keeps all tuples equal to the aggregates of the records, in 64-bit words. |
| CostThreads.SumRealUpdate | valgrind/aprof/function.c:249-251 | An updated tuple changes the total real cost by its own change. |
| Bindings.GetPut | valgrind/cachegrind/cg_merge.c:1449-1463 | Binding a key changes the answer for the keys equal to it and for no other. |
| Bindings.GetDel | valgrind/cachegrind/cg_merge.c:1466-1479 | Deleting a key makes the keys equal to it absent and changes no other answer. |
| Bindings.PutSorted | valgrind/cachegrind/cg_merge.c:1449-1463 | Bindings stay in strict key order. |
| Bindings.Sizes | valgrind/cachegrind/cg_merge.c:1494-1498 | A new key adds one binding, a deleted one takes one, a known one none. |
| AvlTrees.FixLeft | valgrind/cachegrind/cg_merge.c:1221-1240 | The swings after a removal or insertion give a balanced tree, one lower just when the left subtree leant. |
| AvlTrees.FixRight | valgrind/cachegrind/cg_merge.c:1185-1204 | The mirror image. |
| AvlTrees.Insert | valgrind/cachegrind/cg_merge.c:1065-1159 | Insertion keeps every balance field right and the flag is true if and only if the height grew; a subtree that grew kept its root node. |
| AvlTrees.Remove | valgrind/cachegrind/cg_merge.c:1165-1249 | Removal keeps every balance field right and the flag is true if and only if the height shrank. |
| AvlTrees.RemoveRoot | valgrind/cachegrind/cg_merge.c:1255-1288 | Removing a root with two subtrees, by its neighbour from the higher side, likewise. |
| AvlMaps.InsertIsPut | valgrind/cachegrind/cg_merge.c:1065-1159 | In key order, an insertion is one binding put, all rotations included, and reports the value that was bound. |
| AvlMaps.RemoveIsDel | valgrind/cachegrind/cg_merge.c:1165-1249 | A removal is one binding deleted. |
| AvlMaps.RemoveRootEntries | valgrind/cachegrind/cg_merge.c:1255-1288 | Removing the root drops its binding and keeps the order of all others. |
| AvlMaps.RootStays | valgrind/cachegrind/cg_merge.c:1272-1287 | Taking the neighbour from the higher side never rotates the root away, so that its place can be taken. |
| AvlMaps.OrderedKept | valgrind/cachegrind/cg_merge.c:1065-1288 | Both operations keep search order and balance. |
| AvlMaps.FindIsGet | valgrind/cachegrind/cg_merge.c:1291-1301 | The search finds a node if and only if an equal key is bound. |
| AvlHeap.SwingLeftAt | valgrind/cachegrind/cg_merge.c:1010-1017 | The pointer swing to the left on nodes. |
| AvlHeap.SwingRightAt | valgrind/cachegrind/cg_merge.c:1020-1027 | The pointer swing to the right. |
| AvlHeap.NastyAt | valgrind/cachegrind/cg_merge.c:1030-1049 | The balances after a double swing. |
| AvlHeap.InsertAt | valgrind/cachegrind/cg_merge.c:1065-1159 | In place: the nodes show the inserted tree, the new node is among them unless its key was bound, and no other node is touched. |
| AvlRemovals.RemoveAt | valgrind/cachegrind/cg_merge.c:1165-1249 | In place: the nodes show the tree without the given node, whose key and value are still readable. |
| AvlRemovals.RemoveRootAt | valgrind/cachegrind/cg_merge.c:1255-1288 | In place removal of the root; the mutual recursion with the removal terminates. |
| AvlRemovals.Side | valgrind/cachegrind/cg_merge.c:1170-1246 | Key comparisons lead to the node that is to be removed, as the code asserts. |
| WordFMs.WordFM.AddTo | valgrind/cachegrind/cg_merge.c:1450-1463 | The map afterwards is the old one with the binding put. |
| WordFMs.WordFM.DelFrom | valgrind/cachegrind/cg_merge.c:1467-1479 | Returns the old value and leaves the map without the key. |
| WordFMs.WordFM.Lookup | valgrind/cachegrind/cg_merge.c:1482-1492 | Answers what is bound. |
| WordFMs.WordFM.Size | valgrind/cachegrind/cg_merge.c:1494-1498 | The number of bindings. |
| WordFMs.WordFM.InitIter | valgrind/cachegrind/cg_merge.c:1501-1507 | Everything is still to come, and one slot is filled unless the map is empty. |
| WordFMs.WordFM.NextIter | valgrind/cachegrind/cg_merge.c:1511-1543 | Yields the first binding still to come, or ends with an empty stack, whenever the pushes of this call fit the 32 slots. |
| WordFMs.PeakIsNeed | valgrind/cachegrind/cg_merge.c:1511-1543 | Iterating to the end fills exactly as many slots as the shape of the tree says: a node keeps its slot while its left subtree is walked and gives it up before the right one. |
| WordFMs.WordFM.Elements | valgrind/cachegrind/cg_merge.c:1501-1543 | Iterating to the end yields every binding once in increasing key order, for every map that needs at most 32 slots. |
| WordFMs.HeightNeedsSize | valgrind/cachegrind/cg_merge.c:994 | A balanced tree of height h has at least the Fibonacci-like minimum of nodes. |
| WordFMs.StackSuffices | valgrind/cachegrind/cg_merge.c:1316-1324 | Below 9227464 bindings the assertion on the 32 stack slots cannot fire. |
| WordFMs.SparseNeedsAll | valgrind/cachegrind/cg_merge.c:1316-1324 | The bound is sharp: on as many different nodes as a balanced tree of height h needs there is an ordered map whose iteration fills h slots; with 9227464 bindings that is 33. |
| SparseMaps.AddLevels | valgrind/cachegrind/cg_merge.c:1449-1463 | Additions to an empty map make such a map, for every height. |
| SparseMaps.InsertGrows | valgrind/cachegrind/cg_merge.c:1065-1159 | Adding the keys level by level puts each where it stays, without a rotation. |
| WordFMCopies.DopyAt | valgrind/cachegrind/cg_merge.c:1344-1391 | The copy has fresh nodes, the same shape and the copied keys and values; it is null if and only if copying some key or value failed. |
| WordFMCopies.DopyFM | valgrind/cachegrind/cg_merge.c:1550-1573 | The copied map is valid and independent of the original. |
| Profiles.OrdersOfKeys | valgrind/cachegrind/cg_merge.c:443-460 | Both key comparisons are orders and equal only for equal keys. |
| Profiles.AddLineTotal | valgrind/cachegrind/cg_merge.c:532-548 | Adding a line of counts to an inner map adds them to its column sums, modulo 2^64. |
| Profiles.KeysInOrder | valgrind/cachegrind/cg_merge.c:443-451 | Keys are ordered by file name and then by function name, both lexicographically. |
| ProfileMerge.AddCountsTotal | valgrind/cachegrind/cg_merge.c:551-604 | What a counts line adds to the maps is what it adds to the running summary. |
| ProfileMerge.MergeIsSum | valgrind/cachegrind/cg_merge.c:799-839 | For every file, function and line the merged map holds the sum of both, over the union of the keys. |
| ProfileMerge.MergeTotal | valgrind/cachegrind/cg_merge.c:841-842 | The column sums of the merged map are the sums of both summaries. |
| MergeCode.CacheProfFile.MergeFrom | valgrind/cachegrind/cg_merge.c:768-848 | In place, with inner maps as objects and counts as arrays: other events are refused, else this profile becomes the merged one and can be printed again. The other profile still shows what it did, and afterwards the two share no map and no array. |
| MergeCode.MergeMaps | valgrind/cachegrind/cg_merge.c:799-839 | The outer loop: the objects then show the merged map, those of the source are untouched, and what is new is freshly allocated. |
| MergeCode.MergeKey | valgrind/cachegrind/cg_merge.c:802-836 | A new key is bound to a copy of the inner map, a known one has its inner map merged in place. |
| MergeCode.MergeInnerMaps | valgrind/cachegrind/cg_merge.c:815-835 | The inner loop: copies for new lines, additions into the destination's own arrays for known ones. |
| MergeCode.AddCountsTo | valgrind/cachegrind/cg_merge.c:523-530 | Counts are added in place, column by column modulo 2^64. |
| MergeCode.DopyInnerMap | valgrind/cachegrind/cg_merge.c:363-367 | The copied map shows the same counts in arrays of its own. |
| ProfileFiles.MergeSound | valgrind/cachegrind/cg_merge.c:768-848 | Merging keeps "summary is the column sum of all counts", order and non-empty inner maps. |
| ProfileFiles.MergedIsSum | valgrind/cachegrind/cg_merge.c:768-848 | Everything in a merged profile: description and command of the destination, at every file, function and line the column-wise sum modulo 2^64 of the counts of both or those of the only one, and the sums of the summaries. |
| ProfileFiles.ReadIsPrintable | valgrind/cachegrind/cg_merge.c:612-765 | Every profile that is read has its summary equal to its column sums and all that printing relies on. |
| Decimals.ValueOfDec | valgrind/cachegrind/cg_merge.c:464-482 | Reading the digits of a 64-bit number gives it back. |
| Decimals.ValueIsDecimal | valgrind/cachegrind/cg_merge.c:464-482 | Digits are read as the sum of each digit times its power of ten, modulo 2^64. |
| Decimals.DecIsDecimal | valgrind/cachegrind/cg_merge.c:398-404 | Numbers are printed in base ten without leading zeros. |
| Decimals.SignedIsDecimal | valgrind/cachegrind/cg_merge.c:398-404 | Words of 2^63 or more are printed as a minus sign and the decimal digits of 2^64 minus the word. |
| Decimals.NumbersExactly | valgrind/cachegrind/cg_merge.c:488-521 | A line of numbers is accepted if and only if it holds nothing but digits and white space, and then as its maximal stretches of digits in order. |
| Decimals.CountsRead | valgrind/cachegrind/cg_merge.c:398-404 | A printed list of counts is read back if and only if all of them are below 2^63. |
| Decimals.NegativeNotRead | valgrind/cachegrind/cg_merge.c:400-403 | Larger ones are printed with a minus sign and stop the reader. |
| ProfileText.InnerRead | valgrind/cachegrind/cg_merge.c:551-604 | The printed lines of one key are read back one after the other. |
| ProfileText.OuterRead | valgrind/cachegrind/cg_merge.c:690-750 | The printed keys with their lines likewise, up to the summary line. |
| ProfileText.RoundTrip | valgrind/cachegrind/cg_merge.c:406-439 | Printing and then parsing gives the same profile if and only if all its numbers are below 2^63, and a parse error otherwise. |
| ProfileFiles.SumNotRead | valgrind/cachegrind/cg_merge.c:398-404 | A profile that is read back and whose sum with itself is printed but not read: 2^62 events twice. |
| ProfileIO.FileRoundTrip | valgrind/cachegrind/cg_merge.c:158-192 | The same from file text to file text, for names without newlines. |
| ProfileIO.PrintFile | valgrind/cachegrind/cg_merge.c:406-439 | The printing loops write the text of the profile. |
| ProfileIO.ParseLines | valgrind/cachegrind/cg_merge.c:612-765 | The parsing loop with its early exits computes, for every list of lines, the profile or the refusal that the next two rows describe. |
| ProfileReading.ReadExactlyWhen | valgrind/cachegrind/cg_merge.c:612-765 | Which texts are read: description, command and events lines in front, a summary line with the column sums of all count lines at the end, and in between only file and function lines and lines of as many counts as there are events. |
| ProfileReading.CountsAreSums | valgrind/cachegrind/cg_merge.c:551-717 | In every text that is read, the counts of a file, function and line are column by column the sums modulo 2^64 of the count lines with that number whose latest file and function lines name the two, and absent without such a line. |
| LruStack.TouchKeepsPrefix | valgrind/cachegrind/cg_sim.c:89-122 | One reference keeps a smaller set the front part of a larger one, and a tag missing in the larger one is missing in the smaller one. |
| LruStack.PositionIsPlace | valgrind/cachegrind/cg_sim.c:89-122 | After every history, a tag stands in its set at the number of different tags used since its own last use. |
| LruStack.MissIsDistance | valgrind/cachegrind/cg_sim.c:89-122 | The stack theorem: a reference misses if and only if its tag is unused so far or at least assoc others were used since; the initial zeros count as a use of tag 0. |
| CacheSim.SetsAreIndependent | valgrind/cachegrind/cg_sim.c:134-150 | Each set is the list of its own blocks, whatever the other sets do. |
| CacheSim.MissesByDistance | valgrind/cachegrind/cg_sim.c:126-163 | For every trace a reference, straddling ones included, misses if and only if one of its blocks is too far back in the history of its set. |
| CacheSim.MissesInArithmetic | valgrind/cachegrind/cg_sim.c:126-163 | The same in numbers alone: a reference of `size` bytes at a misses if and only if for one of the lines from a / lineSize to (a + size - 1) / lineSize there is no earlier use, or at least assoc other lines with the same remainder by the number of sets were used since. |
| CacheSim.InclusionOverTraces | valgrind/cachegrind/cg_sim.c:89-163 | For every trace, with equal lines and sets the cache of lower associativity holds front parts of the other's sets and never has fewer misses. |
| Caches.Cache.SetRefIsMiss | valgrind/cachegrind/cg_sim.c:89-122 | The in-place search and shift: one set becomes its touched list, the others stay, and the answer is whether the tag was missing. |
| Caches.Cache.RefIsMiss | valgrind/cachegrind/cg_sim.c:126-163 | One or two blocks, both always referenced, counted as one miss; more than two stop the simulator. After any trace the answer is that of the trace theorem, and the cache that of the trace with one reference more. |
| Caches.Hierarchy.DorefGen | valgrind/cachegrind/cg_sim.c:179-186 | The last-level cache sees the misses of the first one only; both counters. |
| Caches.LevelsOverTraces | valgrind/cachegrind/cg_sim.c:179-186 | For every trace the last level is a cache that sees just the references missed by the first one, and the counters are the misses of the two. |
| Caches.NoXIsOneLine | valgrind/cachegrind/cg_sim.c:224-234 | The special case is chosen if and only if line sizes agree and all bytes lie in one line. |
| Caches.Hierarchy.DorefNoX | valgrind/cachegrind/cg_sim.c:191-204 | Where the special case is chosen it does exactly what the general code does. |
| Adler32.ChecksumAppend | valgrind/auxprogs/valgrind-di-server.c:249-367 | Checksumming x and going on with y is checksumming x followed by y (RFC 1950 section 8.2). |
| Adler32.ChecksumIsSums | valgrind/auxprogs/valgrind-di-server.c:249-367 | The checksum in closed form: the low half is the start's plus all bytes, the high half the start's plus n times the low half of the start plus the bytes weighted n down to 1, both modulo 65521 (RFC 1950 section 8.2). |
| Adler32.ReductionMayWait | valgrind/auxprogs/valgrind-di-server.c:328-353 | The remainders of unreduced sums are the byte-by-byte sums of RFC 1950 section 2.2. |
| Adler32.NmaxIsLargest | valgrind/auxprogs/valgrind-di-server.c:252-255 | 5552 is the largest number of bytes in which the second sum never leaves 32 bits. |
| Adler32.BoundIsMet | valgrind/auxprogs/valgrind-di-server.c:252-255 | A message of that length meets the bound. |
| Adler32.Mod | valgrind/auxprogs/valgrind-di-server.c:263-284 | The chain of conditional subtractions is the remainder for every 32-bit number. |
| Adler32.Mod4 | valgrind/auxprogs/valgrind-di-server.c:285-292 | The shorter chain is it below 32 times the base. |
| Adler32.Block | valgrind/auxprogs/valgrind-di-server.c:328-339 | A full block without any overflow. |
| Adler32.Rest | valgrind/auxprogs/valgrind-di-server.c:340-353 | The last bytes, by sixteen and one by one. |
| Adler32.Short | valgrind/auxprogs/valgrind-di-server.c:316-326 | Fewer than sixteen bytes: one subtraction and the short chain suffice. |
| Adler32.Single | valgrind/auxprogs/valgrind-di-server.c:301-310 | One byte. |
| Adler32.Update | valgrind/auxprogs/valgrind-di-server.c:249-367 | For every message and every start value with reduced halves the result is the checksum by its definition; a missing buffer gives 1. |
| Partition.Med3IsMedian | valgrind/callgrind/dump.c:901-906 | The element chosen of three is neither below both others nor above both. |
| Partition.PivotIsMedian | valgrind/callgrind/dump.c:933-944 | The pivot: the middle of seven, a median of first, middle and last up to forty, and beyond that the median of three medians of three. |
| Partition.ScanSplits | valgrind/callgrind/dump.c:951-970 | The two scans permute and end with equal, smaller, greater, equal elements in this order. |
| Partition.UpperRotates | valgrind/callgrind/dump.c:977 | The swap of the upper blocks is right however large they are. |
| Partition.LowerFits | valgrind/callgrind/dump.c:975 | The swap of the lower blocks is right when there are not more equal elements than smaller ones. |
| Partition.LowerOverlaps | valgrind/callgrind/dump.c:975 | Otherwise equal elements stay in front and smaller ones behind. |
| Quicksort.PivotStaysOut | valgrind/callgrind/dump.c:1008-1009 | The pivot is in neither recursive call, so that the recursion ends. |
| Quicksort.SortedByParts | valgrind/callgrind/dump.c:975-1009 | A level whose lower block fits is sorted if and only if both recursive ranges are. |
| Quicksort.NeverSorted | valgrind/callgrind/dump.c:975 | A level whose lower block does not fit never ends up sorted. |
| Quicksort.NoTiesFits | valgrind/callgrind/dump.c:910-1010 | Without ties the lower block fits at every level. |
| Quicksort.NotAlwaysSorted | valgrind/callgrind/dump.c:975 | A range of seven elements on which it does not fit. |
| QuicksortCode.ScanAt | valgrind/callgrind/dump.c:951-970 | The nested loops with moving pointers compute the scans. |
| QuicksortCode.SwapBlocksAt | valgrind/callgrind/dump.c:975-977 | The swap loops. |
| QuicksortCode.SortSmall | valgrind/callgrind/dump.c:918-921 | Insertion sort of fewer than seven elements. |
| QuicksortCode.PartitionAt | valgrind/callgrind/dump.c:933-977 | Pivot choice, scans and block swaps of one level. |
| QuicksortCode.Qsort | valgrind/callgrind/dump.c:910-1010 | For every consistent comparison: terminates, permutes its range and nothing else, and sorts it if and only if the lower block fits at every level. |
| QuicksortCode.QsortDistinct | valgrind/callgrind/dump.c:910-1010 | Without ties the array is always sorted. |
| CallArcs.OneNodeEach | valgrind/callgrind/jumps.c:211-219 | Two nodes of the table for the same triple are the same node. |
| CallArcs.JccHash.Resize | valgrind/callgrind/jumps.c:82-129 | All nodes move, in place, to their buckets of a table of 2n + 3; none is lost or doubled. |
| CallArcs.JccHash.Find | valgrind/callgrind/jumps.c:211-219 | Walking one chain decides whether a triple has a node. |
| CallArcs.JccHash.NewJcc | valgrind/callgrind/jumps.c:136-182 | The new node is in exactly one bucket and the first one in the list of its jump; the table grows to 2n + 3 just when 10 * entries / size exceeds 8, which it never does afterwards. |
| CallArcs.JccHash.GetJcc | valgrind/callgrind/jumps.c:186-232 | Returns the node of the triple, made at most once, by way of either remembered node, which leaves both as they are, or of the table, after which source and target remember it. |
| CallArcs.JccHash.GetAll | valgrind/callgrind/jumps.c:186-232 | Over any sequence of calls two answers are the same node if and only if the triples are equal. |

## Left out

- Rms: the stack stays shallower than the range of identifiers, as the code asserts by its limit on the stack size; renumbering has no fresh identifier otherwise.
- DrmsExact.SizesAreExact: states input from other threads as exact while the counter never ran out and as an upper bound afterwards; `DrmsStrays.ThreadInputIsExact` has the exact number for all runs.
- Drms: the counter does not run out while some thread is inside a skipped function (`BumpEnabled`), because activations hidden there have no identifier of their own and the code's merge relies on it.
- Drms: when the counter runs out the stacks together hold fewer activations than a third of its range, since otherwise the renumbered counter would itself be out of range.
- DrmsRuntimes: the merge and the renumbering of tables work on copies of the stacks and of the tables that are written back, not on the stack slots themselves.
- LookupTables: the levels of the table are maps from indices to segments, so that the identity of the allocated blocks is not modelled; addresses are below 2^46 as the three levels assume.
- RmsThreads, DrmsRuntimes: at most 500 threads and a stack depth below the limit the code asserts; the growth of the stack array is not modelled, the stale contents of a reused slot are.
- CostThreads: the clock stays below 2^64; only the basic-block clock is modelled, not the time-stamp counter and not the doping option.
- Detection of calls and returns from basic blocks and object files: a well-nested stream of enters and exits is the input.
- Calling-context trees, hash tables of routines, the writing and merging of aprof's reports, and all options.
- Valgrind's instrumentation: the queue of events is modelled, the intermediate code it is emitted into is a list of calls.
- System calls other than "the kernel fills a buffer" after the call.
- WordFMs.WordFM.NextIter: requires that the pushes of the call fit the 32 slots, where the code stops on an assertion; a map that is changed while it is iterated over is not modelled.
- WordFMs: freeing of nodes and of whole maps; keys and values are integers, so that pointers stored in them are opaque words.
- MergeCode.CacheProfFile.MergeFrom: a map is the sorted list of bindings that WordFM is proved to hold, not nodes; the keys are strings, so that their copies are not modelled; the source's maps are walked by index, not by the iterator, and running out of memory is left out.
- ProfileIO.ParseLines: builds the profile as a value, without the arrays that the merge works on.
- ProfileText.Parse: out-of-memory exits and error messages; all errors are one. A file that ends after its description lines, on which the parser reads through a null pointer, is an error too.
- CacheSim: a reference that straddles more than two lines stops the simulator, and here leaves the cache as it is; configurations are checked ones, with powers of two for lines and sets.
- CacheSim.MissesInArithmetic: for references of at least one byte that do not wrap around the address space and straddle at most two lines; `CacheSim.MissesByDistance` holds for all.
- Caches: the description text, and the derivation of the number of sets from the cache size.
- Adler32.Update: start values with a half of 65521 or more, for which the code promises nothing.
- QuicksortCode.Qsort: elements are words compared by their contents; debugging output is left out.
- CallArcs: the list of spontaneous calls, which get_jcc cannot reach since it follows the source pointer first; several tables swapped for threads; the number of entries is unbounded.
- Callgrind's name patterns, the branch predictor, the plotting programs, Mach-O support and all file and socket transport.
