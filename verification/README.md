# Five small programs, modelled and proved

The repository is a collection of small programs. Five of them hold a real algorithm or
protocol, and each is modelled here in Dafny and proved to do what it is for, or proved to do
so exactly under a stated condition.

**Store-buffer experiment** (`c/reorder/reorder.c`; `Reorder*.dfy`). Main and two workers go
round in lockstep through two fetch-and-add barriers, and main looks for the reordering that
x86 allows. The model is a machine with one FIFO store buffer per thread, loads that forward
from the thread's own buffer, and locked operations and `mfence` that wait for the own buffer
to drain (Intel SDM volume 3A, section 8.2). Counters have `w` bits, `w` even, and wrap. One
inductive invariant (`ReorderInvariant`) carries the barrier argument, the memory-model
argument and the freshness of every value across rounds. With the fence no run ever detects
anything, not even after the counters have wrapped and the barriers no longer work; without it
every number of detections can be reached. The barriers last exactly (2^w - 1)/3 rounds, then
one thread goes through alone, fence or no fence: if it is main, main checks with its own zero
still in X; if it is a worker, that one stores before main has zeroed. Order at the barriers,
freshness of what main checks and zeroing before the stores hold exactly as long as `start` has
been entered fewer than 2^w times. After that the program can deadlock, in one configuration of
counter and threads and no other; but until it does main's rounds end at any time. Words in
memory carry the round they were written in, which the machine never looks at.

**uClibc's qsort** (`c/cl_qsort.c`; `Shellsort*.dfy`, `QsortBytes.dfy`, `Comparators.dfy`). The
sort is modelled twice: on sequences of elements, and byte by byte in place on an array with
`size_t` arithmetic, proved to be the first. On the first: the Shellsort theorem (Knuth,
The Art of Computer Programming, volume 3, section 5.2.1, Theorem K), sortedness, permutation
for any comparator, and how much it moves: 18g swaps per element in the pass at gap g (18 in the
last), and 28.5 n sqrt(n) in all. For `cmp`: exactly on which sets of values the subtracting
branch sorts. As checked in, the macros `GLIBC_QSORT` and `WRONG_CMP` select the C library's
`qsort` and the subtraction; `uclibc_qsort` and both branches of `cmp` are modelled.

**RDMA exchange** (`c/ibtest/ibv-rc.c`; `Exchange*.dfy`). Client and server swap connection
records over TCP, bring up their queue pairs, and move one message, one RDMA READ and one RDMA
WRITE, ordered only by completions and one-byte syncs. The model has both hosts, both byte
streams, buffers, queue pair states (InfiniBand Architecture Specification volume 1, section
10.3.1) and queues; the network carries out requests in steps of its own, in any order with
the hosts' steps; any call, and any request at any stage, may fail. Proved: whatever is printed
is right, in every interleaving with every failure short of an overrun; receivers are ready (the program sets
`rnr_retry` to 0, so there is no second chance); no queue overflows; no call comes at a wrong
time; and a run without failures ends, and cannot stop before everything has been printed. A run
with failures need not end: a side whose peer has closed the connection gets 0 bytes from `read`,
which the loop does not tell from progress, and reads for ever. The model says exactly when, and
that it can no longer come to that once both sides have written their last byte. The read loop of `sock_sync_data` asks for the whole size on each read, whatever it has already, so
it can store past the end of its variable: exactly when reads can be short.

**Handle allocator** (`go/hhash/hhash.go`; `Hhash*.dfy`). A circular scan over a table that
doubles. One call is characterised completely, then whole runs: the handles of a fresh run have
a closed form, from which it follows that the table grows only when it is full, and what the run
costs. The comment that the function "should always return" (line 60) is not so: since all
tables share the variable `last`, a call can be made to loop forever, and the model says exactly
when. Nor is growth only when full a property of single calls: the scan never looks at the slot
after `last`, and four calls on two fresh tables make one double with a free slot in it. Handles
are good for exactly the strings that are not empty.

**Naive quicksort** (`clj/clj-proj/src/my_proj/core.clj`; `Quicksort.dfy`). Always sorted;
exactly when it is stable (a NaN at the end spoils it), and exactly when it is a permutation (a
NaN is lost); determined by order and stability; and the number of comparisons, with the inputs
on which the bound is reached.

`dafny verify dfyconfig.toml` checks the whole project.

## Model

| member | source | states |
|---|---|---|
| ReorderMachine.Pow2Even | c/reorder/reorder.c:9-16 | a counter of an even number of bits wraps at a value that leaves 1 modulo the three threads |
| ReorderMachine.LoadForwards | c/reorder/reorder.c:22-28 | a load brings back the thread's own youngest store to the location, whatever younger stores to others follow it |
| ReorderMachine.LoadFromMem | c/reorder/reorder.c:22-28 | and memory where the thread has no store to the location on its way |
| ReorderInvariant.StepMoves | c/reorder/reorder.c:12-16 | every machine step is, for the barriers, nothing or one barrier move of the thread that took it: an entry that counts one up, or a leave with the counter a multiple of three |
| ReorderInvariant.InitialInv | c/reorder/reorder.c:48-58 | the invariant holds when the threads start |
| ReorderInvariant.StepPhases | c/reorder/reorder.c:12-67 | every step keeps the three threads gathering at one barrier, running between the two, or one running alone after a wrap |
| ReorderInvariant.StepNoReorder | c/reorder/reorder.c:18-46 | with the fence or unbuffered stores, every step keeps the store-before-load facts that leave no round with two zero results |
| ReorderInvariant.StepRounds | c/reorder/reorder.c:12-67 | until a counter wraps, every step keeps each thread's barrier tallies, the counters and the iteration numbers in line |
| ReorderInvariant.StepFresh | c/reorder/reorder.c:21-29 | until a counter wraps, every step keeps the variables and results those of the round the threads are in |
| ReorderInvariant.StepInv | c/reorder/reorder.c:18-74 | every step of every thread and of every store buffer keeps the whole invariant |
| ReorderTheorems.NeverDetected | c/reorder/reorder.c:18-74 | with `mfence`, or on a sequentially consistent machine, in every reachable state `detected` is 0 and main is never at its check with both results zero, also after the counters wrap |
| ReorderOutcomes.LoadReads | c/reorder/reorder.c:28-43 | in every reachable state a worker's load brings back what memory holds for the other variable at that moment, and changes nothing else |
| ReorderOutcomes.LoadedBits | c/reorder/reorder.c:22-43 | in every reachable state what has been loaded is 0 or 1, and within a round 0 if the variable it came from is still 0 |
| ReorderOutcomes.OutcomesIff | c/reorder/reorder.c:18-74 | the pairs of results that main can find at its check before the wrap are, in every configuration, exactly (0,1), (1,0) and (1,1), and (0,0) iff stores are buffered and there is no fence |
| ReorderTheorems.BarrierSafety | c/reorder/reorder.c:12-16 | before the wrap, no thread has left a barrier more often than any other has entered it, and none has entered it more than once ahead of another's leaving |
| ReorderLimits.InOrderIff | c/reorder/reorder.c:4-16 | the barriers keep all threads in that order in all states with at most n entries of `start` iff n < 2^w |
| ReorderTheorems.CheckIsFresh | c/reorder/reorder.c:64-69 | before the wrap, with or without fence, main checks with X and Y this round's 1, both results written this round and equal to what the workers loaded, and all buffers empty |
| ReorderLimits.FreshCheckIff | c/reorder/reorder.c:9-69 | with or without fence, main's checks are fresh in all states with at most n entries of `start` iff n < 2^w |
| ReorderLimits.StaleCheck | c/reorder/reorder.c:12-69 | from every start of the program a run has main wrap `start` at entry 2^w, pass both barriers alone and check with X still 0 |
| ReorderTheorems.ZeroBeforeStore | c/reorder/reorder.c:20-37 | before the wrap, when a worker is about to store, its variable in memory is main's zero of this round |
| ReorderLimits.ZeroedFirstIff | c/reorder/reorder.c:9-64 | main's zero is in memory before a worker's store in all states with at most n entries of `start` iff n < 2^w |
| ReorderLimits.EarlyStore | c/reorder/reorder.c:12-64 | from every start of the program a run has a worker wrap `start` at entry 2^w and come to its store while main is an iteration behind and X is still 1 |
| ReorderTheorems.DeadlockIff | c/reorder/reorder.c:9-74 | in every reachable state, wrapped or not, some step other than a failed spin is possible iff not all three threads wait at `start` with the counter at 2 |
| ReorderTheorems.Progress | c/reorder/reorder.c:12-67 | before the wrap, every reachable state has a step that is not a failed spin |
| ReorderTheorems.RoundsComplete | c/reorder/reorder.c:59-74 | before the wrap, no more than 81 steps other than failed spins fit into one of main's rounds, however the threads are scheduled |
| ReorderRounds.MoveLaps | c/reorder/reorder.c:12-67 | while main stays in one iteration, every barrier move, at any phase of the counters, uses up one of the laps the workers have left or leaves them no more |
| ReorderRounds.RoundsAlwaysComplete | c/reorder/reorder.c:59-74 | in every run, wrapped or not, no more than 207 steps other than failed spins fit into one of main's rounds |
| ReorderRuns.RunToWrap | c/reorder/reorder.c:9-16 | every state that keeps the invariant can be run on until the step that wraps the counter |
| ReorderRuns.WrapStep | c/reorder/reorder.c:12-16 | the step that wraps is an entry to `start` after all three threads have entered equally often, (2^w - 1)/3 times, and leaves that thread alone at a counter of zero |
| ReorderRuns.BarrierLifetime | c/reorder/reorder.c:4-16 | from every start of the program a run reaches (2^w - 1)/3 entries of each thread, and then two steps of one thread take it through `start` before any other has entered |
| ReorderRuns.DeadlockAfterWrap | c/reorder/reorder.c:12-16 | the deadlock of `DeadlockIff` does happen: from every start of the program a run reaches it |
| ReorderRuns.ReorderObservable | c/reorder/reorder.c:22-74 | without `mfence`, for every n a run has main complete n rounds with `detected` equal to n, wraps included |
| ReorderRuns.DetectionIffWeak | c/reorder/reorder.c:22-28 | a detection can be reached iff stores are buffered and there is no fence |
| ReorderProgram.Experiment.constructor | c/reorder/reorder.c:48-58 | the globals, the threads' positions and their buffers at the start |
| ReorderProgram.Experiment.MainLoop | c/reorder/reorder.c:59-74 | the in-place step of main's loop, reset, barriers and check, is main's step of the machine, and waits exactly when that has none |
| ReorderProgram.Experiment.WorkerLoop | c/reorder/reorder.c:18-46 | the in-place step of a worker's loop is the worker's step of the machine |
| ReorderProgram.Experiment.Run | c/reorder/reorder.c:18-74 | running a schedule in place takes exactly its actions that are enabled when their turn comes, and ends where the machine does with these; so with the whole schedule if the machine can take it; the invariant is kept, and with the fence `detected` stays 0 |
| Shellsort.GapClosedForm | c/cl_qsort.c:60-63 | the m-th gap is (3^m - 1)/2 |
| Shellsort.FirstGapInRange | c/cl_qsort.c:58-65 | the first gap is below the number of elements and at least a third of it |
| Shellsort.FirstGapLeast | c/cl_qsort.c:61-63 | the first gap is the least one that is not below (n - 1)/3 |
| Shellsort.SiftPermutes | c/cl_qsort.c:71-88 | sifting an element down permutes, whatever the comparator says |
| Shellsort.SiftSorts | c/cl_qsort.c:71-88 | for a total preorder, sifting one element down extends a gap-sorted prefix by it |
| Shellsort.PassSorts | c/cl_qsort.c:68-92 | for a total preorder, a pass leaves the sequence sorted at its gap |
| Shellsort.ShellSortPermutes | c/cl_qsort.c:50-94 | the result is a permutation of the input for every comparator, consistent or not |
| ShellsortTheorem.PassKeepsOrder | c/cl_qsort.c:68-92 | Theorem K: a pass at one gap leaves the sequence sorted at that gap and still sorted at any other gap it was sorted at |
| ShellsortTheorem.PassesSort | c/cl_qsort.c:68-92 | after the passes from the first gap down to the m-th, the sequence is sorted at each of these gaps at once |
| ShellsortTheorem.ShellSortSorts | c/cl_qsort.c:50-94 | for a total preorder on the elements the result is sorted |
| ShellsortMoves.PassKeepsAbove | c/cl_qsort.c:69-90 | until its own turn an element has as many greater ones above it, at distances that are multiples of the gap, as it had before the pass |
| ShellsortMoves.Split | c/cl_qsort.c:61-63 | every multiple of a gap g that the test accepts is a sum of the next two larger gaps, 3g + 1 and 9g + 4 |
| ShellsortMoves.ReachableIff | c/cl_qsort.c:61-63 | for gap 1 the test accepts exactly the sums of fours and thirteens |
| ShellsortMoves.HolesBounded | c/cl_qsort.c:61-63 | of the multiples of a gap g at most 18g are not accepted |
| ShellsortMoves.FewMoves | c/cl_qsort.c:71-88 | in the pass at gap g over a sequence sorted at the next two larger gaps, no outer index makes more than 18g swaps |
| ShellsortMoves.FinalPassBound | c/cl_qsort.c:61-92 | from 16 elements on, the gap-1 pass starts 4-sorted and 13-sorted, makes at most 18 swaps for each outer index and at most 18 for each element in all |
| ShellsortTotal.EveryIndexBound | c/cl_qsort.c:60-92 | for a total preorder, in every pass, at its gap g, of a sort of any length, no outer index makes more than 18g swaps |
| ShellsortTotal.EveryPassBound | c/cl_qsort.c:68-92 | so for n elements a pass makes at most n times 18g swaps, and at most n times n / g |
| ShellsortTotal.PassMovesExact | c/cl_qsort.c:68-90 | for a total preorder a pass makes exactly one swap for each pair, a multiple of the gap apart, that it finds out of order |
| ShellsortTotal.AllMovesExact | c/cl_qsort.c:68-92 | and the whole sort as many as all its passes find |
| ShellsortTotal.TotalBound | c/cl_qsort.c:50-94 | for a total preorder the whole sort of n elements makes at most 28.5 n sqrt(n) swaps, the root rounded down |
| QsortBytes.SwapBytes | c/cl_qsort.c:82-87 | the byte loop exchanges two blocks whole and leaves all other bytes alone |
| QsortBytes.ExchangedBlocks | c/cl_qsort.c:82-87 | exchanging the bytes of two blocks swaps two elements of the block sequence and tears none |
| QsortBytes.CompareAndSwap | c/cl_qsort.c:76-87 | one comparison of neighbours at the gap, and the swap that follows unless they are in order |
| QsortBytes.SiftDown | c/cl_qsort.c:71-88 | the inner loop over bytes, with no underflow of `j`, sifts one element of the block sequence down, with as many swaps as that takes |
| QsortBytes.GapPass | c/cl_qsort.c:69-90 | the middle loop is one pass over the block sequence |
| QsortBytes.InitialGap | c/cl_qsort.c:60-65 | the gap loop neither overflows nor exceeds the number of elements, and finds the first gap |
| QsortBytes.NextGap | c/cl_qsort.c:91-92 | the division by 3 is exact, gives the next smaller gap in bytes, and zero exactly after the gap of one element |
| QsortBytes.UclibcQsort | c/cl_qsort.c:50-94 | in place and within bounds: aborts iff the size overflows, on any array, else leaves a permutation of the blocks and every byte behind them untouched, sorted if the comparator is a total preorder on the blocks, with the bounds on the swaps of the last pass and of all passes |
| Comparators.SameSignIff | c/cl_qsort.c:96-110 | on a set of values the two branches of `cmp` have the same sign for all pairs iff all differences are at most 2^31 - 1 |
| Comparators.RightCmpIsSign | c/cl_qsort.c:104-108 | the comparison without WRONG_CMP is the sign of the difference |
| Comparators.WrongCmpCycle | c/cl_qsort.c:100-102 | three values that the subtraction puts in a circle |
| Comparators.ReadWordDigits | c/cl_qsort.c:97-98 | the four bytes of an element are the digits of its word, the lowest first |
| Comparators.CmpFromLastByte | c/cl_qsort.c:104-108 | the comparison without WRONG_CMP orders elements by their last byte, then the one before it, and so on |
| Comparators.WrongCmpSortsIff | c/cl_qsort.c:50-110 | the sort with the subtraction gives a sorted result on all sequences over a set of values iff all differences are at most 2^31 - 1 |
| Comparators.EitherBranch | c/cl_qsort.c:50-110 | on such four-byte blocks both branches give the same result, the only sorted permutation |
| ExchangeWire.BigEndianRoundTrip | c/ibtest/ibv-rc.c:538-542 | a number that fits its field survives the conversion to network byte order and back |
| ExchangeWire.HighestFirst | c/ibtest/ibv-rc.c:538-541 | in network byte order the first byte is the highest digit |
| ExchangeWire.RecordLayout | c/ibtest/ibv-rc.c:31-37 | at which of the 34 bytes each field of the record is, without padding |
| ExchangeWire.RecordRoundTrip | c/ibtest/ibv-rc.c:538-556 | the record one side fills in is the record the other side takes apart |
| ExchangeWire.ReadAll | c/ibtest/ibv-rc.c:104-116 | the read loop takes bytes off the front of what has arrived, in order and losing none, and ends as the sequence of read results says |
| ExchangeWire.LoopSafeIff | c/ibtest/ibv-rc.c:104-116 | the read loop stays within its variable for all read results iff no more than the message has arrived or the message is a single byte |
| ExchangeWire.FullReadSafe | c/ibtest/ibv-rc.c:104-116 | it also does so if the first read brings the whole message, and then takes exactly that |
| ExchangeMachine.CStringOfText | c/ibtest/ibv-rc.c:767-768 | printing a buffer up to its terminator gives the text that was copied to it |
| ExchangeInvariant.Synced | c/ibtest/ibv-rc.c:600-603 | a side that is past a sync knows that the other side has got as far as that sync |
| ExchangeInvariant.RecordRead | c/ibtest/ibv-rc.c:545-560 | however the record arrives in pieces, what has been read is a prefix of the peer's record, and complete it decodes to the peer's values |
| ExchangeInvariant.ActInv | c/ibtest/ibv-rc.c:518-818 | every successful call of either program keeps the invariant |
| ExchangeInvariant.ServerDeliverInv | c/ibtest/ibv-rc.c:753-768 | the delivery of the message to the client keeps the invariant |
| ExchangeInvariant.ClientDeliverInv | c/ibtest/ibv-rc.c:781-804 | the RDMA READ and WRITE at the server, of which the server's program knows nothing, keep the invariant |
| ExchangeInvariant.StepInv | c/ibtest/ibv-rc.c:518-818 | every step, successful or failing, of either host or of the network keeps the invariant |
| ExchangeTheorems.EndToEnd | c/ibtest/ibv-rc.c:753-818 | in every reachable state, failures included, the client has printed nothing but first MSG and then RDMAMSGR, and the server nothing but RDMAMSGW; a side that is through has printed all of its own; nothing is claimed of what a side does once its read has overrun |
| ExchangeTheorems.BuffersSoFar | c/ibtest/ibv-rc.c:266-282 | until the message is delivered the client's buffer prints as nothing, and then as the message up to the RDMA READ; the server's prints as the message until it is replaced |
| ExchangeTheorems.ConnectedToPeer | c/ibtest/ibv-rc.c:551-586 | a side's saved properties and the destination of its queue pair are the peer's own |
| ExchangeTheorems.MessageFindsReceiver | c/ibtest/ibv-rc.c:572-603 | while the SEND is under way the client's queue pair is ready and its receive request posted, so that the delivery can happen |
| ExchangeTheorems.RequestFindsServer | c/ibtest/ibv-rc.c:778-804 | while an RDMA request is under way the server's queue pair is ready and the memory is the one the client was told of |
| ExchangeTheorems.Capacity | c/ibtest/ibv-rc.c:257-301 | send, receive and completion queue of either side never hold more than their one entry |
| ExchangeCompletion.RunsBounded | c/ibtest/ibv-rc.c:518-818 | no run of the two hosts and the network, with any failures, has more than 256 steps other than reads that return 0, a side whose read has overrun counting as stopped |
| ExchangeCompletion.RecordReadsAreLoop | c/ibtest/ibv-rc.c:106-115 | the machine's reads of the record are the read loop: for any results of `read` they end as it does, with the same bytes taken and left |
| ExchangeCompletion.OverrunIff | c/ibtest/ibv-rc.c:104-116 | the record can be read past its end in some run iff reads can be short |
| ExchangeCompletion.NextReadOverrunsIff | c/ibtest/ibv-rc.c:104-116 | where reads can be short, the next read of the record by a running side can overrun iff part of the record has been read and the peer has written more than a record |
| ExchangeCompletion.NoDeadlock | c/ibtest/ibv-rc.c:753-809 | the two sides never wait for each other |
| ExchangeCompletion.NotRefused | c/ibtest/ibv-rc.c:563-603 | in every reachable state, whatever has failed, the next call of a running side is possible unless it is a read or a poll: no transition of the queue pair and no posting of a request comes at a wrong time |
| ExchangeCompletion.Progresses | c/ibtest/ibv-rc.c:753-818 | as long as nothing has failed and a side is not through, some step can be made, other than a read that returns 0 |
| ExchangeCompletion.Completes | c/ibtest/ibv-rc.c:753-818 | a run without failures that has overrun nothing and cannot go on has both sides through, with both texts printed by the client and one by the server |
| ExchangeCompletion.FaultlessRunsEnd | c/ibtest/ibv-rc.c:753-818 | a run without failures that has overrun nothing has at most 256 steps, as none of its reads returns 0 |
| ExchangeCompletion.CanComplete | c/ibtest/ibv-rc.c:753-818 | from wherever a run has got without failing or overrunning anything, some continuation ends with all texts printed, also with short reads |
| ExchangeEnding.StarvedLasts | c/ibtest/ibv-rc.c:106-115 | a side that reads from a connection closed by its peer, with nothing left to read, goes on doing so whatever else happens, until a read fails |
| ExchangeEnding.EndlessIff | c/ibtest/ibv-rc.c:106-115 | there are runs of every length from a reachable state iff some run leads to such a side |
| ExchangeEnding.WrittenNeverStarves | c/ibtest/ibv-rc.c:106-115 | once both sides have written their last byte, no run leads to such a side, whatever fails |
| ExchangeEnding.CanStarveIff | c/ibtest/ibv-rc.c:106-115 | from where a run has got without failing or overrunning anything, some run leads to such a side iff not both sides have written their last byte |
| ExchangeEnding.ServerStarves | c/ibtest/ibv-rc.c:106-115 | it happens: after three steps the client has failed and closed the connection and the server reads for ever |
| ExchangeEnding.PartialRecordStarves | c/ibtest/ibv-rc.c:98-116 | for every part of its record that the client may have written when that fails, a run leaves the server reading in vain with just that part |
| ExchangeEnding.AtRestIff | c/ibtest/ibv-rc.c:106-157 | when nothing has been overrun, nothing more happens without a failure, time-outs of polls apart, but reads in vain, iff each side has destroyed its resources or is such a side, and no request is under way |
| ExchangeProgram.Resources.constructor | c/ibtest/ibv-rc.c:266-301 | the resources a side starts with: only the server's buffer holds the message |
| ExchangeProgram.Resources.ConnectQp | c/ibtest/ibv-rc.c:518-607 | the in-place calls of connect_qp are the steps of the machine, and are refused exactly where it has none |
| ExchangeProgram.Resources.Message | c/ibtest/ibv-rc.c:753-777 | the same for main up to the sync after the message |
| ExchangeProgram.Resources.Rdma | c/ibtest/ibv-rc.c:778-809 | the same for the RDMA operations |
| ExchangeProgram.Resources.LastSync | c/ibtest/ibv-rc.c:811-818 | the same for the last sync and the last print |
| ExchangeProgram.Resources.ReceiveRecord | c/ibtest/ibv-rc.c:106-115 | one read of the record in place, with the overrun when it brings too much |
| ExchangeProgram.Exchange.Run | c/ibtest/ibv-rc.c:518-818 | running a schedule on both hosts' resources in place takes exactly its actions that can be taken when their turn comes, and ends where the machine does with these; so with the whole schedule if the machine can take it; the invariant is kept and nothing but the right texts printed |
| Hhash.HaltsIff | go/hhash/hhash.go:21-64 | the loop of AllocString ends iff `last` is one of the slots 1..size-1 or one of these is free |
| Hhash.BodyScanning | go/hhash/hhash.go:31-58 | an iteration that does not leave the loop has passed only taken slots, doubles only on meeting `last`, and comes closer to the end |
| Hhash.ExitAllocated | go/hhash/hhash.go:52-57 | where the loop is left, the slot is the first free one in scan order, in the table or behind `last` in the doubled one |
| Hhash.AllocatedSound | go/hhash/hhash.go:21-64 | a call doubles the table at most once, returns a non-zero slot that was free or is new, and changes no other slot |
| Hhash.GrowsIff | go/hhash/hhash.go:38-50 | a call grows the table iff all slots but 0, `last` and the one after `last` are taken |
| Hhash.AllocatedUnique | go/hhash/hhash.go:21-64 | table, handle and cost of a call are determined by table and `last` |
| Hhash.AllocatedIff | go/hhash/hhash.go:22-58 | wherever `last` is, a call does what it does along the slots (last + 2 + k) mod size: it takes the first free one, or comes to `last` before, doubles and takes the first free one above `last`; with the number of steps |
| Hhash.TwoAboveLast | go/hhash/hhash.go:22-29 | the slot (last + 2) mod size is taken at once if it is free and neither 0 nor `last` |
| HhashPattern.RoundStep | go/hhash/hhash.go:21-64 | one call in a table of 4h slots that has handed out 2h + j: which slot it takes, whether it grows, and what it costs |
| HhashPattern.AfterStep | go/hhash/hhash.go:21-64 | every call of a fresh run keeps the description of the table by the number of calls alone |
| HhashPattern.AllocationPattern | go/hhash/hhash.go:12-64 | from a fresh table the k-th handle has a closed form (2, 1, 3, then even slots from n up, then odd ones, n the largest power of two up to k), and so has the size of the table |
| HhashPattern.GrowsOnlyWhenFull | go/hhash/hhash.go:38-50 | in a fresh run a call grows the table iff slots 1..size-1 are all taken |
| HhashPattern.AmortisedCost | go/hhash/hhash.go:26-58 | k calls on a fresh table make at most 4k `next_wrap` calls and copy fewer than 2k cells |
| HhashMaps.HandleKept | go/hhash/hhash.go:5-64 | in any interleaving of returning calls with any strings on any tables, a handle given out for a string that is not empty keeps it |
| HhashMaps.HandlesDistinct | go/hhash/hhash.go:5-64 | in such a run a table never hands out again a handle given out for a string that is not empty |
| HhashMaps.EmptyRepeats | go/hhash/hhash.go:52-57 | on one fresh table four calls with the empty string return 2, 1, 3 and 1 again |
| HhashMaps.NeverRepeatedIff | go/hhash/hhash.go:5-64 | in no run is the handle of a call for s handed out again by the same table iff s is not empty |
| HhashMaps.NeverReturns | go/hhash/hhash.go:60-63 | two fresh tables and seven calls after which the next call on the second never returns |
| HhashMaps.GrowsEarly | go/hhash/hhash.go:21-50 | two fresh tables and three calls after which the next call doubles the second although its slot 3 is free |
| HhashTable.Handlemap.Init | go/hhash/hhash.go:12-15 | a new slice of four empty strings |
| HhashTable.Handlemap.Enlarge | go/hhash/hhash.go:40-46 | a new slice of double length with the old cells in front and empty ones behind |
| HhashTable.Handlemap.AllocString | go/hhash/hhash.go:21-64 | the in-place scan has the effect of one call, told along the slots (last + 2 + k) mod size: where the string goes, which slice is written, what `last` becomes, and the cost |
| HhashTable.AllocAll | go/hhash/hhash.go:12-64 | any number of calls on one new table all return, with handles after the pattern, each slot holding its string, at linear cost |
| Quicksort.PartOnly | clj/clj-proj/src/my_proj/core.clj:9-15 | of the elements of one value, a partition keeps all in order or none |
| Quicksort.QsortSorts | clj/clj-proj/src/my_proj/core.clj:17-21 | the result is sorted, for every input |
| Quicksort.QsortStable | clj/clj-proj/src/my_proj/core.clj:17-21 | equal elements, such as 1 and 1.0, keep their order unless the last element is a NaN |
| Quicksort.QsortStableIff | clj/clj-proj/src/my_proj/core.clj:17-21 | equal elements of every value keep their order iff there are none, or the last element is not a NaN, or all are |
| Quicksort.QsortPermutesIff | clj/clj-proj/src/my_proj/core.clj:17-21 | the result is a permutation iff there is no NaN in the input or it has at most one element |
| Quicksort.StableSortUnique | clj/clj-proj/src/my_proj/core.clj:6-21 | sortedness and stability leave only one result |
| Quicksort.CallsBound | clj/clj-proj/src/my_proj/core.clj:9-21 | at most n(n - 1) comparator calls |
| Quicksort.CallsWorstCase | clj/clj-proj/src/my_proj/core.clj:9-21 | on sorted input exactly n(n - 1) |
| Quicksort.CallsDescending | clj/clj-proj/src/my_proj/core.clj:9-21 | on strictly descending input exactly n(n - 1) too |
| Quicksort.QsortLoggedIsQsort | clj/clj-proj/src/my_proj/core.clj:9-21 | the sort that logs each of its comparator calls gives the same result, and its log is as long as the count that these bounds are about |

## Left out

- The store-buffer experiment: thread creation, printing, and what a compiler may do to the plain accesses of the flag; each access of the source is one machine access in program order. `i` and `detected` are unbounded; the two barrier counters are not.
- ReorderTheorems.BarrierSafety: stated until `start` wraps; `ReorderLimits.InOrderIff` shows that this is exactly how long it holds.
- ReorderTheorems.CheckIsFresh: stated until `start` wraps; `ReorderLimits.FreshCheckIff` shows that this is exactly how long it holds.
- ReorderTheorems.ZeroBeforeStore: stated until `start` wraps; `ReorderLimits.ZeroedFirstIff` shows that this is exactly how long it holds.
- ReorderTheorems.Progress: stated until `start` wraps; `ReorderTheorems.DeadlockIff` says in which states it fails after, and `ReorderRuns.DeadlockAfterWrap` that it does.
- ReorderRuns.BarrierLifetime: shown for one run from every start; that the wrap comes after exactly this many rounds in every run is `ReorderRuns.WrapStep`.
- The comparator that `uclibc_qsort` is given is modelled as a pure function of the two blocks, so a comparator that writes to the array or answers differently on each call is not covered. `assert` is taken to be compiled in.
- The C library's `qsort` and `bsearch` and the table of addresses; `cmp` reads its four bytes lowest first, as x86 does.
- ExchangeCompletion.Completes: for runs that overrun nothing, which without short reads is every run; once a record has been read past its end nothing is known of the program.
- The RDMA exchange: setting up sockets, options, device discovery, output other than the three buffers printed, and clean-up after the last step. Time-outs and failing calls are failures that may come at any call; a failing call has done nothing, except that writing the record may have written a part. The program tests for negative results where the verbs report errors as positive numbers; the model's failures are the ones the program notices.
- The verbs are modelled as steps of a reliable connection: a request is fetched, acts on the other side once, and is answered, or is given up at any stage, which breaks its queue pair; a request that was given up before it acted does not act later. RDMA moves a whole buffer in one step. `htonll` and `ntohll` are taken to convert to and from network byte order.
- ExchangeTheorems.EndToEnd: a side whose read has overrun is stopped in the model, as nothing is known of its memory; what the program prints from then on is not covered.
- ExchangeEnding.CanStarveIff: for states that are reached without a failure; after one only the half of `ExchangeEnding.WrittenNeverStarves` is stated.
- ExchangeEnding.AtRestIff: for states in which nothing has been overrun, which without short reads is all of them.
- A `read` returns 0 only when the peer has destroyed its resources, which closes its socket, and all it wrote has been read. The test for EOF comes after the test for negative results and is never true.
- HhashTable.Handlemap.AllocString: a table that was never initialised (division by zero) is excluded, and so is a call that would loop forever, by the condition of `Hhash.HaltsIff`, which says exactly which calls return.
- The allocator's logging and `AllocGeneric`, a stub; its README speaks of revoked keys, but there is no operation to revoke one. Go's `int` is unbounded here, and a `make` that fails is not modelled.
- The quicksort: numbers are integers, reals and NaN; a long and a double are compared by exact value, without the conversion of large longs. Lazy sequences, on which `pop` fails, and the version with threads, which does not sort, are left out, and so is the depth of the stack.
- All other programs of the repository: network clients, a kernel module, audio callbacks, probes, scripts, and some small utilities (`go/pbar`, `c/cl_rope`, `c/include/csnip_renum.h`) whose claims are easy.
