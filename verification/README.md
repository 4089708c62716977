# epic_poold: a verified model of the mining pool daemon

The daemon takes block templates from a node, hands them to miners over TCP, and checks the shares they send
back with RandomX or ProgPow.  This project models the parts in which it is easy to be wrong, and proves what
they are relied on for.

**Hash pools.** `HashThreads`, `ProgPowPool`, `ProgPowSettling`, `ProgPowServing`, `RandomXPool`, `RandomXRuns`,
`RandomXServing`, `RandomXNaming`, `RandomXMisnaming`, `RandomXGuard`, `EpochRing`.  Two dataset slots are refilled in ring order by detached builder
threads while hash threads scan them without a lock, lock one, look again and hash.  Each pool is a transition
system with any number of hash threads, builders and jobs; every atomic access, lock operation and destruction or
construction of a context is a step of its own, and every interleaving is a run.  The theorems are about all runs.
`ProgPowThreads` and `RandomXThreads` give the same threads as programs, with locals, loops and early exits, and
show that whatever the other threads do in between, each execution is a part of such a run.
A job need not be hashed: a slot may change hands between its thread's two looks.  But if from its pop on the same
slots publish its key, it is hashed if there is one, and refused if there is none; so with all quiet, jobs for the
blocks or the seed in use are hashed (`ProgPowServing`, `RandomXServing`).

The ProgPow builder takes its epoch once, under the lock, so nothing can go wrong.  The RandomX builder reads
the seed twice, and `calculate_dataset` overwrites it without the lock.  A call is *matching* if every builder of
the slot next in turn that has yet to read the id it will publish builds a seed with the new seed's id.  After any
run of matching calls, one more call is safe, that is, no run that goes on from it with matching calls answers a
job with a hash over a seed with another id, if and only if it is matching (`RandomXMisnaming.NextCallIsSafeIff`);
and a call that is not can be made from the start.  Program points of detached threads cannot be looked at, so
`RandomXGuard` gives a condition that can: calls made only when the slot next in turn publishes the id it is
loaded with are all matching, and more, no answer is then over a half-written seed.  A caller who sees everything
but how far the builders are can do with nothing less (`RandomXGuard.GuardIsTight`).  The code does not check it.

**Seeds.** `SeedSchedule`: whether the seed of the job being mined stays in the RandomX pool.  It does, and when
all is quiet is served, over any run of the node's messages that follow a schedule of seeds up to some epoch, with
heights that do not go backwards, unless a message of a later epoch than the published job's has left its own job
half filled.  There are such runs, across the border of two epochs; and two messages off schedule, which name
different seeds for the next epoch, leave the published job without its own.  Likewise the ProgPow pool keeps the
epochs of the published job and of the next until others have taken their place, which a later message that leaves
its job half filled can bring about; `NodeJobs.PublishedEpochsAreLoadedIff` says exactly when.

**Queue.** `Thdq`, `ThdqThreads`: the blocking queue, any number of producers and consumers, spurious wake-ups
included.

**Client pools.** `ClientPool`, `PoolServer`: the slot allocator and the list of pools, for any interleaving of
the listener, the announcer of blocks and the pool threads.  `ClientPoolThread` is the pool thread as a program
over its slot array, `PoolStore` the walk over the list, both with interference, and both with each of their steps
a step of the transition systems.

**Integers in decimal.** `Decimal`, `Itoa`: the table-driven printer, proved to write the canonical numeral.

**Sessions.** `Framing`, `LineBuffers`, `Flood`, `Difficulty`, `NodeJobs`, `Session`, `PoolAnswers`, with
`HexCodec` and `Vector32` below them: from bytes to lines, the rate limit, the two difficulty tests, the node's job
list, and what a miner is sent and judged by.  What a pool is asked for a submit, and what the submit is judged by
given any answer of the pool, right or wrong, are functions of the notice the miner was sent; the session, which
patches its one buffer in place, is proved to agree with them.  `PoolAnswers` puts them together with the pools:
the verdict is the one the notice's epoch deserves, for ProgPow in every run, and for RandomX the one its seed
deserves if the calls were guarded (`RandomXGuard`; for calls that merely match, `RandomXNaming` gives a seed with
the right id), while after a call that does not match it can be another.

Program text that changes objects in place is a class with methods (`EpochSlots`, `LineBuffer`, `Limiter`,
`JobData`, `Node`, `Client`, `PoolObject`, `Store`, `BlockingQueue`, `PpHashpool`, `RxHashpool`); what the
methods leave behind is tied to functions of the old state, and the theorems are about those functions.
All other threads' steps between two statements of a program are one call (`Others`, `Threads`, `ServerSide`).

What the model takes for granted: atomics are sequentially consistent; `ethash::get_epoch_number` never
decreases and never returns the value that marks an empty slot; a hash, a context or a cache is known only by
what it was made from; integers wrap where the code's do.

Where the code and its comments differ, the code is followed:

- The comments on the slots (`pp_hashpool.hpp:64-67`, `rx_hashpool.hpp:78-81`) say that an empty slot's id is
  zero; it is 2^64 - 1.
- `max_calls_per_min` (`client.hpp:85`) is a limit per window, not per minute: up to 120 calls can be
  dispatched within 60 seconds, and that many are (`Flood.OneHundredTwentyAreReached`).  `Flood.MoreThanSixtyIff`
  says which intervals of 60 seconds hold more than 60.
- A block is sent to the node when a share's difficulty exceeds 4096 (`client.cpp:276`); the comparison with
  the job's own difficulty is commented out there.

## Model

| member | source | states |
|---|---|---|
| HashThreads.JobsAccounted | rx_hashpool.cpp:57-99 | In every reachable state each pushed job is queued, held by exactly one hash thread, or fulfilled exactly once and answered; the queue is in push order |
| HashThreads.FulfilledIsFinal | pp_hashpool.cpp:45-90 | A thread's step only ever reads or writes a job whose client still waits |
| HashThreads.AnswersAreFinal | client.cpp:295-339 | From a job's fulfilment to the end of the run no thread holds it, its promise is not set again and its answer does not change; so the job on its client's stack is left alone once the client may return |
| ProgPowPool.HashesUseTheJobsEpoch | pp_hashpool.cpp:43-91 | In every interleaving a thread that hashes does so on a live context of its job's epoch, and no job is answered with a hash over any other |
| ProgPowPool.DestroysOnlyUnusedLiveContexts | pp_hashpool.cpp:93-102 | A builder about to destroy a context destroys a live one, and no hash thread holds the slot or hashes on it |
| ProgPowPool.PublishedIsWhatItPointsTo | pp_hashpool.cpp:93-102 | In every interleaving, while no builder holds a slot's lock the slot publishes nothing or the epoch of the live context it points to; the slots never share a context |
| ProgPowSettling.QuietSlotIsReady | pp_hashpool.hpp:102-112 | However many notifies and builders overlapped, a slot with none outstanding publishes the epoch it was last assigned and points to that epoch's context |
| ProgPowSettling.ReassignedPublishesNothing | pp_hashpool.hpp:102-112 | From its reassignment until one of its builders publishes, a slot publishes nothing, so no thread finds in it a context about to be destroyed |
| ProgPowServing.PublishedIsHashed | pp_hashpool.cpp:45-90 | In every interleaving, if from a job's pop on the same slots publish its epoch: it is hashed, on a context of that epoch, if there is such a slot, and refused if there is none |
| ProgPowServing.QuietPoolHashesCurrentBlocks | pp_hashpool.cpp:45-90 | After blocks in order, with no reassignment and no rebuild going on from its pop on, a job for the last block or the next is hashed, not refused |
| ProgPowSettling.NextFollowsRing | pp_hashpool.hpp:95-122 | Whatever the other threads do, the notifier's loads are those of the ring for the blocks notified |
| ProgPowSettling.QuietPoolServesCurrentBlocks | pp_hashpool.hpp:95-112 | In a run whose blocks never go backwards, when all is quiet a job for the last block or the next finds a slot with its context |
| ProgPowThreads.PpHashpool.ServeJob | pp_hashpool.cpp:45-90 | One turn of the hash thread's loop is a part of a run, and answers the job this thread popped in this turn exactly once, on a context of its epoch or with an error; if the same slots published its epoch all the time since the pop, with a hash exactly if there was one |
| ProgPowThreads.PpHashpool.HashOn | pp_hashpool.cpp:71-89 | Under the shared lock the pointer followed is never null, and what it points to stays alive until the hash is written |
| ProgPowThreads.PpHashpool.DatasetThdMain | pp_hashpool.cpp:93-102 | The builder's program, step by step with interference, is a part of a run; it ends done, or the lock is taken |
| ProgPowThreads.PpHashpool.Rebuild | pp_hashpool.cpp:97-101 | Whatever the notifier does meanwhile, what a builder publishes is the epoch it took a snapshot of |
| ProgPowThreads.PpHashpool.NotifyBlock | pp_hashpool.hpp:95-112 | With any interference, the slots end up loaded as the ring says |
| ProgPowThreads.PpHashpool.NotifyEpoch | pp_hashpool.hpp:102-122 | So for one epoch; a slot that changes hands gets a builder |
| EpochRing.RingKeepsCurrentAndNext | pp_hashpool.hpp:95-122 | After every notify of a run with nondecreasing blocks, the epochs of the block and of the next are loaded, in different slots |
| EpochRing.RingHoldsTwoNewest | pp_hashpool.hpp:95-122 | After such a run the slots hold the newest epoch asked for and, if there is another, the newest below it |
| EpochRing.BothStayLoadedIff | pp_hashpool.hpp:95-122 | So the epochs of an earlier block and of the next are still loaded exactly if no epoch asked for lies strictly between the block's and the newest |
| EpochRing.NotifyBlockKeepsBothIff | pp_hashpool.hpp:95-112 | From any ring, exactly when one notify leaves both epochs loaded |
| EpochRing.SteppingBackEvictsTheCurrentEpoch | pp_hashpool.hpp:102-112 | Without the order of blocks it fails: a concrete run that leaves the current epoch unloaded |
| EpochRing.EpochSlots.NotifyEpoch | pp_hashpool.hpp:102-122 | The scan and the overwriting of the next slot in turn, on the array, as the ring says; the counter wraps at 2^64 |
| EpochRing.EpochSlots.NotifyBlock | pp_hashpool.hpp:95-99 | Keeps both epochs loaded, called with nondecreasing blocks |
| RandomXRuns.OrderlyHashesUseTheJobsSeed | rx_hashpool.cpp:57-108 | In every run whose slots are reassigned only when no builder for them has yet to read its id, each hash is over a cache built, whole, from a given seed with the job's id; in every run at all no cache changes under a reader |
| RandomXRuns.QuietSlotIsReady | rx_hashpool.hpp:119-127 | In every run, a slot with no builder and no call in progress has its cache built from its seed, and claims and publishes that seed's id |
| RandomXRuns.OrderlyMeans | rx_hashpool.hpp:119-127 | The flag the safety invariant depends on says exactly that no slot was so reassigned |
| RandomXNaming.MatchingRunsAreWellNamed | rx_hashpool.cpp:57-108 | In every run all of whose calls match, whatever their builders are at, every answer is a hash over a seed with the job's id |
| RandomXMisnaming.NextCallIsSafeIff | rx_hashpool.cpp:102-108 | After any run of matching calls, one more call is safe if and only if it matches: no run going on from it with matching calls gives an answer over a seed with another id |
| RandomXMisnaming.NextNewCallIsSafeIff | node.cpp:338-350 | So for calls made, as the node makes them, only for ids no slot is loaded with: one more, followed by any such matching calls, is safe if and only if it matches |
| RandomXMisnaming.UnmatchedCallMisnames | rx_hashpool.hpp:119-127 | From any state of any run, whatever the workers, builders and queue are at, a call that does not match can lead to an answer over a seed with another id |
| RandomXNaming.OrderlyMatches | rx_hashpool.hpp:119-127 | In a run so far orderly, a call matches exactly if no builder of the slot is unnamed or the new id is that of the slot's seed |
| RandomXGuard.GuardedHashesUseTheJobsSeed | rx_hashpool.hpp:119-127 | If each call is made when the slot next in turn publishes the id it is loaded with, every answer is over a cache built whole from a given seed with the job's id |
| RandomXGuard.GuardIsTight | rx_hashpool.hpp:109-127 | After such calls, and to a caller who sees all but how far the builders are, the next call can spoil no answer, whatever its seed, if and only if that slot publishes the id it is loaded with; otherwise the same view comes with builders, reached by such calls, for which some seed's call leads to an answer over a seed with another id |
| RandomXGuard.GuardedCallsAreOrderly | rx_hashpool.hpp:119-127 | Such calls never reassign a slot while a builder for it has yet to read its id |
| RandomXMisnaming.DisorderMisnames | rx_hashpool.hpp:119-127 | Three calls in a row from the start already do it |
| RandomXMisnaming.WorkerTrustsTheSlot | rx_hashpool.cpp:61-98 | A hash thread answers with whatever cache the first slot holds that publishes the job's id |
| RandomXServing.PublishedIsHashed | rx_hashpool.cpp:57-99 | In every interleaving, orderly or not, if from a job's pop on the same slots publish its id: it is hashed if there is such a slot, and refused if there is none |
| RandomXServing.QuietPoolHashes | rx_hashpool.cpp:57-99 | With no call and no rebuild going on from its pop on, in any run, a job is hashed over a seed with its id if a slot publishes it, and refused if none does |
| RandomXThreads.RxHashpool.ServeJob | rx_hashpool.cpp:57-99 | One turn of the hash thread's loop is a part of a run, and answers the job this thread popped in this turn exactly once; in an orderly run, by its seed; if the same slots published its id all the time since the pop, with a hash exactly if there was one; if all was quiet, by a seed with its id |
| RandomXThreads.RxHashpool.DatasetThdMain | rx_hashpool.cpp:102-108 | The builder's program is a part of a run; it ends done, or the lock is taken |
| RandomXThreads.RxHashpool.CalculateDataset | rx_hashpool.hpp:119-127 | With any interference, the slot next in turn ends up with the seed and its id, and a builder |
| RandomXThreads.RxHashpool.HasDataset | rx_hashpool.hpp:109-117 | Finds an id exactly when a slot is loaded with it |
| RandomXThreads.RxHashpool.LoadSeed | node.cpp:342-343 | With any interference, asking and then calling loads the slots as the ring says |
| Thdq.NoLostWakeUp | thdq.hpp:41-78 | While a consumer sleeps, the queue is no longer than the notifications to come and the woken consumers still to look, so a sleeper and an item never wait for each other |
| Thdq.FirstInFirstOut | thdq.hpp:41-78 | What was pushed is what was popped followed by what is queued, each popped item has one taker, and a consumer leaves with its own; the mutex excludes |
| ThdqThreads.BlockingQueue.Pop | thdq.hpp:41-51 | With any interference, what it returns is the first item not returned before, and this consumer is recorded as its one taker; without one it sleeps or waits for the mutex |
| ThdqThreads.BlockingQueue.Push | thdq.hpp:64-70 | With any interference, it ends with its item queued, or waits for the mutex |
| ClientPool.NextCounted | client_pool.hpp:168-279 | Every step of the pool thread keeps: the counter is the live slots, the queued adds, the client in hand and the reservation |
| PoolServer.CountsAgree | client_pool.hpp:132-147 | So in every interleaving, and never more than the pool's size; a pool not full has room, the overflow branch is unreachable |
| PoolServer.ZeroMeansEmpty | client_pool.hpp:217-218 | When the loop test reads zero, every slot is empty and no add is queued |
| PoolServer.OnlyEmptyPoolsAreErased | server.hpp:76-87 | Every pool ever erased had finished and held no client; what it still counted are the sockets posted too late |
| PoolServer.WalkVisitsSurvivorsInOrder | server.hpp:75-95 | The functor is called on the surviving pools in order, each found unfinished by the test before; the survivors are the old pools less those erased, which had all finished |
| PoolServer.ListenerChoosesAPoolWithRoom | server.cpp:165-178 | The pool chosen still has room when it is counted in; it was found unfinished and not full, and those before it full, or it is new and all were found full |
| ClientPoolThread.PoolObject.PoolMain | client_pool.hpp:181-219 | The program of the pool thread, with any interference, takes only steps of the transition system, handles everything it is given, in order, and ends when, and only when, its test finds nothing counted; then no slot holds a client |
| ClientPoolThread.PoolObject.AddClient | client_pool.hpp:250-279 | There always is a free slot; the client gets the first, or is not set up and what was reserved for it is given back |
| ClientPoolThread.PoolObject.TellClients | client_pool.hpp:236-247 | At a new block exactly the clients that give up are removed |
| ClientPoolThread.PoolObject.HandleEvent | client_pool.hpp:196-215 | Which slot an event of a client empties; a pipe event leaves the pipe empty, every message in it handled by steps of the transition system |
| ClientPoolThread.PoolObject.RemoveClient | client_pool.hpp:168-179 | Exactly the one slot is emptied, and counted down once, also when the client was gone already |
| PoolStore.Store.IteratePools | server.hpp:75-95 | The loop over the list, erasing while it walks, with all pool threads going on, takes only steps of the transition system: the functor acts once on each surviving pool up to where it stops, and on no other, and what is erased is recorded |
| PoolStore.Store.PlaceSocket | server.cpp:165-178 | A socket is counted in and written to the first pool found not full, or to a new one at the back, and nothing to any other; what leaves the list had finished and held no client |
| PoolStore.Store.NotifyNewBlock | server.cpp:182-205 | Every surviving pool is written one message, and no other pool any; what leaves the list had finished and held no client |
| Decimal.NumeralParses | itoa_ljust.cpp:108-117 | The reference numeral is canonical and parses back to its number |
| Decimal.NumeralIsTheOnlyOne | itoa_ljust.cpp:108-117 | It is the only canonical text that does |
| Itoa.LutPair | itoa_ljust.cpp:67-76 | Each of the hundred entries of the table is the two digits of its index |
| Itoa.PrintFrom | itoa_ljust.cpp:92-106 | The fall-through switch, entered anywhere, in arithmetic modulo 2^32, writes exactly the digits still to come and a NUL, and nothing else |
| Itoa.Print32 | itoa_ljust.cpp:108-117 | For every `uint32_t` the canonical numeral and a NUL; the NUL's position is returned, the rest of the buffer is unchanged |
| Itoa.Print64 | itoa_ljust.cpp:128-140 | The same for every `uint64_t`: the split by 10^9 ends, and the low nine digits are padded and overwrite the NUL |
| Itoa.PrintSigned32 | itoa_ljust.cpp:119-126 | The same for every `int32_t`, the smallest included, with wrapping negation |
| Itoa.PrintSigned64 | itoa_ljust.cpp:142-149 | The same for every `int64_t` |
| Itoa.FitsTheCallersBuffer | log.hpp:120-146 | At most 21 bytes with sign and NUL, within the callers' 32 |
| Framing.ReceivedIsSent | client.cpp:72-107 | However a stream is cut into reads: the lines handed over are a prefix of its lines, and with what is kept they are all its bytes; each line ends with its only newline, what is kept holds none |
| Framing.StopsAtRejection | client.cpp:72-107 | No line is handed over after one that was rejected, and the connection is given up exactly for that, or for bytes that do not fit |
| Framing.FramingIgnoresFragmentation | node.cpp:133-175 | Two cuttings of a stream without overflow have the same lines, rest and outcome, also when a line is rejected |
| LineBuffers.LineBuffer.ClientReceive | client.cpp:72-107 | The client's loop over its fixed buffer, with lines parsed in place and the rest moved to the front, does as the stream function says |
| LineBuffers.LineBuffer.NodeReceive | node.cpp:133-175 | So does the node's, whose message function reports what it consumed |
| LineBuffers.LineBuffer.ProcessMessage | node.cpp:203-217 | Consumes the first line with its newline, nothing without one, and reports a rejection |
| Flood.Limiter.Call | client.cpp:138-151 | A call is let through exactly if it is one of the first 60 of the window it falls into, and what was let through so far keeps the limit of 120 in 60 seconds |
| Flood.WindowsLastSixtySeconds | client.cpp:139-145 | A call at most 60 seconds after its window began falls into it, one 61 or more begins the next |
| Flood.MoreThanSixtyIff | client.cpp:138-163 | An interval of at most 60 seconds holds more than 60 dispatched calls if and only if a window opens in it such that the calls before in the interval that are among the first 60 of the window before, at least one, and all calls from the opening on make more than 60; by arrival times alone |
| Flood.AtMostTwoWindowsPerMinute | client.cpp:138-163 | For a clock that never runs backwards, no closed interval of 60 seconds of any run holds more than 120 dispatched calls; 119 if the first call comes more than 60 seconds after the clock's zero |
| Flood.AtMostSixtyPerWindow | client.hpp:83-86 | No window dispatches more than 60 calls |
| Flood.OneHundredTwentyAreReached | client.cpp:138-151 | The bound is exact |
| Flood.OneHundredNineteenAreReached | client.cpp:138-151 | So is the other |
| Difficulty.FixedDifficultyIsExact | client.cpp:265-276 | For every hash the 32-bit share test accepts exactly when the 64-bit difficulty is at least 4096 |
| Difficulty.BlockWorkIsAccepted | client.hpp:153-161 | A hash of 64-bit difficulty at least d is accepted as a share of difficulty d, for every d |
| Difficulty.SharesAreExactOnlyForDivisors | client.hpp:153-161 | The two tests agree on every hash if and only if d divides 2^32 |
| Vector32.WorkIsBigEndian | vector32.h:56-64 | Both work values read the leading bytes big-endian; the 32-bit one is the upper half of the other |
| Vector32.IdIsOfTheLowHalf | vector32.h:66-70 | The id has 63 bits, is never the empty slot's, and depends only on the first 16 bytes |
| Vector32.Vector.Equals | vector32.h:90-103 | Equality in two halves is equality |
| HexCodec.DecodeEncoded | encdec.cpp:44-72 | Decoding undoes encoding |
| HexCodec.EncodeDecoded | encdec.cpp:44-72 | Encoding what was decoded gives the text in lower case |
| HexCodec.DecodesExactly | encdec.cpp:31-54 | Exactly the texts of even length made of hex digits are decoded |
| HexCodec.DigitsAre | encdec.cpp:31-42 | The value of a digit is its place in `0123456789abcdef`, in either case |
| HexCodec.DecodedDigits | encdec.cpp:44-54 | Each byte decoded has the values of the two digits at its place, the first as the upper half |
| HexCodec.EncodedDigits | encdec.cpp:64-72 | Each byte is written as the digits of its halves, in lower case |
| HexCodec.HexToBin | encdec.cpp:44-54 | The loop accepts exactly the texts of even length made of hex digits, also for odd lengths, leaves the bytes their pairs of digits stand for, and writes no byte behind (length + 1) / 2 |
| HexCodec.BinToHex | encdec.cpp:64-72 | The loop writes two lower-case digits for each byte and a NUL, and nothing else |
| NodeJobs.AdmittedIff | node.cpp:276-312 | Exactly the messages with a height and a difficulty other than zero, for `randomx`, `progpow` or `cuckoo`, get their job onto the list |
| NodeJobs.LastDifficulty | node.cpp:303-308 | The difficulty is that of the last entry naming the algorithm, and the variable's old value if there is none |
| NodeJobs.EpochSeedsIff | node.cpp:322-356 | The epochs are read through exactly if each is nonempty, does not end before the height and has a seed, and the height's own is found exactly if one contains it, its first height not counted |
| NodeJobs.CompleteIff | node.cpp:318-374 | A job on the list is published exactly if there are one or two such epochs, one of them its own, a job id, and a work of at most 376 bytes in hexadecimal |
| NodeJobs.Node.ProcessJob | node.cpp:276-390 | A complete message's job is listed and published, the oldest leaving if there are too many; an incomplete one stays on the list unpublished; a refused one changes nothing; which seeds are loaded; the ProgPow pool is told of the block exactly if the epochs are in order and one is the height's own |
| NodeJobs.Node.ProcessMessage | node.cpp:203-401 | The published job changes exactly at a complete job message |
| NodeJobs.Node.Run | node.cpp:96-175 | Over any mix of messages the published job is that of the last complete one, filled, and still listed; a new node's ProgPow pool is loaded as the ring says for exactly the blocks announced; if these do not go backwards, the epochs of the published job and of the next are loaded exactly if no epoch announced lies strictly between the job's and the newest |
| NodeJobs.JobData.FilledMeans | node.cpp:315-374 | A published job's work is its message's text decoded, with eight zero bytes behind, 8 to 384 bytes in all, its seed is of an epoch containing its height, its kind and height are those named, and its difficulty is that of the last entry for it |
| NodeJobs.JobData.FillPrepow | node.cpp:363-374 | All writes stay within the 384 bytes; too long or odd or other than hex is refused |
| NodeJobs.Node.ChooseSeeds | node.cpp:322-353 | The loop over the epochs: which seeds are taken and which loaded, up to the entry that fails |
| NodeJobs.FoundSeedIsOfAnEpoch | node.cpp:322-353 | The seed taken is that of an epoch of the message that contains the height |
| NodeJobs.PublishedEpochsAreLoadedIff | node.cpp:358 | Over any run of announcements in order, when the ProgPow pool is loaded for the published job and the next block: always while no later epoch was announced, and otherwise exactly if none lies strictly between the job's and the newest |
| NodeJobs.PublishedSeedIsLoadedIff | node.cpp:338-350 | Exactly when the published job's own seed is still loaded after the seeds were |
| SeedSchedule.ScheduledSeedStaysLoaded | node.cpp:322-353 | Over any run of messages on a schedule of seeds up to some epoch, heights not going backwards, the published job's own seed stays loaded as long as the last message admitted, complete or not, is of the same epoch |
| SeedSchedule.QuietPoolServesCurrentSeed | rx_hashpool.hpp:109-127 | Then in any interleaving of a pool asked for what is missing, when all is quiet some slot publishes that seed's id over a cache built from a seed with it |
| SeedSchedule.QuietPoolHashesCurrentSeed | rx_hashpool.cpp:57-99 | And a job for that seed popped then is hashed over a seed with its id, not refused, if all stays quiet |
| SeedSchedule.HalfFilledJobEvictsEpoch | node.cpp:358-361 | A message of a later epoch whose job id is missing takes the published job's epoch out of the ProgPow pool: two concrete messages |
| SeedSchedule.SchedulesExist | node.cpp:322-353 | Any three seeds with different ids give such a run: two complete messages, on either side of the border between two epochs |
| SeedSchedule.ChangedNextSeedEvictsOwn | node.cpp:338-350 | Off schedule it fails: two complete messages that name different seeds for the next epoch leave the published job without its own seed |
| SeedSchedule.CallsMakeTheRing | rx_hashpool.hpp:109-127 | In any interleaving, calls made only for what no slot is loaded with load the slots as the ring says |
| Session.Client.Submit | client.cpp:217-286 | Whatever the pool answers, and however many submits went before: which error is sent in which case, in order; a submit not refused has the work of the notice last sent pushed, once; a hash whose leading 32 bits exceed 0xFFFFF is a bad share, any other is accepted, and makes a block exactly if its difficulty exceeds 4096, with the height sent, the node's job id, the last eight bytes hashed and the hash |
| Session.Client.CheckClientWork | client.cpp:295-339 | What is pushed is the blob last sent with its final four bytes replaced, or for ProgPow its head with the extra nonce above the miner's, or nothing for a kind without a pool; what comes back is the pool's answer |
| PoolAnswers.RandomXVerdictIsDeserved | client.cpp:265-286 | In a run of the RandomX pool with guarded calls, a submit's verdict is the one deserved by the hash over the notice's own seed, or a server error if the pool had no slot for it, provided no other seed given has its id |
| PoolAnswers.ProgPowVerdictIsDeserved | client.cpp:265-286 | In every run of the ProgPow pool it is the one deserved by the hash over the context of the height's epoch, or a server error |
| PoolAnswers.QuietRandomXShareIsChecked | client.cpp:265-286 | If besides all was quiet since the job was popped, and a slot published the seed's id, it is no server error |
| PoolAnswers.QuietProgPowShareIsChecked | client.cpp:265-286 | Nor is it for ProgPow after blocks in order, when all was quiet, for the height of the last block or the next |
| Session.WorkIs | client.cpp:300-330 | The blob with the nonce in its last four bytes and the seed's id; or the blob less eight bytes, the height, and the extra nonce above the miner's |
| PoolAnswers.UnmatchedCallMisjudges | client.cpp:265-286 | From any state of any run of the RandomX pool, a call for the notice's seed that does not match can lead to a submit judged by a hash over a seed with another id |
| Session.SwappedNonce | client.cpp:278 | The node's nonce is the big-endian value of the extra nonce's and the nonce's bytes |
| Session.FullNonceIs | client.cpp:276-278 | These are the blob's last eight bytes as hashed |
| Session.Client.Login | client.cpp:176-215 | A first login is sent a job, a second changes nothing |
| Session.Client.OnNewBlock | client.cpp:341-371 | A session logged in is sent the new job, with the next id; one not logged in only takes it; an aborting one is let go |
| Session.PatchedIsSent | client.cpp:200-208 | The blob sent is the node's text in lower case, the extra nonce and four zero bytes; it decodes to what the session keeps |
| Session.PublishedIsUsable | node.h:52-55 | Every job the node publishes is one a session can take |
| Session.IdReadBack | client.cpp:235-240 | The number a job id text is read as is the session's exactly if it is the text that was sent, in either case |
| Session.Client.OnlyTheLastJobIsFresh | client.cpp:252-256 | Of the jobs sent within the last 2^32, a well-formed submit naming one is stale if and only if it is not the last |

## Left out

- Sockets, epoll, pipes, `accept`, TLS, start-up, configuration and logging: their answers are arbitrary values. A failed pipe write, and an error of epoll other than an interruption, end the run.
- JSON: messages are handed over as decoded fields, absent where an accessor throws; parsing in place may change any byte of its own line and no other.
- RandomX, ethash, ProgPow and Keccak: foreign code, known by what it is given.
- Memory orders weaker than sequential consistency. The seed of a RandomX slot, which is not atomic, is read and written in two halves; finer tearing is not modelled.
- Fairness and progress: a thread may wait for ever; a program modelled with interference may end while it waits.
- ThdqThreads.BlockingQueue.Pop: may be woken only `patience` times, any number given beforehand, because the wait loop need not end.
- ClientPoolThread.PoolObject.PoolMain: for finitely many wake-ups and messages, because the loop need not end.
- ClientPoolThread.PoolObject.HandleEvent: a read event for a client no longer there is not delivered; the code does not check for it.
- That every accepted socket gets a slot: a pool may pass its last test before the socket is posted (`PoolServer.OnlyEmptyPoolsAreErased` says what is left then).
- How often a descriptor is closed: a failed registration closes it twice.
- PoolServer.WalkVisitsSurvivorsInOrder: the number of active clients summed for the log is not modelled, and there is one list, not one for TLS and one without.
- The pools' slots, queues and threads are values in the transition systems; aliasing between them is not modelled. `PoolObject`, `EpochSlots`, `LineBuffer`, `JobData` and `Client` are over arrays.
- NodeJobs.Node.ProcessJob: `block_diff` is uninitialised when no entry names the algorithm, so its value is an arbitrary parameter; the pools are present by what they are loaded with; the time of the last job is not kept.
- Readers still copying the published job while it is removed from the list: taking a copy is one step.
- What addresses jobs and contexts have, and their reuse.
- Session.Client.Submit: only after login; before it the session's job may be uninitialised. The pool's answer is a parameter, any hash or none; a session and a pool do not run together in one transition system.
- Session.Client.MakeNotice: its texts are sequences. The buffer `hex_blob[768]` (`client.cpp:195`) is one byte short for the longest work a job can hold, so that they fit is not claimed.
- A method's name, the call id, the user's name and password, keep-alive answers, and the texts around the fields of a message.
- `pop_all`, `emplace` and the unused parts of the queue, and the vector-of-threads class behind it.
