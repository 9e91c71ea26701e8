# What the benchmark tools promise, proved

The repository holds an RDMA performance suite (`lib/perf`) and a small RDMA library (`src`). This project models
the parts in which something has to stay true over a whole run, and proves it.

**The ring of links** (`src/include/link_buf.h`). Many threads report finished operations, each an interval of one
total order, by storing a length in a ring slot; one thread follows the links and moves a tail over the longest
stretch without a hole. `LinkTracking.dfy` says what the ring must agree with: a set of finished, pairwise disjoint
intervals. `LinkBuf.dfy` is the class as one thread uses it; `LinkBufThreads.dfy` interleaves every atomic access of
any number of adding threads with those of the one that advances the tail. As the header asks, operations are
disjoint, each is reported once, and each thread sees `has_space` first. Atomic accesses are sequentially consistent,
the default the code uses.

**Flow control** (`lib/perf/perftest_resources.c`). A send window, completion moderation (one completion stands for
`cq_mod` sends) and a credit protocol (the receiver writes its count back every `rx_depth / 3` messages) act
together. `Moderation.dfy` counts completions. `CreditFlow.dfy` is one direction of a credited run: the messages,
completions and credit writes between a sender and a receiver, and hardware that does each of its steps whenever it
likes; a credit write reads its source word late. `CreditRun.dfy` is the whole one-way run, `BiRun.dfy` the bidirectional one
with both its sides, where each side's credit writes share its send queue with its data. `BiProgress.dfy` proves how
bidirectional runs end and `BiHang.dfy` exactly which of them can hang. `CreditServer.dfy` is the receiver's
bookkeeping over many queue pairs, `SendWork.dfy` the work requests that are changed in place between posts, and
`Parameters.dfy` the code that settles the parameters all of this relies on.

**A bandwidth run over several queue pairs** (`run_iter_bw`, the same file). `RunLog.dfy` is its course, the order of
posts and completions, `RunProgress.dfy` and `RunSchedules.dfy` say when it comes to an end, `Stamps.dfy` which event
stamps which slot, and `Recorder.dfy` is the loops themselves and the search that reads the stamps.

**Buffers** (`CyclicBuffers.dfy`): addresses that cycle through a buffer, and where all buffers of a context lie.

**The block allocator** (`MemoryManager.dfy`, from `src/mem_mag.cc`): an optimistic `fetch_add` with a rollback, first
for one thread, then for any number of them.

**Connections** (`ConnectionManager.dfy`, `ConnectionRuns.dfy`, `ConnectionErrors.dfy`, `KeyMessage.dfy`,
`VersionCompare.dfy`, from `lib/perf/perftest_communication.c`): the counters of the RDMA CM event loops, in runs that
go well and in runs that do not, the message that carries the keys, and `strverscmp`.

**The IPv4 checksum** (`IpChecksum.dfy`, from `lib/perf/raw_ethernet_resources.c`), against section 1 of RFC 1071.

`Basics.dfy`, `Runs.dfy` (runs of a transition system and their invariants), `Modular.dfy` (remainders) and `Sums.dfy`
are shared.

## What turned out not to hold

Each of these is stated with the exact condition under which the code does what it is meant to.

- The credit wait loop of `run_iter_bi` compares an unsigned difference that wraps when the last completion is
  credited for more sends than there were. A run can hang in it exactly when, for some side, `cq_mod` does not divide
  `iters` and the other side can send as many messages as it takes for a credit to fall due
  (`BiHang.WaitLoopHangsIff`); for two sides started alike, when `cq_mod` does not divide `iters` and
  `rx_depth / 3 <= iters` (`BiHang.SameParametersHangIff`). The second condition always holds of settled parameters
  (`Parameters.Parameters.ForceDependencies`). `BiHang.HangingRun` builds the run, in the order of the code.
- `run_iter_bw` polls no more once as many completions are credited as there are sends in all, though the last
  completion of a queue pair may count for more than it sent. With several queue pairs one can then be left with sends
  that its window keeps back, and the loops spin for ever. That can be brought about exactly when `cq_mod` does not
  divide `iters`, `tx_depth < iters`, and the other queue pairs together count too much by at least what is missing on
  one that is polled no further (`RunSchedules.SpinsIff`), as with the default depths and 250 iterations over four
  queue pairs (`RunSchedules.DefaultsMaySpin`, `Parameters.SettledMaySpin`). Otherwise every fair run ends
  (`RunSchedules.FairRunsEnd`).
- For the same reason a completion may be stamped before a posting the peak search pairs it with. In every run the
  stamps are in order exactly if `cq_mod` divides `iters` or there is one queue pair (`RunSchedules.OrderHoldsIff`).
- Numbers with leading zeroes are meant to be compared as fractions, and are not where the lesser one is longer and
  differs in a digit other than zero behind the first (`VersionCompare.FractionsInOrderIff`): 0115 comes behind 012.
- A sender whose list does not fit between the last credit and `rx_depth` stops for good. Every run of given
  parameters finishes exactly when that never happens (`CreditRun.StuckRunHasFinishedIff`); lists of at most
  `rx_depth - rx_depth / 3` are short enough. The parameter checks accept options for which it does happen
  (`Parameters.SettledMayStarve`).
- The list size is checked against neither its lower bound nor the send queue. The send side's requirements hold
  exactly when it lies between one and the depth asked for (`Parameters.Parameters.ForceDependencies`).
- UD receives are 40 bytes longer than the slot arithmetic allows for. Where the slots fill the buffer, the last
  slot of one queue pair runs into the first of the next (`CyclicBuffers.BuffersApartIff`), as for small datagrams
  (`CyclicBuffers.FullUdBuffersTouch`); and within one queue pair receives in different slots overlap exactly when
  there are several slots and size and header together exceed the stride (`CyclicBuffers.SlotsApartIff`).
- While a rollback of `allocate_next_block` is pending, the counter is past the last block and a lookup may index
  outside the vector; exactly then (`MemoryManager.LookupsInRangeIff`, with a run that gets there in
  `MemoryManager.RollbackMayBePending`).
- The checksum leaves the last byte of odd data out, where section 1 of RFC 1071 pads with zero; the two agree on
  odd data exactly when that byte is zero (`IpChecksum.AgreesWithPaddingIff`).
- A server that loses a client while it is still connecting counts `disconnects_left` below zero and then waits
  for it to be zero without end (`ConnectionRuns.ServerTeardownEndsIff`, with such a run in
  `ConnectionRuns.ServerMayLoseClient`).

## Model

| member | source | states |
|---|---|---|
| `LinkTracking.MaskIsModulo` | src/include/link_buf.h:295-297 | masking a position with a power of two less one is reduction modulo the capacity |
| `LinkTracking.SlotIsFree` | src/include/link_buf.h:205-216 | the slot of an operation that is not yet reported and was admitted by the space check holds zero |
| `LinkTracking.TracksStore` | src/include/link_buf.h:205-216 | storing a link adds exactly that operation to what the ring stands for |
| `LinkTracking.LinkIsGenuine` | src/include/link_buf.h:219-231 | a non-zero slot at the reader's position holds the length of the operation that starts there, not of one a ring length away |
| `LinkTracking.TracksClaim` | src/include/link_buf.h:234-240 | zeroing the slot and moving past its operation loses no other link, although the tail is not published yet |
| `LinkTracking.EmptySlotIsHole` | src/include/link_buf.h:219-231 | an empty slot at the reader's position means no finished operation covers that position |
| `LinkBuf.SlotIndex` | src/include/link_buf.h:295-297 | the index is the position modulo the capacity, inside the ring |
| `LinkBuf.OneRingDecides` | src/include/link_buf.h:300-312 | once round the ring decides any longer range |
| `LinkBuf.LinkBuf.constructor` | src/include/link_buf.h:151-165 | a new ring tracks no operation, tail at zero |
| `LinkBuf.LinkBuf.HasSpace` | src/include/link_buf.h:290-292 | true only inside one ring length past the tail, and exactly there unless the sum overflows |
| `LinkBuf.LinkBuf.AddLink` | src/include/link_buf.h:205-216 | the slot is zero beforehand, and afterwards the operation is tracked and no other slot changed |
| `LinkBuf.LinkBuf.NextPosition` | src/include/link_buf.h:219-231 | stops exactly at holes; otherwise gives the end of the operation starting here, without overflow |
| `LinkBuf.LinkBuf.ClaimPosition` | src/include/link_buf.h:234-240 | zeroes that slot and no other |
| `LinkBuf.LinkBuf.FollowLink` | src/include/link_buf.h:247-260 | one round follows exactly one finished operation and forgets no other, or changes nothing |
| `LinkBuf.LinkBuf.Publish` | src/include/link_buf.h:262-269 | publishing the reader's position leaves a ring that tracks the same operations from the new tail |
| `LinkBuf.LinkBuf.AdvanceTailUntil` | src/include/link_buf.h:244-270 | the new tail has only finished operations below it and followed links the condition let pass; it stands at the first hole or at the first link the condition refuses |
| `LinkBuf.LinkBuf.AdvanceTail` | src/include/link_buf.h:273-277 | the tail lands exactly on the first point no finished operation covers |
| `LinkBuf.LinkBuf.ValidateNoLinks` | src/include/link_buf.h:300-312 | passes exactly when no position of the whole range has a link, looking at no more than one ring |
| `LinkBufThreads.NextInv` | src/include/link_buf.h:205-270 | every atomic step of any thread keeps the agreement with the finished operations and never lowers the tail |
| `LinkBufThreads.AddersFindTheirSlotFree` | src/include/link_buf.h:205-216 | in every interleaving a thread past the space check finds its slot zero until it stores: the assertion never fires and nothing is overwritten |
| `LinkBufThreads.SlotsAreExactlyThePendingLinks` | src/include/link_buf.h:205-240 | in every reachable state a slot is non-zero exactly when one reported, unclaimed operation of the window starts there; it is unique and the slot holds its length |
| `LinkBufThreads.ReaderFollowsItsOwnLink` | src/include/link_buf.h:219-231 | the reader never takes another position's link for its own, and the sum never overflows |
| `LinkBufThreads.ReaderStopsOnlyAtHoles` | src/include/link_buf.h:230-252 | in every run a call stops scanning only where no finished operation covers its position, its own stop condition apart |
| `LinkBufThreads.CallLandsOnFirstHole` | src/include/link_buf.h:244-277 | a call that refuses no link and sees no store meanwhile publishes exactly the first point no finished operation covers |
| `LinkBufThreads.AdmittedIff` | src/include/link_buf.h:290-292 | short of overflow an operation gets through the space check exactly if it starts within one ring of the tail |
| `LinkBufThreads.AdmittedCanReport` | src/include/link_buf.h:205-216 | whatever the others do, an admitted operation can be reported at once, and then its slot holds its length |
| `LinkBufThreads.TailIsFinished` | src/include/link_buf.h:244-270 | everything below the published tail is finished and no reported operation is ever lost |
| `LinkBufThreads.TailNeverDecreases` | src/include/link_buf.h:262-269 | the tail never decreases over a run |
| `LinkBufThreads.ReaderIsBounded` | src/include/link_buf.h:244-260 | one call claims at most `capacity` slots, however many links are added meanwhile, and each claim moves it forward inside the window of the old tail |
| `LinkBufThreads.ClaimsAreCounted` | src/include/link_buf.h:234-260 | that count is the number of slots the call has zeroed |
| `Moderation.SignalsBeforeIs` | lib/perf/perftest_resources.c:2901-2905 | how many completions n sends produce |
| `Moderation.CompletionsCounted` | lib/perf/perftest_resources.c:3419-3420 | credited completions lag the sends by less than `cq_mod`; at the end they reach `iters`, exceeding it exactly if `cq_mod` does not divide it |
| `Moderation.WindowIsExact` | lib/perf/perftest_resources.c:3328-3330 | while sends remain the unsigned window condition is the true one |
| `Moderation.ClosedWindowHasSignal` | lib/perf/perftest_resources.c:3328-3330 | whenever the window is closed with sends left, a signalled send is still to be polled |
| `Moderation.ListIsSignalled` | lib/perf/perftest_resources.c:2901-2905 | every posted list ends in a signalled send |
| `CreditFlow.SendWindowIsExact` | lib/perf/perftest_resources.c:3332-3336 | the 32-bit window is the true distance to the last credit |
| `CreditFlow.FlowStepInv` | lib/perf/perftest_resources.c:3328-3651 | every step of a sender, its receiver or the hardware between them keeps the flow's invariant |
| `CreditFlow.DueAtThirds` | lib/perf/perftest_resources.c:3615-3620 | at count `q * rx_depth + i * (rx_depth / 3) + r`, with `r` less than a third and all behind `q` less than `rx_depth`, the count is stored and a credit falls due exactly if `r` is zero |
| `CreditFlow.CountsAsSome` | lib/perf/perftest_resources.c:3083 | every count is of that form |
| `CreditFlow.PostedBounds` | lib/perf/perftest_resources.c:3576-3593 | receives are reposted one for one until `iters` are posted, and no further |
| `CreditFlow.SentHasReceive` | lib/perf/perftest_resources.c:3332-3336 | as long as it holds, every message sent has a receive posted for it |
| `CreditFlow.ShortListsNeverStarve` | lib/perf/perftest_resources.c:3083 | lists of at most `rx_depth - rx_depth / 3` always fit the window the freshest credit leaves |
| `CreditFlow.StarvedStaysBelow` | lib/perf/perftest_resources.c:3332-3336 | a sender whose list exceeds what the freshest credit leaves never gets past that list, whatever happens |
| `CreditRun.NextInv` | lib/perf/perftest_resources.c:3328-3651 | every step of either endpoint or of the hardware keeps the invariant and does some of the remaining work |
| `CreditRun.EveryMessageHasAReceive` | lib/perf/perftest_resources.c:3328-3336 | in every run the messages sent never outnumber the receives posted, however late credits are read or land |
| `CreditRun.WindowNeverWraps` | lib/perf/perftest_resources.c:3332-3336 | in every run the window computed modulo 2^32 from the 32-bit credit word is exact |
| `CreditRun.QueuesNeverOverflow` | lib/perf/perftest_resources.c:3328-3341 | in every run sends not known complete fit `tx_depth`, as do unpolled completions and outstanding credit writes |
| `CreditRun.CreditsPolledWhenFull` | lib/perf/perftest_resources.c:3622-3635 | in every run the receiver polls for credit writes only when they fill its send queue or all messages are in, and at most `tx_depth` at a time |
| `CreditRun.QuietSenderCanPostIff` | lib/perf/perftest_resources.c:3328-3336 | with nothing under way the sender can post exactly if the last credit lags by less than what the list leaves of `rx_depth` |
| `CreditRun.Progress` | lib/perf/perftest_resources.c:3314-3442 | no deadlock: a reachable state that is not finished has a step |
| `CreditRun.RunsAreBounded` | lib/perf/perftest_resources.c:3314-3442 | every run ends within 13 steps an iteration |
| `CreditRun.StuckRunHasFinishedIff` | lib/perf/perftest_resources.c:3614-3651 | a run that cannot go on has finished exactly when its parameters never starve the sender |
| `CreditRun.EveryRunCanFinish` | lib/perf/perftest_resources.c:3314-3442 | where the parameters never starve the sender, every run can be carried on until both sides are done |
| `BiRun.RunInv` | lib/perf/perftest_resources.c:4021-4250 | the invariants of both directions and of both shared send queues hold in every state of every run |
| `BiRun.EveryMessageHasAReceive` | lib/perf/perftest_resources.c:4027-4031 | in both directions messages sent never outnumber receives posted, and the 32-bit window is exact |
| `BiRun.SharedQueueFits` | lib/perf/perftest_resources.c:4025-4026 | in every run data sends not known complete and credit writes together fit `tx_depth` |
| `BiRun.ServerReceivesFirst` | lib/perf/perftest_resources.c:4024-4093 | in every run the server has sent nothing as long as it has received nothing |
| `BiRun.PolledWhereTheLoopsPoll` | lib/perf/perftest_resources.c:4149-4250 | in every run a side takes completions one at a time, and only between receives or while it must wait |
| `BiRun.WaitingHasSignal` | lib/perf/perftest_resources.c:4149-4181 | with `cq_mod` dividing `iters`, or with sends left, the wait loop runs only while a signalled entry is outstanding |
| `BiRun.HungForEver` | lib/perf/perftest_resources.c:4149-4181 | a side in the wait loop with nothing outstanding stays there, whatever the other side and the hardware do |
| `BiProgress.HungMeans` | lib/perf/perftest_resources.c:4140-4181 | a side hangs only with all its sends posted, `cq_mod` not dividing their number, and `rx_depth / 3` receives taken |
| `BiProgress.NeverHangs` | lib/perf/perftest_resources.c:4149-4181 | no run of other parameters than those below hangs, in any order of steps |
| `BiProgress.RunsAreBounded` | lib/perf/perftest_resources.c:4021-4250 | every run ends within 26 steps an iteration |
| `BiProgress.StuckRunHasFinishedIff` | lib/perf/perftest_resources.c:4021-4250 | no deadlock between the two sides: where none can hang, a run that cannot go on has finished exactly if neither side's parameters starve it |
| `BiProgress.EveryRunCanFinish` | lib/perf/perftest_resources.c:4021-4250 | and then every run can be carried on until both sides are done |
| `BiHang.RunToRest` | lib/perf/perftest_resources.c:4024-4065 | holding one side's receives back, everything else comes to rest in a run that keeps the code's order |
| `BiHang.HangingRun` | lib/perf/perftest_resources.c:4140-4181 | for those parameters a run, each credit due at its receive count and each post inside the credit window, that leaves a side waiting for ever |
| `BiHang.WaitLoopHangsIff` | lib/perf/perftest_resources.c:4140-4181 | the loop can hang exactly when for some side `cq_mod` does not divide `iters` and the other can send up to the first count at which a credit is due |
| `BiHang.SameParametersHangIff` | lib/perf/perftest_resources.c:4140-4181 | for two sides started alike, exactly when `cq_mod` does not divide `iters` and `rx_depth / 3 <= iters` |
| `CreditServer.ConservedInTotal` | lib/perf/perftest_resources.c:3622-3649 | the total counts every credit write once: with the hardware, or waiting in the queue |
| `CreditServer.CompletionsFit` | lib/perf/perftest_resources.c:1502-1503 | waiting completions fit a queue of `tx_depth * num_of_qps` entries |
| `CreditServer.PollConserves` | lib/perf/perftest_resources.c:3633-3634 | a polled completion is credited to the queue pair it came from, whose counter is positive |
| `CreditServer.PostConserves` | lib/perf/perftest_resources.c:3648-3649 | a posted credit write is counted once for its queue pair and once in total |
| `CreditServer.DrainEnds` | lib/perf/perftest_resources.c:3136-3153 | with no write under way, as many polls of `tx_depth` as hold the waiting completions empty queue and count |
| `CreditServer.DrainCounts` | lib/perf/perftest_resources.c:3136-3153 | what is left is always the writes under way and the waiting completions; a poll with a completion waiting lowers it |
| `CreditServer.WaitEnds` | lib/perf/perftest_resources.c:3622-3641 | a completion of the queue pair at place x of the queue makes room within `x / tx_depth + 1` polls |
| `CreditServer.RoomComes` | lib/perf/perftest_resources.c:3622-3641 | with no write of the queue pair under way the wait ends with room once enough polls are made to take what waits |
| `CreditServer.Server.constructor` | lib/perf/perftest_resources.c:3614-3651 | counters start conserved |
| `CreditServer.Server.FinishSome` | lib/perf/perftest_resources.c:3642-3649 | the hardware finishes writes under way, each appended to the completion queue once |
| `CreditServer.Server.PollCredits` | lib/perf/perftest_resources.c:3623-3635 | takes the lesser of `tx_depth` and what is waiting, in order, each off its own queue pair and the total |
| `CreditServer.Server.MakeRoom` | lib/perf/perftest_resources.c:3622-3641 | ends with room for one more write, the queue polled as often as specified; polls nothing if there was room, and ends with room unless the rounds ran out |
| `CreditServer.Server.OneRound` | lib/perf/perftest_resources.c:3623-3635 | one pass of a wait loop: what the hardware finishes is queued, and up to `tx_depth` completions are taken, each off its own queue pair |
| `CreditServer.Server.PostCredit` | lib/perf/perftest_resources.c:3642-3649 | one write more for that queue pair only, never beyond `tx_depth` |
| `CreditServer.Server.SendCredit` | lib/perf/perftest_resources.c:3622-3649 | waits as specified and posts exactly if there is room; with no write of the queue pair under way and polls enough there is |
| `CreditServer.Server.OnReceive` | lib/perf/perftest_resources.c:3565-3650 | a credit is due every `rx_depth / 3` receives, afresh at each `rx_depth`; it is then sent exactly if the wait ends with room, as it does with polls enough |
| `CreditServer.Server.CleanScqCredit` | lib/perf/perftest_resources.c:3126-3158 | drains as specified: each poll takes the lesser of `tx_depth` and what waits; it ends at zero with nothing out, or with the rounds used up, and at zero for certain if nothing is under way and the polls are enough |
| `Parameters.Parameters.ForceDependencies` | lib/perf/perftest_parameters.c:1002-1148 | when exactly the program goes on, and the settled depths and moderation; the send side's and the credit protocol's requirements then hold exactly if the list size lies between one and the depth asked for (and three receives were asked for); a credit falls due before the iterations end |
| `Parameters.SettledBy` | lib/perf/perftest_parameters.c:1005-1148 | the three rewrites, one after the other, settle the options |
| `Parameters.SettledIsModeratedIff` | lib/perf/perftest_parameters.c:1121-1148 | settled options meet the send side's requirements exactly for list sizes from one to the depth asked for |
| `Parameters.SettledMayStarve` | lib/perf/perftest_parameters.c:1005-1148 | options that are accepted and settle to a flow whose sender starves |
| `Parameters.SettledMaySpin` | lib/perf/perftest_parameters.c:1005-1148 | options that are accepted as they are and over four queue pairs let the loops spin for ever |
| `CyclicBuffers.RoundUp` | lib/perf/perftest_resources.h:122-123 | the least multiple of the alignment that is not below the value |
| `CyclicBuffers.Inc` | lib/perf/perftest_resources.h:128-129 | a multiple of the cache line that covers the message and a cache line, less than a cache line too long |
| `CyclicBuffers.InStep` | lib/perf/perftest_resources.h:752-759 | a counter in step with the address visits the slots in turn |
| `CyclicBuffers.WalkStaysInside` | lib/perf/perftest_resources.c:3604-3610 | from any counter phase the address is always that of some slot, and which one |
| `CyclicBuffers.SlotsFit` | lib/perf/perftest_resources.h:117-129 | all slots together fit the buffer |
| `CyclicBuffers.SlotsAreMost` | lib/perf/perftest_resources.h:752-759 | messages of up to half the cycle buffer use as many slots as fit it, larger ones one |
| `CyclicBuffers.AccessInBuffer` | lib/perf/perftest_resources.c:3057-3066 | every send, and every receive from any phase, starts in its own buffer and its message ends there |
| `CyclicBuffers.ReceivesAligned` | lib/perf/perftest_resources.c:3009-3026 | in an aligned region every receive starts on a cache line, behind the UD header where there is one |
| `CyclicBuffers.BufferSizes` | lib/perf/perftest_resources.c:1208-1211 | the divided size is the padded size of one buffer, and the region that of two for each queue pair, for UD with a cache line more |
| `CyclicBuffers.AccessInRegion` | lib/perf/perftest_resources.c:1208-1214 | no access leaves the memory region, UD header included |
| `CyclicBuffers.DifferentBuffersApart` | lib/perf/perftest_resources.c:3001-3012 | accesses of different queue pairs or directions touch different bytes, where UD receives have room |
| `CyclicBuffers.BuffersApartIff` | lib/perf/perftest_resources.c:3009-3015 | that is so for all accesses exactly if there is room behind the last slot or only one queue pair |
| `CyclicBuffers.NeighboursOverlap` | lib/perf/perftest_resources.c:3009-3015 | two receives that overlap otherwise |
| `CyclicBuffers.FullUdBuffersTouch` | lib/perf/perftest_resources.c:3009-3015 | a layout whose buffers do overlap: 64-byte datagrams, two queue pairs |
| `CyclicBuffers.SlotsApartIff` | lib/perf/perftest_resources.c:3014-3026 | receives in different slots of one buffer are separate exactly if size and header fit the stride or there is one slot |
| `CyclicBuffers.NextSlotOverlaps` | lib/perf/perftest_resources.c:3014-3026 | the first two slots overlap otherwise |
| `SendWork.AddressCell.Increase` | lib/perf/perftest_resources.h:720-759 | an address in step with its counter stays so |
| `SendWork.SendQueue.constructor` | lib/perf/perftest_resources.c:2875-2905 | the request is prepared for send 0 |
| `SendWork.SendQueue.PostSend` | lib/perf/perftest_resources.c:3337-3389 | post k is signalled exactly if `(k + 1) % cq_mod == 0` or it is the last, and uses slot `k % n` on both sides |
| `SendWork.BuildList` | lib/perf/perftest_resources.c:2875-2939 | entry j addresses slot j of the cycle on both sides, and flags repeat so that send k of a run of lists is signalled as it should be |
| `SendWork.ListFlag` | lib/perf/perftest_resources.c:2901-2905 | the flag at a place in the list is right for every send posted from that place |
| `RunLog.WindowKept` | lib/perf/perftest_resources.c:3328-3330 | in every run, for every queue pair, `scnt - ccnt` never exceeds `tx_depth` |
| `RunLog.CreditedAtMost` | lib/perf/perftest_resources.c:3419-3420 | a queue pair is never credited more than it sent while it has sends left, and at the end by less than `cq_mod` more |
| `RunLog.SentInAll` | lib/perf/perftest_resources.c:3381-3382 | no more than `iters` times the queue pairs is ever posted, and that only with every queue pair complete |
| `RunLog.CreditedInAll` | lib/perf/perftest_resources.c:3419-3420 | if `cq_mod` divides `iters`, or with one queue pair, the credits in all never run ahead of the sends before the last send |
| `RunLog.MayPostIsAllowed` | lib/perf/perftest_resources.c:3328-3336 | the unsigned condition of the posting loop lets through exactly the lists that fit the window and the credit |
| `RunLog.PostAllIsLog` | lib/perf/perftest_resources.c:3318-3399 | a pass of the posting loops is a course of allowed posts after which no queue pair may post |
| `RunLog.AfterRoundsIsLog` | lib/perf/perftest_resources.c:3314-3442 | so is every run of the loops, whatever the peer and the hardware do |
| `RunSchedules.LogIsRun` | lib/perf/perftest_resources.c:3314-3442 | and every such course that polls in time is that of some run |
| `RunProgress.LogsAreBounded` | lib/perf/perftest_resources.c:3314-3442 | a run has at most two events for each send |
| `RunProgress.StuckOrMoves` | lib/perf/perftest_resources.c:3314-3442 | before its end something can happen, unless no queue pair can post and none is polled any more |
| `RunProgress.StuckForEver` | lib/perf/perftest_resources.c:3400-3441 | then no pass changes anything again |
| `RunProgress.NeverStuck` | lib/perf/perftest_resources.c:3314-3442 | that happens only under the stated condition on the parameters |
| `RunSchedules.SpinningRun` | lib/perf/perftest_resources.c:3314-3442 | under it a schedule brings it about |
| `RunSchedules.SpinsIff` | lib/perf/perftest_resources.c:3314-3442 | the loops can be brought to spin for ever exactly if `cq_mod` does not divide `iters`, `tx_depth` is less, and what the last completions of the other queue pairs count too much makes up for what one is short of |
| `RunSchedules.FairRunsEnd` | lib/perf/perftest_resources.c:3314-3442 | otherwise every schedule that serves each pass ends the loops, within two passes for each send |
| `RunSchedules.DefaultsMaySpin` | lib/perf/perftest_parameters.h:115-123 | the default depths meet the condition with 250 iterations over four queue pairs |
| `Stamps.PostingKeepsSlot` | lib/perf/perftest_resources.c:3343-3344 | every posting has a slot of its own |
| `Stamps.CompletionKeepsSlot` | lib/perf/perftest_resources.c:3421-3426 | every completion too, save those that share the last |
| `Stamps.StampsIncrease` | lib/perf/perftest_resources.c:3343-3426 | in both arrays later slots hold later readings |
| `Stamps.PostedBeforeCompleted` | lib/perf/perftest_resources.c:3343-3426 | if `cq_mod` divides `iters`, or with one queue pair, the posting of a slot is stamped before the completion of that slot or a later one |
| `RunSchedules.OrderHoldsIff` | lib/perf/perftest_resources.c:3343-3426 | over all runs exactly then |
| `RunSchedules.OvertakingRun` | lib/perf/perftest_resources.c:3343-3426 | otherwise a run stamps a completion before a posting it is paired with |
| `Recorder.RunIterBw` | lib/perf/perftest_resources.c:3314-3442 | the course of the run is that of the rounds; each slot of both arrays holds the reading of the event it belongs to, no stamp lies outside; it ends exactly when all sends and completions are counted, and then each queue pair has posted exactly `iters` and every slot the peak search reads is written |
| `Recorder.PostQueue` | lib/perf/perftest_resources.c:3328-3398 | posts on one queue pair until the window or the credit closes, stamping each list with its own reading |
| `Recorder.PostSends` | lib/perf/perftest_resources.c:3318-3399 | one such pass over all queue pairs, in order |
| `Recorder.PollSends` | lib/perf/perftest_resources.c:3408-3435 | credits `cq_mod` to the queue pair each completion names and stamps it with the reading taken when it was polled |
| `Recorder.AllRecorded` | lib/perf/perftest_parameters.c:3315-3333 | once the loops end every pair the search looks at has been recorded, whether or not `cq_mod` divides the total |
| `Recorder.RateIsElapsed` | lib/perf/perftest_parameters.c:3315-3333 | where stamps are in order no rate wraps: it is the time from posting to completion per message |
| `Recorder.PeakSearch` | lib/perf/perftest_parameters.c:3310-3333 | finds the least time per message over all pairs of a posting and a later completion, reading only written slots |
| `Recorder.PeakIsARate` | lib/perf/perftest_parameters.c:3310-3333 | with stamps in order and a counter past zero, what it finds is the rate of some pair, though it starts from a slot that may never be written |
| `MemoryManager.FitsIff` | src/mem_mag.cc:12-13 | one more block fits exactly when fewer than `max / length` are granted |
| `MemoryManager.PinnedFixMemory.constructor` | src/include/mem_mag.h:62-65 | no block granted |
| `MemoryManager.PinnedFixMemory.AllocateNextBlock` | src/mem_mag.cc:11-31 | grants the next block, into an empty slot, exactly as long as one is left; a failure changes nothing |
| `MemoryManager.PinnedFixMemory.GetPinnedMr` | src/mem_mag.cc:47-58 | finds exactly the granted blocks, each at its own offset |
| `MemoryManager.FetchAddInv` | src/mem_mag.cc:12-15 | the addition keeps the invariant, on both branches |
| `MemoryManager.StoreInv` | src/mem_mag.cc:19-24 | so does the store of a block, whose slot is empty |
| `MemoryManager.FetchSubInv` | src/mem_mag.cc:26 | and the rollback, which takes back exactly what was added |
| `MemoryManager.CounterBound` | src/mem_mag.cc:12-13 | the counter never wraps; it is the blocks granted and the rollbacks pending |
| `MemoryManager.GrantsAreSequential` | src/mem_mag.cc:11-22 | in every interleaving blocks are granted once each and in order, and the assertion on the empty slot never fires |
| `MemoryManager.FailuresAreJustified` | src/mem_mag.cc:25-28 | a call fails only when every block has been granted |
| `MemoryManager.QuiescentIsSequential` | src/mem_mag.cc:11-31 | with no call in progress the state is that of the sequential allocator |
| `MemoryManager.LookupsInRangeIff` | src/mem_mag.cc:47-58 | lookups index inside the vector exactly when no rollback is pending |
| `MemoryManager.RollbackMayBePending` | src/mem_mag.cc:11-31 | a run of two threads that gets a rollback pending and a lookup out of range |
| `MemoryManager.LookupFindsItsBlock` | src/include/mem_mag.h:80-85 | whatever a lookup finds is the block at the offset asked for |
| `ConnectionManager.ConnectionManager.constructor` | lib/perf/perftest_resources.c:5066-5085 | counters and nodes before the first event |
| `ConnectionManager.ConnectionManager.RouteHandler` | lib/perf/perftest_communication.c:2200-2251 | marks the next node, or on a failure only counts a connection off |
| `ConnectionManager.ConnectionManager.RequestHandler` | lib/perf/perftest_communication.c:2256-2341 | stores the id in the next node and marks it; a failure takes the id out again; one request too many is refused |
| `ConnectionManager.ConnectionManager.EstablishedHandler` | lib/perf/perftest_communication.c:2346-2368 | the client counts a connection over from one counter to the other; datagrams fill the next peer |
| `ConnectionManager.ConnectionManager.Dispatch` | lib/perf/perftest_communication.c:2395-2432 | every event has its handler's effect and result |
| `ConnectionManager.ConnectionManager.ConnectEvents` | lib/perf/perftest_communication.c:2437-2469 | takes events in order until the counter is zero or something fails, and no more |
| `ConnectionManager.ConnectionManager.HangUp` | lib/perf/perftest_communication.c:2485-2496 | hangs up connected nodes in order, up to the first call that fails |
| `ConnectionManager.ConnectionManager.DisconnectNodes` | lib/perf/perftest_communication.c:2474-2523 | returns at once if nothing is to be lost or for datagrams; otherwise hangs up and waits |
| `ConnectionErrors.HandleFailsIff` | lib/perf/perftest_communication.c:2395-2432 | an event fails exactly if it reports an error, an option is missing, its handler fails, or it is one request too many |
| `ConnectionErrors.ErrorCountsOff` | lib/perf/perftest_communication.c:2373-2382 | an error takes one connection off and touches no other counter and no mark; the two exceptions take none off |
| `ConnectionErrors.StopsAtFirstError` | lib/perf/perftest_communication.c:2444-2469 | a loop that ends or goes on waiting took no report that failed to come, carried an error or was not acknowledged; one that fails stopped at the first such report |
| `ConnectionErrors.FailureLeaves` | lib/perf/perftest_communication.c:2444-2469 | a failing loop leaves what the failing report makes of the state before it |
| `ConnectionErrors.HangsUpToFirstFailure` | lib/perf/perftest_communication.c:2485-2496 | nodes are hung up in order up to the first call that fails, and the result is that of that call |
| `ConnectionErrors.TeardownIs` | lib/perf/perftest_communication.c:2474-2523 | a teardown fails before any event exactly if a call for a connected node fails; otherwise every connected id is hung up and the events decide |
| `ConnectionRuns.ClientRun` | lib/perf/perftest_communication.c:2437-2523 | in every run of a client's loop no handler writes outside the nodes and the counters count what was resolved, established and lost |
| `ConnectionRuns.ClientLoopEndsIff` | lib/perf/perftest_communication.c:2444-2462 | with no errors the loop ends exactly when it has heard of every connection |
| `ConnectionRuns.ClientConnects` | lib/perf/perftest_communication.c:2437-2469 | `connects_left`, `disconnects_left` and the lost connections add up to the queue pairs; a zero return means every node is connected |
| `ConnectionRuns.PeersInOrder` | lib/perf/perftest_communication.c:2127-2133 | for datagrams the k-th connection established fills node k, unless one was lost in between |
| `ConnectionRuns.HangsUpAll` | lib/perf/perftest_communication.c:2485-2496 | a fully connected client hangs up every id once, in order |
| `ConnectionRuns.ClientTeardown` | lib/perf/perftest_communication.c:2474-2523 | taking connections down is done exactly when each was reported gone, with `disconnects_left` at zero and every id hung up once |
| `ConnectionRuns.ServerRun` | lib/perf/perftest_communication.c:2256-2341 | in every run of a server's loop with no errors the reject of one request too many is never reached |
| `ConnectionRuns.ServerConnects` | lib/perf/perftest_communication.c:2437-2469 | `connection_index + connects_left` is always the number of queue pairs; a zero return means every node is connected, in the order of requests; and it comes exactly when that many requests have |
| `ConnectionRuns.ServerTeardownEndsIff` | lib/perf/perftest_communication.c:2474-2523 | a server's teardown ends exactly for datagrams or if no client was lost while it was connecting |
| `ConnectionRuns.ServerMayLoseClient` | lib/perf/perftest_communication.c:2387-2390 | an error-free run that ends connected with the counter at minus one and no teardown |
| `KeyMessage.PrintThenParse` | lib/perf/perftest_communication.h:79-83 | a number that fits its width prints to exactly that width and is read back, whatever follows |
| `KeyMessage.MessagesFillTheirBuffers` | lib/perf/perftest_communication.h:75-83 | both messages fill exactly 59 and 108 bytes, terminator included |
| `KeyMessage.LayoutOfMessage` | lib/perf/perftest_communication.c:296-297 | at which place of the message each field is printed |
| `KeyMessage.HeadOfGidMessage` | lib/perf/perftest_communication.c:304-307 | so with a GID, for the six fields in front of it |
| `KeyMessage.LayoutOfGidMessage` | lib/perf/perftest_communication.c:304-317 | and for the bytes of the GID and the last field |
| `KeyMessage.FindColon` | lib/perf/perftest_communication.c:366-369 | the first colon from here on |
| `KeyMessage.ReadField` | lib/perf/perftest_communication.c:366-369 | the value up to the colon, and the position behind it |
| `KeyMessage.ReadHead` | lib/perf/perftest_communication.c:366-400 | the six leading fields, in order |
| `KeyMessage.ReadGid` | lib/perf/perftest_communication.c:402-409 | the first fifteen GID bytes, truncated to a byte each |
| `KeyMessage.ReadKeysGid` | lib/perf/perftest_communication.c:331-426 | the whole reader agrees with its specification, special step from the last GID byte included |
| `KeyMessage.ReadsBackField` | lib/perf/perftest_communication.c:288-426 | each field written is the field read at its place |
| `KeyMessage.RoundTripGid` | lib/perf/perftest_communication.c:288-426 | every message written with a GID is read back in full |
| `KeyMessage.RoundTrip` | lib/perf/perftest_communication.c:288-426 | every message written without one is too, each value in the field it came from |
| `VersionCompare.TableIsRule` | lib/perf/perftest_communication.c:63-76 | every table index is in range, and what the result table decides |
| `VersionCompare.FirstDifference` | lib/perf/perftest_communication.c:81-92 | the first loop stops at the end of the common prefix, in the state of that prefix, with no pointer past a terminator |
| `VersionCompare.CompareLengths` | lib/perf/perftest_communication.c:101-106 | the longer run of digits wins, the difference decides between equal ones |
| `VersionCompare.Strverscmp` | lib/perf/perftest_communication.c:43-111 | the loops and tables compute the specified comparison |
| `VersionCompare.StateMeaning` | lib/perf/perftest_communication.c:54-61 | the state is the kind of number the prefix ends in: none, one with a leading non-zero digit, zeroes, or more behind zeroes |
| `VersionCompare.ZeroIffEqual` | lib/perf/perftest_communication.c:39-44 | zero exactly for equal strings |
| `VersionCompare.Antisymmetric` | lib/perf/perftest_communication.c:39-44 | exchanging the strings changes the sign |
| `VersionCompare.NumericOrder` | lib/perf/perftest_communication.c:39-44 | behind equal prefixes that end in no digit, unequal decimal numerals without leading zeroes are ordered by value |
| `VersionCompare.MoreZeroesIsLess` | lib/perf/perftest_communication.c:54-76 | of two numbers behind equal prefixes the one with more leading zeroes is less |
| `VersionCompare.BehindZeroes` | lib/perf/perftest_communication.c:54-76 | behind equally many leading zeroes the first difference decides, unless it lies further on, neither digit is zero and the lengths differ: then the length does |
| `VersionCompare.NumberEnds` | lib/perf/perftest_communication.c:54-76 | a number of zeroes only is greater than one that goes on; any other that ends first is compared by the byte behind it |
| `VersionCompare.FractionsInOrderIff` | lib/perf/perftest_communication.c:28-29 | such numbers are ordered as fractions, except exactly where the lesser one is longer and its digit, further on, is not zero |
| `VersionCompare.FractionOutOfOrder` | lib/perf/perftest_communication.c:28-29 | 0115 comes behind 012 |
| `VersionCompare.NonDigitsByByte` | lib/perf/perftest_communication.c:63-76 | bytes that are no digits are ordered as bytes |
| `VersionCompare.OutsideNumbersByByte` | lib/perf/perftest_communication.c:63-76 | so are a digit and another byte where no number has begun |
| `IpChecksum.OnesSumIsReducedSum` | lib/perf/raw_ethernet_resources.c:108-115 | bringing carries back at once or at the end gives the same sum |
| `IpChecksum.FoldKeeps` | lib/perf/raw_ethernet_resources.c:110-115 | a fold keeps what the accumulator stands for and makes it smaller |
| `IpChecksum.SumWords` | lib/perf/raw_ethernet_resources.c:105-113 | the first loop ends, stays below 2^32, and stands for the ones' complement sum of the words |
| `IpChecksum.FoldDown` | lib/perf/raw_ethernet_resources.c:114-115 | the second loop ends with the 16-bit representative of the sum |
| `IpChecksum.ComputeChecksum` | lib/perf/raw_ethernet_resources.c:103-118 | together they give the complement of the ones' complement sum |
| `IpChecksum.AgreesWithPaddingIff` | lib/perf/raw_ethernet_resources.c:103-118 | agreement with section 1 of RFC 1071 on odd lengths exactly if the last byte is zero |
| `IpChecksum.StoredChecksumVerifies` | lib/perf/raw_ethernet_resources.c:164 | data with its checksum stored in a zeroed field checks to zero |
| `IpChecksum.ByteOrderIndependent` | lib/perf/raw_ethernet_resources.c:103-118 | the sum is the same in either byte order, its own bytes swapped |
| `IpChecksum.GenIpv4Header` | lib/perf/raw_ethernet_resources.c:147-167 | every byte of every field of the header written is stated; it checks to zero in either byte order, and nothing behind it changes |

## Left out

- `LinkBufThreads.NextInv`: no weaker memory order than sequential consistency; moving a ring, `set_tail` and `clear_links` are not modelled, and the thread that advances the tail is alone.
- `CreditFlow.FlowStepInv`: one queue pair, `recv_post_list == 1`, no shared receive queue, and both sides with the same `rx_depth` of at least three and the same `iters`; with longer receive lists reposting lags and the claim fails.
- `BiRun.RunInv`: one queue pair, and both sides with the same `iters` and `rx_depth`; data sends and credit writes of one send queue may complete in any relative order, and completions show when the hardware likes.
- `BiProgress.StuckRunHasFinishedIff`: only for parameters under which no side can hang; under the others some runs hang, and of the rest nothing is claimed.
- `CreditServer.Server.MakeRoom`: the hardware acts in a finite list of rounds; the method says so when they run out before there is room.
- `Recorder.RunIterBw`: what the peer and the hardware do comes as a finite list of rounds, in each of which any number of completions may be offered where the code asks for at most sixteen; of those offered the hardware delivers what it has. Time stamps are readings of a counter given as a parameter.
- `RunSchedules.FairRunsEnd`: nothing is claimed of fair runs of parameters under which some run spins for ever.
- `Parameters.Parameters.ForceDependencies`: only the ITERATIONS run's queue depths, list size and moderation; mac forwarding and all other options and their refusals are left out.
- `CyclicBuffers.AccessInRegion`: one flow and all queue pairs in one memory region; addresses are unbounded numbers.
- `MemoryManager.PinnedFixMemory.GetPinnedMr`: yields the block instead of its memory region handle; registration is not modelled.
- `ConnectionRuns.ClientConnects`: event sequences in which a connection is established after its route is resolved and lost after it is established, each once; the retry after all ids are destroyed is left out.
- `ConnectionManager.ConnectionManager.Dispatch`: queue pair creation, datagram handshakes and the calls into the RDMA library are success or failure, as each report says.
- `KeyMessage.ReadKeysGid`: a missing colon, on which the source follows a null pointer, is no result; white space, signs, `0x` prefixes and values beyond the width of `strtol` are read by the C library in ways not modelled.
- `KeyMessage.RoundTrip`: the reader's scan of a field stops at the first character that is no digit, as on messages this program writes.
- `VersionCompare.Strverscmp`: whether the two arguments are one and the same string in memory is a parameter.
- `IpChecksum.GenIpv4Header`: the IPv6 header, UDP and TCP headers; `tot_len` and the other fields are stored as a little-endian host stores them.
- Runs limited by duration, rate limits, warm-up, burst latency, several flows, DC and XRC pairing in `ctx_connect`, and the error returns of polling and posting.
- Verbs, sockets, CUDA, command-line parsing and report printing; `src/rdma_com.cc`, `src/env_basic.cc` and `src/tc_pro.cc` would add only easy members.
