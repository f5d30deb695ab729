# Verified models of XRT core components

This project models seven components of the Xilinx Runtime (XRT) core and proves what they are for,
over every input, every run or every reachable state.

- **XGQ**, the shared-memory queue between a client and a server (`XgqRing`, `XgqProtocol`, `XgqNet`,
  `XgqSetup`, `XgqAlloc`, `XgqGroup`, `XgqApi`, `XgqOutOfOrder`). Rings are modelled over one flat memory of
  32-bit words. What a call returns and writes depends on the 32-bit words alone; unbounded counters and histories
  are recorded beside them and decide only which slots a well-behaved producer may fill. From layout through attach
  to delivery the theorems connect: `GroupIsFresh` and `AllocatedQueueIsFresh` establish the premise of
  `RunDeliversInOrder`, and `SendPublishes` says what it is that is delivered. `XgqOutOfOrder` is the variant for
  platforms on which the doorbell overtakes the slot contents; `AllocatedQueueFlagsClear` meets its premise.
- **The task queue** with its workers (`TaskQueue`): mutex, condition variable and stop flag, with every critical
  section one step, and spurious wakeups allowed.
- **The circular log dumper** (`BufferDumper`): polls of a device ring, overrun recovery, binary files and the walk
  of the text parser, over whole runs in both formats.
- **AIE tile status** (`AieTiles`): three strided parsers over one buffer, and the bitmap of active columns.
- **Device memory access across banks** (`MemAccess`).
- **xclbin metadata**: merging of kernel arguments (`KernelArgs`), and order, encoding and indices of compute
  units (`ComputeUnits`), both over `Sorting`.
- **The buffer object pool** (`BoCache`), for any number of threads.

`Bits` holds 32-bit arithmetic, powers of two and bitwise operations, `Results` the outcome of what can fail. Methods
and classes follow the code step by step and are tied to functions and to steps of the state machines; the lemmas are
about those functions and machines.
`dafny verify dfyconfig.toml` checks the project.

## Where the code and its description differ

- The overrun branch of the dumper compares lap numbers, so it also fires when a poll merely crosses a lap boundary
  without loss. Old bytes are then written again, and the warning reports a loss that wrapped below zero.
  `RepeatsWithoutLoss` shows it; `WindowExact` and `ReportedLossExact` say exactly when.
- `xgq_alloc_num_slots` sums lengths in 32 bits, so it can promise slots that do not fit: `NumSlotsCanWrap` for a
  small region, `NumSlotsOverrunsLargeRegion` for one of 5 GB, and for every region of 4 GB or more the loop simply
  runs out. `NumSlotsExact` gives the exact condition.
- A server may force in-memory producer pointers on a queue set up with registers. `xgq_attach` accepts that, and the
  two sides then look for the pointers in different places (`SameGeometry`, `AttachAfterInit`).
- Compute unit addresses carry control and contexts in their low byte. Control and contexts come back only for
  three-bit control values, and the address only if it is 256-byte aligned (`DecodesBack`, `ClearedIsBase`;
  `WideControlIsLost` and `UnalignedBaseIsLost` show units that are lost).
- Overlapping memory banks are accepted and lose data (`OverlapLosesData`, `RoundTripExactly`). A read of size 0 is
  meant to return all that is available and fills a buffer of no size instead (`DeviceMemRead`).
- A device count that goes down makes the dumper ask for far more than the ring holds (`OutOfRangeIff`).
- `xgq_attach` reads through the io handle already in the struct and never records the header address.
- The zeroing of header fields in `xgq_init` names two of them twice and two not at all; all four are zero anyway,
  because the header starts zeroed.

## Model

| member | source | states |
|---|---|---|
| `XgqRing.SlotPtrFindsSlot` | src/runtime_src/core/include/xgq_impl.h:293-313 | the masked counter times the slot size, all in 32 bits, is the slot of the unbounded counter, for every counter value and across wraps |
| `XgqRing.MaskFindsIndex` | src/runtime_src/core/include/xgq_impl.h:301 | with a power-of-two slot count, masking the wrapped counter is the unbounded counter modulo the slot count |
| `XgqRing.SlotInside` | src/runtime_src/core/include/xgq_impl.h:293-313 | every slot lies inside its own ring, whatever the counter |
| `XgqRing.SlotsDisjoint` | src/runtime_src/core/include/xgq_impl.h:293-313 | two entries less than a ring apart share no byte |
| `XgqProtocol.CanProduceExact` | src/runtime_src/core/include/xgq_impl.h:315-327 | the cached fast path of the producer answers exactly whether the consumed counter the peer has published leaves room, the same as always reading it |
| `XgqProtocol.CanConsumeExact` | src/runtime_src/core/include/xgq_impl.h:329-341 | the cached fast path of the consumer answers exactly whether an entry is published and not yet consumed |
| `XgqProtocol.ProducedSlotIsFree` | src/runtime_src/core/include/xgq_impl.h:550-563 | the slot handed to the producer lies in the ring and shares no byte with any entry the consumer has not released |
| `XgqProtocol.ProduceKeeps` | src/runtime_src/core/include/xgq_impl.h:550-563 | xgq_produce keeps the invariant: the chain of six counters, their 32-bit mirrors, and the published entries standing in their slots |
| `XgqProtocol.ProduceAdvances` | src/runtime_src/core/include/xgq_impl.h:550-563 | xgq_produce hands out the slot of the next counter value if and only if fewer than a ring of slots is unreleased, and only then moves on |
| `XgqProtocol.FillKeeps` | src/runtime_src/core/include/xgq_impl.h:435-445 | writing words of a slot that was handed out and not published keeps the invariant |
| `XgqProtocol.FillWrites` | src/runtime_src/core/include/xgq_impl.h:435-445 | filling a word changes exactly that word of that entry, among all entries published or handed out |
| `XgqProtocol.NotifyProducedKeeps` | src/runtime_src/core/include/xgq_impl.h:594-602 | xgq_notify_peer_produced keeps the invariant, in particular that everything published stands in its slot |
| `XgqProtocol.NotifyProducedPublishes` | src/runtime_src/core/include/xgq_impl.h:594-602 | xgq_notify_peer_produced appends to what was published, in order, what stands in every slot handed out since the last time |
| `XgqProtocol.NotifyProducedShows` | src/runtime_src/core/include/xgq_impl.h:594-602 | afterwards the produced word reads the counter of the producer, and a consume finds an entry if and only if one handed out is not yet consumed |
| `XgqProtocol.SendPublishes` | src/runtime_src/core/include/xgq_impl.h:435-445 | with room and nothing unpublished, produce, fill with any words, notify: that entry, word for word, is published behind all earlier ones |
| `XgqProtocol.ConsumedIsNext` | src/runtime_src/core/include/xgq_impl.h:565-592 | the slot handed to the consumer holds the next published entry |
| `XgqProtocol.ConsumeDelivers` | src/runtime_src/core/include/xgq_impl.h:565-592 | consuming extends what was delivered by the next published entry, or by nothing |
| `XgqProtocol.ConsumeKeeps` | src/runtime_src/core/include/xgq_impl.h:565-592 | xgq_consume keeps the invariant |
| `XgqProtocol.ConsumeAdvances` | src/runtime_src/core/include/xgq_impl.h:565-592 | xgq_consume hands over the next published entry if and only if there is one, and only then moves on |
| `XgqProtocol.NotifyConsumedKeeps` | src/runtime_src/core/include/xgq_impl.h:604-611 | xgq_notify_peer_consumed keeps the invariant; what it does is NotifyConsumedReleases |
| `XgqProtocol.NotifyConsumedReleases` | src/runtime_src/core/include/xgq_impl.h:604-611 | xgq_notify_peer_consumed makes the consumed word read the counter of the consumer; a produce then finds a slot if and only if the entries not yet consumed do not fill the ring |
| `XgqProtocol.FastForwardKeeps` | src/runtime_src/core/include/xgq_impl.h:343-350 | re-attaching keeps the invariant at any moment, with entries consumed or produced and not notified or without |
| `XgqProtocol.ConsumerResumes` | src/runtime_src/core/include/xgq_impl.h:343-350 | a consumer that re-attaches at any moment is handed the first entry not notified as consumed, if and only if there is one |
| `XgqProtocol.ProducerResumes` | src/runtime_src/core/include/xgq_impl.h:343-350 | a producer that re-attaches at any moment is handed the first slot not notified as produced, if and only if there is room |
| `XgqProtocol.StepKeeps` | src/runtime_src/core/include/xgq_impl.h:315-350 | every call keeps the invariant and writes only addresses its ring owns |
| `XgqNet.NetStepKeeps` | src/runtime_src/core/include/xgq_impl.h:550-611 | with any number of rings over one memory, a step on one ring keeps the invariant of all |
| `XgqNet.FreshIsSafe` | src/runtime_src/core/include/xgq_impl.h:346-350 | rings just set up, at any starting counter, satisfy the invariant |
| `XgqNet.RunDeliversInOrder` | src/runtime_src/core/include/xgq_impl.h:550-611 | in every interleaving of every length: delivered entries are a prefix of published ones; an entry is handed out exactly when one is outstanding; a slot exactly when fewer than a ring is unreleased; entries held still read as published |
| `XgqNet.RunExtends` | src/runtime_src/core/include/xgq_impl.h:550-611 | over every run nothing published changes or disappears; what was released is never handed out again, and nothing at all is unless the consumer re-attaches |
| `XgqNet.ConsumeOne` | src/runtime_src/core/include/xgq_impl.h:565-592 | with an entry outstanding, one call delivers one more |
| `XgqNet.DrainDeliversAll` | src/runtime_src/core/include/xgq_impl.h:565-592 | nothing published is lost: as many calls as entries are outstanding deliver all of them |
| `XgqSetup.InitSteps` | src/runtime_src/core/include/xgq_impl.h:376-413 | the fourteen header writes of xgq_init in the groups the code makes them |
| `XgqSetup.AttachWaitsForInit` | src/runtime_src/core/include/xgq_impl.h:363-414 | at every point after the first header write and before the last, xgq_attach returns EAGAIN |
| `XgqSetup.InitHeader` | src/runtime_src/core/include/xgq_impl.h:395-413 | the eleven header words a finished xgq_init leaves |
| `XgqSetup.InitFrame` | src/runtime_src/core/include/xgq_impl.h:363-414 | xgq_init changes nothing outside its header and the interrupt register |
| `XgqSetup.InitRingsEmpty` | src/runtime_src/core/include/xgq_impl.h:356-361 | after the soft resets both rings are empty, in register and in-memory producer modes |
| `XgqSetup.MergedModes` | src/runtime_src/core/include/xgq_impl.h:521-524 | the server ends up with a mode exactly if it asked for it or the header carries it |
| `XgqSetup.MergedBit` | src/runtime_src/core/include/xgq_impl.h:521-524 | bit by bit, the merged flags are those of the server and, of those in the header, only the two modes |
| `XgqSetup.HeaderDescribes` | src/runtime_src/core/include/xgq_impl.h:526-543 | the header words describe the slot addresses, counts and sizes they were written for |
| `XgqSetup.HeaderDecodes` | src/runtime_src/core/include/xgq_impl.h:501-548 | whatever modes the server asks for, a finished header is accepted exactly when its slot count is a power of two of at least two, and refused with EPROTO otherwise |
| `XgqSetup.SameGeometry` | src/runtime_src/core/include/xgq_impl.h:521-535 | client and server look for the producer pointers in the same places if and only if the server does not force in-memory pointers on a register queue |
| `XgqSetup.AttachAfterInit` | src/runtime_src/core/include/xgq_impl.h:501-548 | after xgq_init, xgq_attach succeeds if and only if the slot count is a power of two of at least two; its rings are where those of the client are if and only if the modes agree, and then they are the same, counters included, both empty |
| `XgqSetup.AttachAnswers` | src/runtime_src/core/include/xgq_impl.h:508-519 | for any memory: EAGAIN if and only if the magic number is missing, EOPNOTSUPP if and only if it is there and the major version is not 1, whatever the minor, EPROTO if and only if both are right and the slot count is not a power of two of at least two, success otherwise |
| `XgqSetup.AttachedRings` | src/runtime_src/core/include/xgq_impl.h:521-547 | for any accepted header: both rings are where its words say, at their byte offsets, with the counters shared memory holds |
| `XgqSetup.AttachEnables` | src/runtime_src/core/include/xgq_impl.h:526-535 | all that xgq_attach writes is a 1 into the enable register behind the submission pointer, in register mode only |
| `XgqSetup.InitPublishes` | src/runtime_src/core/include/xgq_impl.h:377-413 | after xgq_init the header words read magic, version, slot count, offsets, slot size and flags at their byte offsets, and in register mode the enable register behind the completion pointer reads 1 |
| `XgqAlloc.AllocNumSlots` | src/runtime_src/core/include/xgq_impl.h:416-430 | the doubling loop, with its 32-bit running total, computes NumSlots and terminates |
| `XgqAlloc.NumSlotsExact` | src/runtime_src/core/include/xgq_impl.h:416-430 | for regions of any size, the result is the largest power of two that fits, or 1, if and only if the first total that does not fit is not hidden by 32-bit wrap, or that power is the last the loop can give |
| `XgqAlloc.NumSlotsLargest` | src/runtime_src/core/include/xgq_impl.h:416-430 | for regions below 2 GB and two-slot totals that fit 32 bits the result is always the largest that fits |
| `XgqAlloc.NumSlotsCanWrap` | src/runtime_src/core/include/xgq_impl.h:424-428 | outside those bounds two slots are promised that do not fit |
| `XgqAlloc.NumSlotsOverrunsLargeRegion` | src/runtime_src/core/include/xgq_impl.h:424-428 | a region of 5 GB is promised 20 GB of slots |
| `XgqGroup.Layout` | src/runtime_src/core/include/xgq_impl.h:492-497 | the queues of a group follow one another without overlap and end where the total length says |
| `XgqGroup.GroupFlagsBits` | src/runtime_src/core/include/xgq_impl.h:478-479 | bit by bit, the flags of a group are those given, with in-memory pointers switched on |
| `XgqGroup.GroupIntact` | src/runtime_src/core/include/xgq_impl.h:492-495 | initialising the later queues leaves every earlier one with its header and empty rings |
| `XgqGroup.AttachToGroup` | src/runtime_src/core/include/xgq_impl.h:469-548 | a server attaching to any queue of a group gets exactly that queue, if and only if the slot count is a power of two of at least two |
| `XgqGroup.QueueRingsApart` | src/runtime_src/core/include/xgq_impl.h:387-393 | the two rings of a queue share no address, in either producer mode |
| `XgqGroup.AllocatedQueueIsFresh` | src/runtime_src/core/include/xgq_impl.h:447-548 | client and server of an allocated and attached queue form a fresh pair of rings, so that every run delivers in order, if and only if their modes agree |
| `XgqGroup.AllocatedQueueFlagsClear` | src/runtime_src/core/include/xgq_impl.h:447-548 | an allocated and attached queue meets the premise of NeverStale on both rings if and only if the modes agree, entries have a first word, and no slot of the memory given carries a flag in it |
| `XgqGroup.GroupRingsApart` | src/runtime_src/core/include/xgq_impl.h:469-499 | any two rings of a group share no address |
| `XgqGroup.GroupIsFresh` | src/runtime_src/core/include/xgq_impl.h:469-499 | a laid-out group has the smaller of what fits and a non-zero cap of slots, stays in its region, and is a fresh net with two rings per queue, pairwise apart, when such a cap is a power of two of at least two |
| `XgqApi.Io.CopyToRing` | src/runtime_src/core/include/xgq_impl.h:213-220 | the copy loop writes the words in order to consecutive addresses |
| `XgqApi.Io.CopyFromRing` | src/runtime_src/core/include/xgq_impl.h:222-229 | the copy loop reads the words in order from consecutive addresses |
| `XgqApi.Xgq.CanProduce` | src/runtime_src/core/include/xgq_impl.h:315-327 | updates the outgoing ring as the cached check does and leaves the incoming one |
| `XgqApi.Xgq.CanConsume` | src/runtime_src/core/include/xgq_impl.h:329-341 | updates the incoming ring as the cached check does and leaves the outgoing one |
| `XgqApi.Xgq.ProduceCall` | src/runtime_src/core/include/xgq_impl.h:550-563 | returns the slot and new state of Produce, or ENOSPC, on the submission ring for a client and the completion ring for a server; the other ring is left alone |
| `XgqApi.Xgq.ConsumeCall` | src/runtime_src/core/include/xgq_impl.h:565-592 | returns the slot and new state of Consume, or ENOENT, on the completion ring for a client and the submission ring for a server; the other ring is left alone |
| `XgqApi.Xgq.NotifyPeerProduced` | src/runtime_src/core/include/xgq_impl.h:594-602 | the produced word of the ring this side produces on becomes its counter, and nothing else changes |
| `XgqApi.Xgq.NotifyPeerConsumed` | src/runtime_src/core/include/xgq_impl.h:604-611 | the consumed word of the ring this side consumes from becomes its counter, and nothing else changes |
| `XgqApi.Xgq.ResetRing` | src/runtime_src/core/include/xgq_impl.h:356-361 | soft reset: consumed becomes produced, in the copy and in shared memory |
| `XgqApi.Xgq.SetUpRings` | src/runtime_src/core/include/xgq_impl.h:370-393 | the software copies of both rings and, for register pointers, the interrupt enable |
| `XgqApi.Xgq.Init` | src/runtime_src/core/include/xgq_impl.h:363-414 | leaves shared memory and the queue object exactly as InitMemory and InitQueue say |
| `XgqApi.Xgq.AttachRings` | src/runtime_src/core/include/xgq_impl.h:521-547 | builds both rings from an accepted header; the header address is not recorded |
| `XgqApi.Xgq.AttachCall` | src/runtime_src/core/include/xgq_impl.h:501-548 | returns the code and state of Attach in all four cases; refusals change nothing |
| `XgqApi.Xgq.Alloc` | src/runtime_src/core/include/xgq_impl.h:447-464 | EINVAL, E2BIG or an initialised queue, with the length used |
| `XgqApi.InitGroup` | src/runtime_src/core/include/xgq_impl.h:492-497 | initialises the queues one behind the other |
| `XgqApi.GroupAlloc` | src/runtime_src/core/include/xgq_impl.h:469-499 | EINVAL, E2BIG or all queues initialised at the capped slot count, with the length used |
| `XgqOutOfOrder.WriteKeeps` | src/runtime_src/core/include/xgq_cmd_common.h:149-166 | a slot write in flight keeps the flag discipline: word 0 of an entry last, flagged |
| `XgqOutOfOrder.WriteArrives` | src/runtime_src/core/include/xgq_cmd_common.h:149-166 | a slot write in flight changes, once landed, exactly that word of that entry |
| `XgqOutOfOrder.DoorbellKeeps` | src/runtime_src/core/include/xgq_impl.h:594-602 | a doorbell that overtakes the slot contents keeps the invariant |
| `XgqOutOfOrder.DoorbellPublishes` | src/runtime_src/core/include/xgq_impl.h:594-602 | the doorbell publishes, in order, what will stand in every slot handed out since the last one |
| `XgqOutOfOrder.DoorbellShows` | src/runtime_src/core/include/xgq_impl.h:594-602 | it shows the counter of the producer at once: the pointer check of the consumer passes if and only if an entry handed out is left |
| `XgqOutOfOrder.LandKeeps` | src/runtime_src/core/include/xgq_cmd_common.h:149-166 | a word arriving in memory keeps the invariant |
| `XgqOutOfOrder.LandMoves` | src/runtime_src/core/include/xgq_cmd_common.h:149-166 | landing takes the oldest write out of flight into memory and changes nothing of what will stand in the end |
| `XgqOutOfOrder.FlaggedEntryIsNext` | src/runtime_src/core/include/xgq_impl.h:581-589 | once its flag shows, the slot holds the whole next published entry |
| `XgqOutOfOrder.TakeDelivers` | src/runtime_src/core/include/xgq_impl.h:565-592 | taking a flagged entry gives the caller the next published one, whole, its flag cleared |
| `XgqOutOfOrder.TakeHolds` | src/runtime_src/core/include/xgq_impl.h:586-588 | what was taken and not yet released stands in its slots as the caller was given it, the entry just taken included |
| `XgqOutOfOrder.TakeKeeps` | src/runtime_src/core/include/xgq_impl.h:565-592 | taking an entry and clearing its flag keeps the invariant, the slot reading unflagged for the next lap |
| `XgqOutOfOrder.SpinKeeps` | src/runtime_src/core/include/xgq_impl.h:586-587 | spinning on an unflagged slot changes nothing but the cached pointer |
| `XgqOutOfOrder.ReleaseKeeps` | src/runtime_src/core/include/xgq_impl.h:604-611 | notifying consumption keeps the invariant; what it does is ReleaseFrees |
| `XgqOutOfOrder.ReleaseFrees` | src/runtime_src/core/include/xgq_impl.h:604-611 | notifying consumption makes the consumed word read the counter of the consumer and gives the producer back every slot consumed |
| `XgqOutOfOrder.StepKeeps` | src/runtime_src/core/include/xgq_impl.h:565-592 | every step of either side, and of memory, keeps the invariant |
| `XgqOutOfOrder.NeverStale` | src/runtime_src/core/include/xgq_impl.h:565-592 | in every run from cleared flags what callers were given is a prefix of what was published, flags cleared: nothing stale, torn or repeated; and until it is released every entry taken still reads so in its slot |
| `XgqOutOfOrder.SpinEnds` | src/runtime_src/core/include/xgq_impl.h:586-587 | once what is in flight lands, the spinning consumer takes the next published entry |
| `TaskQueue.MpmcQueue.AddWork` | src/runtime_src/core/common/task.h:130-143 | is the AddWork step of the state machine, notification included, and keeps its invariant |
| `TaskQueue.MpmcQueue.GetWork` | src/runtime_src/core/common/task.h:145-162 | is the Get step and keeps the invariant: the worker blocks if and only if the queue is open and empty; otherwise it leaves with the first task, or after stop with an invalid one, taking nothing |
| `TaskQueue.MpmcQueue.Stop` | src/runtime_src/core/common/task.h:171-179 | is the Stop step and keeps the invariant: the queue is stopped, keeps its tasks, and nobody waits afterwards |
| `TaskQueue.AddKeeps` | src/runtime_src/core/common/task.h:130-143 | adding work and waking one waiter keeps the invariant |
| `TaskQueue.GetKeeps` | src/runtime_src/core/common/task.h:145-162 | taking the mutex in getWork keeps the invariant, blocked, refused or given a task |
| `TaskQueue.StepKeeps` | src/runtime_src/core/common/task.h:130-179 | every step, spurious wakeups included, keeps the invariant |
| `TaskQueue.NoLostWakeup` | src/runtime_src/core/common/task.h:130-179 | in every run: added tasks are delivered ones followed by queued ones, in order; while open and someone waits, no more tasks are queued than workers are woken for; queued work never sits while all sleep; after stop nobody waits; with valid tasks only, workers exit only after stop |
| `TaskQueue.StopFreezes` | src/runtime_src/core/common/task.h:171-179 | from stop on nothing more is delivered, in every continuation |
| `TaskQueue.RunAdds` | src/runtime_src/core/common/task.h:130-143 | over every run the tasks counted as added are those of its addWork steps, in order |
| `TaskQueue.RunStarts` | src/runtime_src/core/common/task.h:145-162 | over every run the valid tasks counted as delivered are those workers start running, in order |
| `TaskQueue.RunStops` | src/runtime_src/core/common/task.h:171-179 | a queue is stopped if and only if the run contains a stop |
| `TaskQueue.WorkersRunInOrder` | src/runtime_src/core/common/task.h:130-179 | over every run the valid tasks its addWork steps add are, in order, those workers start followed by those still queued; stopped if and only if the run contains a stop |
| `TaskQueue.StoppedStartsNothing` | src/runtime_src/core/common/task.h:153-157 | after a stop no worker starts a task |
| `TaskQueue.DeliverOne` | src/runtime_src/core/common/task.h:372-381 | an awake worker needs at most two steps of its own to take the first queued task |
| `TaskQueue.QueueDrains` | src/runtime_src/core/common/task.h:372-381 | from every reachable open state the workers can deliver all that is queued |
| `TaskQueue.ExitOne` | src/runtime_src/core/common/task.h:372-381 | after stop any worker is out within two steps of its own |
| `TaskQueue.ShutdownCompletes` | src/runtime_src/core/common/task.h:372-381 | after stop every worker can get out, in at most two steps each |
| `TaskQueue.StopEndsAll` | src/runtime_src/core/common/task.h:171-179 | after any run that contains a stop every worker can get out, in at most two steps each, starting nothing more |
| `BufferDumper.WindowExact` | src/runtime_src/core/common/buffer_dumper.cpp:294-306 | a poll covers every new byte that survives, leaves out exactly the overwritten ones, and repeats exactly D - (L - d) old bytes if and only if a lap boundary was crossed without loss |
| `BufferDumper.RepeatsWithoutLoss` | src/runtime_src/core/common/buffer_dumper.cpp:299-306 | a concrete poll that repeats bytes although none was lost |
| `BufferDumper.ReportedLossExact` | src/runtime_src/core/common/buffer_dumper.cpp:300-304 | the number of lost bytes in the overrun message is right if and only if a full ring or more was logged since the last poll |
| `BufferDumper.CountOfLittleEndian` | src/runtime_src/core/common/buffer_dumper.cpp:87-92 | the count read from the bytes of a number, least first, is that number, if it fits them |
| `BufferDumper.LittleEndianOfCount` | src/runtime_src/core/common/buffer_dumper.cpp:87-92 | and the bytes are those of the count read, so every byte counts |
| `BufferDumper.ReadRingIsStream` | src/runtime_src/core/common/buffer_dumper.cpp:116-138 | the one or two segments read across the wrap are the logged stream from the start position |
| `BufferDumper.PollAdvances` | src/runtime_src/core/common/buffer_dumper.cpp:291-326 | one poll puts new metadata in front, appends its window of the stream, and accounts for everything logged |
| `BufferDumper.OutOfRangeIff` | src/runtime_src/core/common/buffer_dumper.cpp:299-309 | a poll asks for more than the ring holds if and only if the count went down, by less than 2^64 less a ring |
| `BufferDumper.RunFile` | src/runtime_src/core/common/buffer_dumper.cpp:279-328 | over every run of polls a file is the metadata of the last poll that found something, followed by the windows of the stream one after another |
| `BufferDumper.GoneForGood` | src/runtime_src/core/common/buffer_dumper.cpp:299-306 | a byte more than a ring behind is never dumped again |
| `BufferDumper.SurvivorsAreDumped` | src/runtime_src/core/common/buffer_dumper.cpp:279-328 | over every run a byte reaches the file if and only if it survived until the first poll that could see it |
| `BufferDumper.AppearancesExact` | src/runtime_src/core/common/buffer_dumper.cpp:279-328 | over every run each byte reaches the file at most twice: never if overwritten before the first poll that could see it, twice if a later poll crosses the next lap boundary with the byte still in the ring, once otherwise |
| `BufferDumper.SeenBefore` | src/runtime_src/core/common/buffer_dumper.cpp:296-306 | once seen, a byte is dumped again if and only if the next poll to cross a lap boundary still finds it in the ring |
| `BufferDumper.EntryOffsets` | src/runtime_src/core/common/buffer_dumper.cpp:145-203 | the walk of the text parser visits exactly length / 32 entries, at the offsets EntryOffset gives |
| `BufferDumper.StartsAtEntry` | src/runtime_src/core/common/buffer_dumper.cpp:299-306 | with whole entries logged, a poll starts at an entry, repositioned or not |
| `BufferDumper.EntryIsStream` | src/runtime_src/core/common/buffer_dumper.cpp:153-160 | entry j is read whole from inside the chunk, never across the wrap, and is the j-th entry of the stream from the start of the poll |
| `BufferDumper.EntriesAreStream` | src/runtime_src/core/common/buffer_dumper.cpp:153-203 | the entries of a window, one after another, are the stream from the start of the poll |
| `BufferDumper.RunTextEntries` | src/runtime_src/core/common/buffer_dumper.cpp:256-328 | over every run in text format the entries parsed, one after another, are the windows of the logged stream |
| `BufferDumper.ParseEntries` | src/runtime_src/core/common/buffer_dumper.cpp:153-203 | the parser loop copies exactly the entries of the window, in order |
| `BufferDumper.Dumper.Sync` | src/runtime_src/core/common/buffer_dumper.cpp:313-322 | brings one range of the device buffer to the host and nothing else |
| `BufferDumper.Dumper.ReadRanges` | src/runtime_src/core/common/buffer_dumper.cpp:308-322 | synchronises one or two ranges, which suffice for the bytes to dump |
| `BufferDumper.Dumper.ReadCount` | src/runtime_src/core/common/buffer_dumper.cpp:291-294 | synchronising the metadata alone suffices to read the count that CountOfLittleEndian is about |
| `BufferDumper.Dumper.Record` | src/runtime_src/core/common/buffer_dumper.cpp:104-143 | rewrites the metadata in place and appends the payload, for one chunk only |
| `BufferDumper.ChunksAreBuffer` | src/runtime_src/core/common/buffer_dumper.cpp:283-287 | the chunks processed are, one after another, the whole device buffer |
| `BufferDumper.Dumper.ProcessChunk` | src/runtime_src/core/common/buffer_dumper.cpp:286-327 | one chunk ends up as Poll says, whatever its count, or the poll stops before leaving the ring; the others are left alone |
| `BufferDumper.Dumper.ProcessChunks` | src/runtime_src/core/common/buffer_dumper.cpp:279-328 | every chunk ends up as Poll says, up to the first whose count leads out of the ring |
| `AieTiles.CoreRoundTrip` | src/runtime_src/core/common/info_aie2.cpp:519-559 | wherever the bytes of a core tile stand in the buffer, all its fields are read back |
| `AieTiles.TileRoundTrip` | src/runtime_src/core/common/info_aie2.cpp:614-629 | wherever the bytes of a mem or shim tile stand in the buffer, all its fields are read back |
| `AieTiles.StrideIsColumn` | src/runtime_src/core/common/info_aie2.cpp:721-723 | whichever kind is read, skips and tiles add up to one column |
| `AieTiles.ParseCoreTile` | src/runtime_src/core/common/info_aie2.cpp:519-559 | the copies of one core tile, field by field with the cursor moving past each, read the tile at the cursor, inside the buffer |
| `AieTiles.ParseTile` | src/runtime_src/core/common/info_aie2.cpp:614-629 | the copies of one mem or shim tile, field by field, read the tile at the cursor, inside the buffer |
| `AieTiles.ParseRows` | src/runtime_src/core/common/info_aie2.cpp:614-629 | the row loop reads consecutive tiles and leaves the cursor behind them |
| `AieTiles.ParseColumns` | src/runtime_src/core/common/info_aie2.cpp:606-634 | the column loop reads, per column, the tiles of one kind, all inside the buffer |
| `AieTiles.EveryRoundTrip` | src/runtime_src/core/common/info_aie2.cpp:503-512 | parts of one size laid end to end are read back in order, rows in a column and columns in a buffer alike |
| `AieTiles.ColumnRoundTrip` | src/runtime_src/core/common/info_aie2.cpp:503-512 | wherever the bytes of a column stand, its tiles of any kind are read back |
| `AieTiles.ParsersRecover` | src/runtime_src/core/common/info_aie2.cpp:513-689 | for every geometry and number of columns, each of the three parsers recovers exactly the tiles of its kind, field by field |
| `AieTiles.RankIsPopCount` | src/runtime_src/core/common/info_aie2.cpp:753-761 | with no bits beyond the columns, the active columns counted in order are all the set bits |
| `AieTiles.RankInRange` | src/runtime_src/core/common/info_aie2.cpp:795-830 | every active column has an entry |
| `AieTiles.CountActive` | src/runtime_src/core/common/info_aie2.cpp:753-761 | the allocation loop makes one entry per set bit |
| `AieTiles.GetAieData` | src/runtime_src/core/common/info_aie2.cpp:715-785 | each refusal in its order, otherwise the parsed tiles of every active column |
| `AieTiles.FormatColumns` | src/runtime_src/core/common/info_aie2.cpp:795-833 | the display pairs each active column with the entry at its rank, never past the end, and uses every entry |
| `AieTiles.RankFindsColumn` | src/runtime_src/core/common/info_aie2.cpp:795-830 | the entry at the rank of an active column is that column |
| `AieTiles.DisplayShowsDevice` | src/runtime_src/core/common/info_aie2.cpp:736-834 | end to end, what is shown for an active column is what the device has for it, field by field, for each kind of tile |
| `MemAccess.GetDdrBanks` | src/runtime_src/core/common/memaccess.cpp:48-72 | the used, non-streaming banks, each once, in order of address |
| `MemAccess.BanksExactly` | src/runtime_src/core/common/memaccess.cpp:48-72 | the banks ascend by base address, and each stands there as often as used, non-streaming entries with that base and 1024 times that size do |
| `MemAccess.PlanCovers` | src/runtime_src/core/common/memaccess.cpp:150-197 | once the size check passes the chunks cover the whole buffer, so the shortfall exception cannot happen |
| `MemAccess.ChunkInBank` | src/runtime_src/core/common/memaccess.cpp:155-166 | chunk c lies inside the c-th bank from the starting one, begins where the bank does, or at the offset in the first, and unless it is the last goes on to the end of the bank |
| `MemAccess.PlanInjective` | src/runtime_src/core/common/memaccess.cpp:155-166 | over disjoint banks no two bytes of the buffer share an address |
| `MemAccess.ApartIsInjective` | src/runtime_src/core/common/memaccess.cpp:155-166 | chunks that are pairwise disjoint give every byte of the buffer its own address |
| `MemAccess.InjectiveIsApart` | src/runtime_src/core/common/memaccess.cpp:155-166 | chunks that overlap give two bytes of the buffer the same address |
| `MemAccess.WritePlanAt` | src/runtime_src/core/common/memaccess.cpp:155-192 | each byte of the source arrives at its address |
| `MemAccess.WritePlanFrame` | src/runtime_src/core/common/memaccess.cpp:155-192 | no other address changes |
| `MemAccess.RoundTripExactly` | src/runtime_src/core/common/memaccess.cpp:131-198 | writing then reading returns every source if and only if the chunks of the transfer are pairwise disjoint intervals |
| `MemAccess.Locate` | src/runtime_src/core/common/memaccess.cpp:74-143 | the three refusals in their order, otherwise the bank and offset where the transfer starts |
| `MemAccess.TransferStarts` | src/runtime_src/core/common/memaccess.cpp:79-106 | an accepted transfer puts byte 0 at the address asked for, or for 0 at the base of the first bank with a size, and byte i that much further while inside the bank |
| `MemAccess.TransferRefused` | src/runtime_src/core/common/memaccess.cpp:79-106 | refused for want of banks if and only if none has a size, and for its start if and only if it is not 0, some bank has a size and none contains it |
| `MemAccess.TransferTooLarge` | src/runtime_src/core/common/memaccess.cpp:107-143 | refused for its size if and only if it needs more than from the address asked for to the end of the last bank |
| `MemAccess.Device.Write` | src/runtime_src/core/common/memaccess.cpp:150-197 | the loop over the banks carries out the plan, with nothing remaining |
| `MemAccess.Device.ReadOut` | src/runtime_src/core/common/memaccess.cpp:150-197 | the loop over the banks reads out the plan, with nothing remaining |
| `MemAccess.Device.DeviceMemWrite` | src/runtime_src/core/common/memaccess.cpp:222-233 | refuses and changes nothing, or carries out the plan, which TransferStarts places |
| `MemAccess.Device.DeviceMemRead` | src/runtime_src/core/common/memaccess.cpp:204-220 | refuses, or returns the bytes of the plan, which TransferStarts places; a size of 0 asks for all that is available, which the buffer has no room for |
| `MemAccess.TransferInBanks` | src/runtime_src/core/common/memaccess.cpp:48-72 | every chunk lies inside one used, non-streaming bank of the topology |
| `MemAccess.WriteThenRead` | src/runtime_src/core/common/memaccess.cpp:204-233 | over disjoint banks an accepted write reads back, and nothing outside it changes |
| `MemAccess.WriteLands` | src/runtime_src/core/common/memaccess.cpp:222-233 | over disjoint banks byte i of an accepted write stands in memory i bytes behind the address asked for, inside that bank |
| `MemAccess.OverlapLosesData` | src/runtime_src/core/common/memaccess.cpp:131-198 | a topology of two overlapping banks of 1 KB and a source, accepted, that does not read back |
| `KernelArgs.MergeRun` | src/runtime_src/core/common/xclbin_parser.cpp:399-421 | one pass merges a whole run into its first component and erases the others |
| `KernelArgs.MergeRuns` | src/runtime_src/core/common/xclbin_parser.cpp:398-422 | the outer loop merges run by run up to the first argument without an index |
| `KernelArgs.MergeArgs` | src/runtime_src/core/common/xclbin_parser.cpp:395-429 | the merged list, or the mismatch error |
| `KernelArgs.MergeAllCombines` | src/runtime_src/core/common/xclbin_parser.cpp:409-418 | merging component by component adds up sizes and host sizes, takes the least offset, and keeps the rest of the first component |
| `KernelArgs.MinOffsetIsLeast` | src/runtime_src/core/common/xclbin_parser.cpp:417 | the offset is the least of the group, and one of them |
| `KernelArgs.MergeGroups` | src/runtime_src/core/common/xclbin_parser.cpp:395-422 | on a sorted list merging is grouping by index: one argument per index from exactly its components, ascending, arguments without an index untouched at the end |
| `KernelArgs.MergeSucceedsIff` | src/runtime_src/core/common/xclbin_parser.cpp:424-428 | the post condition check passes if and only if the indices have no gaps |
| `KernelArgs.ArgumentsOfDocument` | src/runtime_src/core/common/xclbin_parser.cpp:1088-1093 | for any document order: success if and only if the indices have no gaps, and then argument i combines, in document order, exactly the components with index i |
| `ComputeUnits.PrecedesByKey` | src/runtime_src/core/common/xclbin_parser.cpp:218-231 | the comparator orders by a key, so it is a strict weak order |
| `ComputeUnits.IsLegacyCuIntr` | src/runtime_src/core/common/xclbin_parser.cpp:198-216 | the two counters agree exactly when no compute unit has an interrupt id |
| `ComputeUnits.CusByInterrupt` | src/runtime_src/core/common/xclbin_parser.cpp:602-617 | if some unit has an interrupt id, entry k is the address of unit k in an order of exactly the valid units in which none stands before one of smaller id and free-running ones stand last |
| `ComputeUnits.CusByAddress` | src/runtime_src/core/common/xclbin_parser.cpp:606-622 | if none has, the list is ascending and holds exactly the addresses of the valid units |
| `ComputeUnits.GetCus` | src/runtime_src/core/common/xclbin_parser.cpp:589-623 | the addresses of the valid units, each as often as in the layout: by interrupt id, free-running units last, or by ascending address if no unit has an interrupt id |
| `ComputeUnits.ClearedIsBase` | src/runtime_src/core/common/xclbin_parser.cpp:607-615 | clearing the low byte gives the base address back if and only if it was 256-byte aligned |
| `ComputeUnits.DecodesBack` | src/runtime_src/core/common/xclbin_parser.cpp:607-615 | for an aligned address, control and contexts decode back if and only if the control value has three bits |
| `ComputeUnits.WideControlIsLost` | src/runtime_src/core/common/xclbin_parser.cpp:607-615 | a unit with control value 8, read back as control 0 and one context |
| `ComputeUnits.UnalignedBaseIsLost` | src/runtime_src/core/common/xclbin_parser.cpp:607-615 | a unit at 0x104, whose address is not read back |
| `ComputeUnits.EncodedListMatches` | src/runtime_src/core/common/xclbin_parser.cpp:589-623 | in both orders, the encoded list with low bytes cleared is the plain list, entry by entry |
| `ComputeUnits.GetCuIndices` | src/runtime_src/core/common/xclbin_parser.cpp:554-587 | the map of names to indices, first name kept, 16-bit indices |
| `ComputeUnits.IndexUnits` | src/runtime_src/core/common/xclbin_parser.cpp:564-587 | the loop over the layout computes the map of names to indices |
| `ComputeUnits.IndexPointsAtAddress` | src/runtime_src/core/common/xclbin_parser.cpp:575-577 | the base address of a PL kernel is in the list if and only if it has one |
| `ComputeUnits.IndexMeans` | src/runtime_src/core/common/xclbin_parser.cpp:568-582 | exactly PS kernels and PL kernels with an address get an index: PS kernels domain 1 and the number of PS kernels before them, PL kernels domain 0 and, while the list fits 16 bits, a position at which it holds their base address |
| `ComputeUnits.DistinctIndices` | src/runtime_src/core/common/xclbin_parser.cpp:574-581 | PL kernels with different addresses get different indices while the list fits 16 bits |
| `ComputeUnits.MapHoldsFirst` | src/runtime_src/core/common/xclbin_parser.cpp:583 | under any name the map holds the index of the first unit of that name that has one |
| `ComputeUnits.MapHoldsNone` | src/runtime_src/core/common/xclbin_parser.cpp:583 | and a name none of whose units has an index is not in the map |
| `ComputeUnits.MapHoldsIndices` | src/runtime_src/core/common/xclbin_parser.cpp:564-584 | with distinct names every unit is mapped to its own index, or is absent without one |
| `BoCache.Pool.TakeCached` | src/runtime_src/core/common/bo_cache.h:84-92 | is the Alloc step: hands out the last cached buffer, if caching is on and there is one |
| `BoCache.Pool.CreateBo` | src/runtime_src/core/common/bo_cache.h:94-96 | is the Create step: a new buffer, outside the lock |
| `BoCache.Pool.AllocImpl` | src/runtime_src/core/common/bo_cache.h:81-97 | gives the caller the last cached buffer or a new one, and takes nothing from anyone |
| `BoCache.Pool.KeepIfRoom` | src/runtime_src/core/common/bo_cache.h:102-109 | is the Release step: keeps the buffer if and only if fewer than the maximum are cached |
| `BoCache.Pool.Destroy` | src/runtime_src/core/common/bo_cache.h:113-117 | is the Unmap step: one unmap call for a buffer that was not kept |
| `BoCache.Pool.ReleaseImpl` | src/runtime_src/core/common/bo_cache.h:99-111 | caches the buffer if fewer than the maximum are cached and unmaps it otherwise |
| `BoCache.Pool.Drain` | src/runtime_src/core/common/bo_cache.h:54-63 | is the Close step: one unmap call for every cached buffer, first to last |
| `BoCache.AllocKeeps` | src/runtime_src/core/common/bo_cache.h:81-97 | looking in the pool keeps every buffer in exactly one place |
| `BoCache.ReleaseKeeps` | src/runtime_src/core/common/bo_cache.h:99-111 | releasing keeps every buffer in exactly one place and the pool within its bound |
| `BoCache.StepKeeps` | src/runtime_src/core/common/bo_cache.h:80-117 | every step keeps the invariant, creation and unmapping outside the lock included |
| `BoCache.PoolConserves` | src/runtime_src/core/common/bo_cache.h:80-117 | over every interleaving: the pool stays within its maximum; created minus unmapped is held plus cached plus in flight; each buffer is in one place once, so none is held by two callers and none is unmapped twice |
| `BoCache.CloseUnmapsRest` | src/runtime_src/core/common/bo_cache.h:54-63 | with nothing held, the destructor leaves every buffer ever created unmapped once |
| `BoCache.ReleaseThenAlloc` | src/runtime_src/core/common/bo_cache.h:81-111 | last in, first out: with room, a release and then an alloc give back the same buffer and state |
| `BoCache.AllocCreates` | src/runtime_src/core/common/bo_cache.h:81-97 | with nothing cached, an alloc and its creation hand out a buffer that did not exist before, and change nothing else |
| `BoCache.ReleaseUnmaps` | src/runtime_src/core/common/bo_cache.h:99-117 | without room, a release and its unmap take the buffer out of use, and change nothing else |
| `BoCache.ReleasesFill` | src/runtime_src/core/common/bo_cache.h:99-111 | any number of releases fill the pool up to its maximum, in order, and leave the rest to be unmapped |
| `BoCache.AllocsTake` | src/runtime_src/core/common/bo_cache.h:81-92 | any number of allocs take what is cached from its end, and each beyond that finds nothing |

## Left out

- XgqSetup.AttachAfterInit: takes xgq_attach as one look at memory; a stale magic number read before xgq_init starts is not modelled.
- XgqOutOfOrder.NeverStale: a re-attach between taking and releasing an entry is not a step of this variant; it is one of XgqProtocol.
- XGQ double reads and the BRAM collision workaround: a word is read once and correctly; the retry loop is hardware specific.
- XGQ 64-bit addresses: unbounded, so regions at the very top of the address space are not modelled.
- XGQ command payload layouts: declarations only.
- TaskQueue.NoLostWakeup: wait times, debug output and futures of tasks are not modelled; fairness of the scheduler is not assumed, so progress is stated as reachability by QueueDrains and ShutdownCompletes.
- BufferDumper.Dumper.ProcessChunks: stops at a count that leads out of the ring; what the driver does with the range the code then asks for is not modelled. Runs of polls are over counts that do not go down.
- The dumper's sinks, message formatting, dump thread and file errors; in text format also the object that routes the entries.
- AieTiles.GetAieData: requires fewer than 32 columns, because the code shifts a 32-bit word by the number of columns. The order of the sanity check and the later refusals is that of the call, and version checks are left out.
- AIE property trees and status strings: reporting only.
- MemAccess.Device.DeviceMemRead: what is overwritten behind the buffer of a read of size 0 is not modelled. Driver errors, and sizes whose sum exceeds 64 bits, are not modelled.
- Order of equal elements under std::sort: the order of a stable sort is used for banks of equal base and units of equal interrupt id; no theorem depends on it.
- ComputeUnits.GetCus: the number of contexts a kernel may use is a field in 0..31; parsing it from configuration is not modelled.
- Kernel arguments before sorting: reading the XML document is not modelled, only the list it yields.
- BoCache.PoolConserves: exceptions from creating, mapping or unmapping a buffer are not modelled.
- The rest of the repository: configuration and environment lookup, JSON and XML reports, sensors and query requests, Python bindings, maps from handles to devices, slot sizing in device.cpp, partitions and soft kernels. Most of it formats, looks up or passes on what the driver returns; the device maps and the slot sizing depend on driver code that is not part of this model.
