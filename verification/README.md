# Verification of the dma-accel driver and runtime

This project models the concurrent core of dma-accel in Dafny and proves what it keeps over every run:

- **The kernel driver** (`track-a/dma_accel_drv.c`): sessions, admission, the command table, the two
  hardware rings, completion routing and the buffer table. It is modelled at two grains. The fine grain
  (`DriverCore`, `DriverInvariants`, `DriverGuarantees`) has a step for everything another CPU can
  observe: a submit registers under the lock and is counted later, and the interrupt handler claims,
  delivers and uncounts in three steps. Nothing at that grain relies on the device. The serial grain
  (`SerialDriver`, `SerialInvariants`, `KernelRuns`, `Rings`) adds the rings with their 32-bit
  counters and the device; each of its driver steps is shown to be a run of fine steps.
  `DriverDevice` is the imperative code, with arrays and loops; each call is a step of the serial grain.
- **The userspace Stream** (`track-a/dma_accel_runtime.cpp`) on top of it: `StreamSystem`,
  `StreamInvariants` and `StreamGuarantees` run any number of Streams, the driver and the device
  together; `StreamRuntime` holds the Stream and Fence objects, `CommandGroups` the groups.
- **The dependency engine** (`track-c/runtime/dma_accel_dependency.cpp`): `DependencyGraph`,
  `Dependencies`, `SequentialEquivalence`, `DependencyProgress`.
- **Algorithms**: the zero-padded tiled product (`TiledGemm`), the two round-robin schedulers
  (`Schedulers`) and the buffer pool (`BufferPools`).

The main theorems:

1. Every Fence becomes ready at most once, with the status posted for its own command, and only by a
   pump of the Stream that submitted it (`StreamGuarantees.FenceStep`, `FenceReadyOnce`).
2. Whatever a command in flight may touch lies in memory still allocated to its session; sessions
   never overlap (`DriverInvariants.RunInv`, `DriverGuarantees.SessionsIsolated`).
3. The in-flight counters account for every table entry at every instant, with `15 + P` as bound for
   `P` concurrent submitters; nobody sleeps on the admission queue while it could go on, a refused
   session implies commands in flight, and waiting is bounded (`SleepersAreRefused`,
   `BlockedMeansInFlight`, `AdmittedAfterDrain`).
4. Both rings are the FIFO queues they stand for, also when the 32-bit counters wrap, for any
   serialised submitters (`KernelRuns.RingsSafe`).
5. For every run of the dependency engine, memory ends up as if the submitted commands had been
   executed one at a time in any topological order (`SequentialEquivalence.DrainedEquivalent`), and
   which commands are submitted does not depend on timing (`Dependencies.Confluence`). Every call of
   `progress` is part of such a run (`DependencyProgress.CallIsRun`).
6. Tiled and plain product agree for all sizes; both schedulers compute the same interleaving; every
   pooled buffer is free once or held once.

Where the code and its comments differ, the model follows the code:

- `track-b/dma_accel_scheduler.cpp:63-71` says that a request whose dispatch throws stays pending. It is
  popped before the dispatch, so it is lost; `Schedulers.LostRequest` gives an input and
  `Schedulers.NothingLostIff` says exactly when nothing is lost.
- `track-a/dma_accel_runtime.hpp:209-212` says that every entry of `submission_order_` is also in
  `outstanding_`. Only the entries that are not ready are; this is the invariant `Tracks`.
  `StreamRuntime.AllOutstandingBroken` gives an input and `StreamRuntime.AllOutstandingIff` says
  exactly when the comment holds: while nothing in the window is ready.

## Model

| member | source | states |
|---|---|---|
| `DriverCore.QuotaMeaning` | track-a/dma_accel_drv.c:1526-1534 | The fair share is at least 1, at most 16, all 16 for a lone session, and the least share with which the open sessions can fill the ring. |
| `DriverCore.QuotaShrinks` | track-a/dma_accel_drv.c:1335-1340 | More open sessions never raise anyone's share, so opening needs no wake-up. |
| `DriverCore.ValidateMeaning` | track-a/dma_accel_drv.c:1548-1606 | Validation succeeds exactly if source, destination and, for SCALE_ADD and TILE_MATMUL, second source are ranges of the session's own in-use buffers; the descriptor then names exactly those addresses; EPERM exactly if ownership is the first check not met. |
| `DriverCore.FairAdmission` | track-a/dma_accel_drv.c:1526-1534 | Admission passes exactly if fewer than 16 commands are in flight and the session's own, times the open sessions, stay below 16. |
| `DriverCore.PageAlignMeaning` | track-a/dma_accel_drv.c:1419 | A buffer is the least whole number of pages that holds the requested size. |
| `DriverCore.AllocMeaning` | track-a/dma_accel_drv.c:1416-1445 | Which allocation succeeds and which error each other one gives, for every size, quota and table. |
| `DriverCore.AllocUsable` | track-a/dma_accel_drv.c:1453-1461 | The new slot is the session's, holds the requested bytes, and every command on up to that many bytes of it passes validation. |
| `DriverCore.PushRingMeaning` | track-a/dma_accel_drv.c:352-357 | A completion ring holds the newest 64 completions, in order. |
| `DriverCore.FirstFree` | track-a/dma_accel_drv.c:1657-1663 | The slot scan finds a free entry exactly if there is one. |
| `DriverCore.FindId` | track-a/dma_accel_drv.c:331-339 | The routing scan finds a valid entry with the completion's id, or there is none. |
| `DriverCore.FirstFreeBuffer` | track-a/dma_accel_drv.c:1436-1445 | The buffer scan finds an unused slot exactly if there is one. |
| `DriverInvariants.InitialInv` | track-a/dma_accel_drv.c:1864-1872 | The state after probe satisfies the whole invariant. |
| `DriverInvariants.StepRouting` | track-a/dma_accel_drv.c:318-400 | Every fine step keeps accounting, session liveness and the count of open sessions. |
| `DriverInvariants.StepOwnership` | track-a/dma_accel_drv.c:1548-1606 | Every fine step keeps ids distinct, both buffer tables in agreement and every command backed by live memory. |
| `DriverInvariants.StepInv` | track-a/dma_accel_drv.c:1653-1690 | Every fine step keeps the joint invariant. |
| `DriverInvariants.RunInv` | track-a/dma_accel_drv.c:318-400 | The invariant holds in every reachable state, whatever the device does. |
| `DriverInvariants.RegisterAccounting` | track-a/dma_accel_drv.c:1653-1669 | Registration keeps: in flight + registered-not-counted = table entries + claimed, per session and in total. |
| `DriverInvariants.CountAccounting` | track-a/dma_accel_drv.c:1689-1690 | Counting after the unlock keeps the accounting equation. |
| `DriverInvariants.ClaimAccounting` | track-a/dma_accel_drv.c:331-340 | Claiming a completion keeps the accounting equation; an unknown id changes nothing. |
| `DriverInvariants.UncountAccounting` | track-a/dma_accel_drv.c:363-372 | The two decrements keep the accounting equation. |
| `DriverInvariants.DrainedIsUnreferenced` | track-a/dma_accel_drv.c:1380-1382 | A closing session whose counter reads zero is referenced by no table entry, no ioctl and no handler. |
| `DriverInvariants.ValidatedIsBacked` | track-a/dma_accel_drv.c:1548-1606 | A descriptor that passes validation lies, range by range, inside in-use buffers of the submitting session. |
| `DriverInvariants.ReleaseFreesExactlyOwn` | track-a/dma_accel_drv.c:1390-1397 | Release frees every slot of the closing session and leaves every other slot unchanged. |
| `DriverInvariants.ReleaseMeaning` | track-a/dma_accel_drv.c:1380-1400 | A closed session is gone altogether; every other session, the command table and the counters are unchanged. |
| `DriverInvariants.OpenMeaning` | track-a/dma_accel_drv.c:1320-1344 | A new session is open and empty and leaves all others alone. |
| `DriverInvariants.CloseFinishDma` | track-a/dma_accel_drv.c:1380-1397 | Freeing a drained session's buffers takes nothing from any command in flight. |
| `DriverInvariants.AllocOwnership` | track-a/dma_accel_drv.c:1431-1461 | Allocation keeps table and bitmaps in agreement, within the quota of 16, and all buffers disjoint. |
| `DriverGuarantees.StepAdmitted` | track-a/dma_accel_drv.c:1653-1690 | Only registration raises counted plus registered commands, only below the cap; only a completion lowers it. |
| `DriverGuarantees.FairRegistration` | track-a/dma_accel_drv.c:1648-1670 | Over every run a submit is let in under the lock exactly if the ring has room, a slot is free, and its session's commands, times the sessions open when it read that number, stay below 16. |
| `DriverGuarantees.AdmittedBound` | track-a/dma_accel_drv.c:1653-1690 | With at most P concurrent submitters, counted plus registered commands never exceed 15 + P, over every run. |
| `DriverGuarantees.SlotScanSucceeds` | track-a/dma_accel_drv.c:1655-1675 | Below the cap, with at most 48 registered-not-counted, a free table slot exists: the fallback branch is dead. |
| `DriverGuarantees.SessionsIsolated` | track-a/dma_accel_drv.c:1562-1566 | Ranges of commands in flight from different sessions never overlap, reads and writes alike. |
| `DriverGuarantees.NoLostWakeup` | track-a/dma_accel_drv.c:1680-1687 | A session's admission test turns true only in a step that wakes the waiters. |
| `DriverGuarantees.WakeFreesSomething` | track-a/dma_accel_drv.c:363-373 | A waking step frees a place in the ring or lowers the number of open sessions. |
| `DriverGuarantees.SleepersAreRefused` | track-a/dma_accel_drv.c:1680-1687 | Over every run, a submit that is asleep on `quota_wq` is one that the admission test still refuses. |
| `DriverGuarantees.SessionWithinTotal` | track-a/dma_accel_drv.c:363-372 | At every instant, also between registering and counting, a session's counter is between zero and the device-wide counter (for a device that completes only what it was given). |
| `DriverGuarantees.BlockedMeansInFlight` | track-a/dma_accel_drv.c:1647-1687 | At every instant a refused session implies `total_inflight` > 0, so a wake-up is still to come (for the same device). |
| `DriverGuarantees.BlockedMeansAdmitted` | track-a/dma_accel_drv.c:1647-1687 | Against an arbitrary device: a refused session implies that some command is counted or registered. |
| `DriverGuarantees.StepEntered` | track-a/dma_accel_drv.c:1653-1690 | A submit that is registered and not yet counted keeps its table entry. |
| `DriverGuarantees.TotalDrains` | track-a/dma_accel_drv.c:363-373 | Without admissions, counted plus registered commands fall by exactly one per routed completion, from any reachable state. |
| `DriverGuarantees.AdmittedAfterDrain` | track-a/dma_accel_drv.c:1647-1687 | Without other admissions at most as many completions happen as commands were counted or registered, and then every session is admissible, even if sessions keep opening. |
| `DriverGuarantees.RoutedSessionsLive` | track-a/dma_accel_drv.c:331-363 | In every reachable state table entries and the handler refer to sessions that are not freed. |
| `Rings.WrapKeepsSlot` | track-a/dma_accel_drv.c:826 | Wrapping a counter at 2^32 does not change its slot, because the ring size divides 2^32. |
| `Rings.DistinctSlots` | track-a/dma_accel_drv.c:826-848 | Counters less than a ring size apart, across a wrap, use different slots. |
| `Rings.Push` | track-a/dma_accel_drv.c:826-848 | A write at the tail of a ring that is not full appends and destroys no unconsumed entry. |
| `Rings.Pop` | track-a/dma_accel_drv.c:319-320 | A read at the head yields the oldest entry and leaves the rest in order. |
| `Rings.Count` | track-a/dma_accel_drv.c:352 | The u32 difference of the counters is the number of entries, also across a wrap. |
| `SerialDriver.SubmitIsFineRun` | track-a/dma_accel_drv.c:1653-1697 | The serial submit is the fine submit of one thread without interruption. |
| `SerialDriver.RouteIsFineRun` | track-a/dma_accel_drv.c:318-400 | Routing one completion is claim, deliver and uncount without interruption. |
| `SerialDriver.ReadIsFineRun` | track-a/dma_accel_drv.c:1792-1812 | Reading n completions is n fine-grained reads, each taking the oldest. |
| `SerialInvariants.SubmitInv` | track-a/dma_accel_drv.c:1653-1697 | Submit keeps the rings equal to their queues and every command in exactly one place. |
| `SerialInvariants.FetchPipeline` | track-c/docs/C6a-completion-note.md:44-50 | The device's fetch in ring order keeps the pipeline invariant. |
| `SerialInvariants.PostPipeline` | track-a/dma_accel_drv.c:316-402 | Posting a completion never overruns the completion ring and gives each id one status. |
| `SerialInvariants.HeadIsKnown` | track-a/dma_accel_drv.c:375-397 | The completion at the head always has its table entry: the unknown-id branch is dead. |
| `SerialInvariants.RouteInv` | track-a/dma_accel_drv.c:318-400 | Routing keeps the invariant. |
| `SerialInvariants.SpentKeeps` | track-a/dma_accel_drv.c:1615-1684 | A SUBMIT interrupted while blocked uses up its id and keeps the invariant. |
| `SerialInvariants.SpentIsAbandoned` | track-a/dma_accel_drv.c:1682-1684 | It is a fine-grained begin followed by giving up. |
| `SerialInvariants.KStepInv` | track-a/dma_accel_drv.c:316-402 | Every step of driver and device, interrupted submits included, keeps the invariant. |
| `KernelRuns.KRunInv` | track-a/dma_accel_drv.c:316-402 | The invariant holds over every run of driver and device, for any serialised submitters. |
| `KernelRuns.RingsSafe` | track-a/dma_accel_drv.c:822-849 | Over every such run no write hits an unfetched descriptor or an unread completion, and both heads read the oldest entry. |
| `KernelRuns.PendingIsBacked` | track-a/dma_accel_drv.c:1548-1606 | Whatever is queued, executing or completed-not-routed is a validated descriptor backed by live buffers of the session the table names. |
| `DriverDevice.CompletionRing.Deliver` | track-a/dma_accel_drv.c:346-358 | Writing the 64-slot ring appends, dropping the oldest entry only when 64 are unread. |
| `DriverDevice.CompletionRing.TakeOne` | track-a/dma_accel_drv.c:1796-1806 | Pops the oldest unread completion, or nothing if the ring is empty. |
| `DriverDevice.CompletionRing.Take` | track-a/dma_accel_drv.c:1788-1812 | The copy loop takes the oldest completions, as many as wanted and there, and leaves the rest. |
| `DriverDevice.SessionRings.Deliver` | track-a/dma_accel_drv.c:346-358 | Delivering to one session's ring leaves every other session's ring as it is. |
| `DriverDevice.SessionRings.Take` | track-a/dma_accel_drv.c:1792-1812 | Reading from one session's ring leaves every other session's ring as it is. |
| `DriverDevice.DmaDevice.constructor` | track-a/dma_accel_drv.c:1864-1872 | After probe the arrays and counters are those of the model's initial state. |
| `DriverDevice.DmaDevice.FindFree` | track-a/dma_accel_drv.c:1657-1663 | The loop over the table computes the first free slot. |
| `DriverDevice.DmaDevice.FindCommand` | track-a/dma_accel_drv.c:332-339 | The loop over the table computes the first entry for the id. |
| `DriverDevice.DmaDevice.FindFreeBuffer` | track-a/dma_accel_drv.c:1436-1441 | The loop over the buffer table computes the first unused slot. |
| `DriverDevice.DmaDevice.CheckBuffers` | track-a/dma_accel_drv.c:1548-1606 | The checks on the array compute the validation that `ValidateMeaning` describes, error code by error code. |
| `DriverDevice.DmaDevice.Admit` | track-a/dma_accel_drv.c:1665-1697 | Registration, the two increments and the descriptor write are the model's submit step, and nothing else changes. |
| `DriverDevice.DmaDevice.TrySubmit` | track-a/dma_accel_drv.c:1546-1697 | Refused with the error of the first failing check and no change; admitted by the model's step; or blocked, with only an id used up. |
| `DriverDevice.DmaDevice.Submit` | track-a/dma_accel_drv.c:1536-1709 | Refused exactly if the request is not valid; submitted exactly if it is valid and within the fair share; then the descriptor at the old tail names the requested ranges, the table routes its id to the session and both counters include it; unless refused it is a step of the kernel. |
| `DriverDevice.DmaDevice.Claim` | track-a/dma_accel_drv.c:319-340 | Finds the owner of the completion at the head and frees its table entry. |
| `DriverDevice.DmaDevice.Uncount` | track-a/dma_accel_drv.c:363-399 | The two decrements for a known completion only, and the step to the next entry. |
| `DriverDevice.DmaDevice.RouteOne` | track-a/dma_accel_drv.c:319-399 | One round of the handler, through the session's 64-slot ring, is the model's routing step. |
| `DriverDevice.DmaDevice.IrqHandler` | track-a/dma_accel_drv.c:315-402 | The handler keeps the invariant, catches up with the device's tail and has routed every waiting completion in order. |
| `DriverDevice.DmaDevice.Read` | track-a/dma_accel_drv.c:1765-1817 | EAGAIN exactly on an empty ring, EINVAL exactly for no room, both with no change; else as many completions as wanted and there, which together with what is left make up the old ring; other rings unchanged. |
| `DriverDevice.ReadIsGenuine` | track-a/dma_accel_drv.c:1802-1803 | Each completion read has the status posted for its command. |
| `DriverDevice.DmaDevice.Open` | track-a/dma_accel_drv.c:1320-1344 | A new session with zeroed fields that counts for the fair share; a step of the kernel. |
| `DriverDevice.DmaDevice.AllocTables` | track-a/dma_accel_drv.c:1416-1461 | Size, quota, slot and memory errors in this order with no change; else the entry in both tables. |
| `DriverDevice.DmaDevice.BufferAlloc` | track-a/dma_accel_drv.c:1403-1461 | Succeeds exactly if the size is in range, the session below its quota, a slot free and memory there; then an unused slot is the session's, at that memory, with at least the requested size; a step of the kernel. |
| `DriverDevice.DmaDevice.ReleaseBegin` | track-a/dma_accel_drv.c:1365-1366 | The session leaves the fair-share count before it has drained; a step of the kernel. |
| `DriverDevice.DmaDevice.FreeOwned` | track-a/dma_accel_drv.c:1391-1396 | The sweep clears exactly the slots in the session's bitmap. |
| `DriverDevice.DmaDevice.ReleaseFinish` | track-a/dma_accel_drv.c:1380-1400 | The end of release is the kernel's step on a drained session. |
| `DriverDevice.HandlerDelivers` | track-a/dma_accel_drv.c:318-400 | One handler run appends to each session exactly its own waiting completions, in posting order, and drops none. |
| `DriverDevice.SubmitOutcome` | track-a/dma_accel_drv.c:1647-1697 | In reachable states a valid SUBMIT is admitted exactly if the ring has room and the session is below its fair share (the slot scan cannot fail); either way the invariant is kept. |
| `StreamInvariants.PumpMeaning` | track-a/dma_accel_runtime.cpp:244-262 | A pumped batch readies exactly the outstanding Fences it names, each with its own status, and untracks exactly those. |
| `StreamInvariants.FlightCount` | track-a/dma_accel_drv.c:331-340 | A session has as many ids in flight as table entries. |
| `StreamInvariants.StreamCounts` | track-a/dma_accel_runtime.cpp:142-169 | In flight plus unread equals outstanding plus the SUBMIT in progress. |
| `StreamInvariants.SStepInv` | track-a/dma_accel_runtime.cpp:142-271 | Every step of any Stream, the driver or the device keeps the joint invariant. |
| `StreamGuarantees.SRunInv` | track-a/dma_accel_runtime.cpp:142-271 | The joint invariant holds in every reachable state of the whole system. |
| `StreamGuarantees.FenceStep` | track-a/dma_accel_runtime.cpp:246-262 | A step changes a Fence only from not ready to ready, only as a pump of its own Stream, only to its posted status. |
| `StreamGuarantees.PostedStep` | track-a/dma_accel_drv.c:318-400 | A posted status never changes. |
| `StreamGuarantees.FenceReadyOnce` | track-a/dma_accel_runtime.cpp:159-169 | Over every run a ready Fence stays ready with the status posted for its own id. |
| `StreamGuarantees.ThrottleMeetsDriver` | track-a/dma_accel_runtime.cpp:142-169 | In flight plus unread equals the not-ready window (plus a SUBMIT in progress) and never exceeds 16. |
| `StreamGuarantees.OldestFirst` | track-a/dma_accel_runtime.cpp:149-156 | Over every run each window is in submission order, so the throttle waits for and removes the oldest command. |
| `StreamGuarantees.NothingDropped` | track-a/dma_accel_drv.c:352-357 | When a completion is routed its session's ring has room: the drop-oldest branch is dead. |
| `StreamGuarantees.PumpKnowsEveryId` | track-a/dma_accel_runtime.cpp:246-257 | A pump never meets an unknown id, and one read of 32 empties the ring. |
| `StreamGuarantees.LoneStreamNeverBlocks` | track-a/dma_accel_drv.c:1648-1656 | With one Stream open and closed sessions drained, a throttled SUBMIT is always admitted. |
| `StreamGuarantees.KernelRunInside` | track-a/dma_accel_drv.c:316-402 | Every run of the system contains a run of the kernel, so the ring and memory results apply to it. |
| `StreamGuarantees.DeviceTouchesLiveMemory` | track-a/dma_accel_drv.c:1548-1606 | Whatever is queued, executing or completed-not-routed is backed by buffers of the submitting session. |
| `StreamRuntime.FenceState.Status` | track-a/dma_accel_runtime.cpp:83-90 | The stored status, exactly when the Fence is ready. |
| `StreamRuntime.PumpTracks` | track-a/dma_accel_runtime.cpp:244-262 | Any batch, with duplicates and unknown ids, keeps outstanding equal to the not-ready window and changes no ready Fence. |
| `StreamRuntime.PumpReadies` | track-a/dma_accel_runtime.cpp:246-262 | An outstanding Fence becomes ready exactly if its completion is in the batch. |
| `StreamRuntime.AllOutstandingIff` | track-a/dma_accel_runtime.hpp:209-212 | Every entry of `submission_order_` is in `outstanding_` exactly while no entry is ready. |
| `StreamRuntime.AllOutstandingBroken` | track-a/dma_accel_runtime.hpp:209-212 | One submitted command and its pumped completion break what the comment says. |
| `StreamRuntime.ThrottleTracks` | track-a/dma_accel_runtime.cpp:149-156 | Popping a ready oldest entry loses nothing that is not ready. |
| `StreamRuntime.StreamObject.CompleteAll` | track-a/dma_accel_runtime.cpp:244-262 | The loop over a batch has the effect of the batch, entry by entry, on shared Fence objects. |
| `StreamRuntime.StreamObject.Pump` | track-a/dma_accel_runtime.cpp:227-271 | Reads everything readable in batches of 32, keeps the Stream's invariant; readiness never reverts. |
| `StreamRuntime.StreamObject.PollUntil` | track-a/dma_accel_runtime.cpp:273-288 | The poll loop consumes arrivals in order, each once, and ends ready, at the deadline, or with nothing left to come. |
| `StreamRuntime.StreamObject.Wait` | track-a/dma_accel_runtime.cpp:290-329 | Succeeds exactly if the Fence is ready on return; without a deadline exactly if it was ready or its completion is to come; with time for one poll, whenever the completion is already readable. |
| `StreamRuntime.StreamObject.ThrottleBeforeSubmit` | track-a/dma_accel_runtime.cpp:142-157 | Leaves room in the window of 16, removing only the oldest entry and only once it is ready. |
| `StreamRuntime.StreamObject.Book` | track-a/dma_accel_runtime.cpp:164-168 | The new command enters both containers through one shared Fence. |
| `StreamRuntime.StreamObject.Submit` | track-a/dma_accel_runtime.cpp:171-188 | Throttle, then book; a failed ioctl creates no Fence; the invariant is kept in every case. |
| `CommandGroups.VerdictFinal` | track-c/runtime/dma_accel_command_group.cpp:67-87 | A verdict that is not pending stays what it is, as long as readiness does not revert. |
| `CommandGroups.UnreadyFalls` | track-c/runtime/dma_accel_command_group.cpp:129-136 | The number of not-ready members never grows and falls with each successful wait. |
| `CommandGroups.CommandGroup.Add` | track-c/runtime/dma_accel_command_group.cpp:44-51 | Adds the Fence, or is an error with no change once sealed. |
| `CommandGroups.CommandGroup.Seal` | track-c/runtime/dma_accel_command_group.cpp:53-57 | Seals, idempotently. |
| `CommandGroups.CommandGroup.ScanAll` | track-c/runtime/dma_accel_command_group.cpp:71-86 | The two-flag loop computes the verdict: pending iff some member is not ready, else failed iff some status is not OK. |
| `CommandGroups.CommandGroup.ScanToPending` | track-c/runtime/dma_accel_command_group.cpp:105-116 | Stops at a member that is not ready, or all are ready and the failure flag is exact. |
| `CommandGroups.CommandGroup.Query` | track-c/runtime/dma_accel_command_group.cpp:67-87 | Error iff unsealed; else the verdict after a pump, equal to any earlier final verdict. |
| `CommandGroups.CommandGroup.WaitForMembers` | track-c/runtime/dma_accel_command_group.cpp:96-137 | Terminates by the number of not-ready members and returns the verdict. |
| `CommandGroups.CommandGroup.Wait` | track-c/runtime/dma_accel_command_group.cpp:89-138 | Error iff unsealed; else the verdict on return; without a deadline pending iff some member's completion never arrives. |
| `CommandGroups.VerdictOverRuns` | track-c/runtime/dma_accel_command_group.cpp:67-138 | Over every run of the whole system a final verdict never changes, and is SomeFailed iff the device posted a non-OK status for a member. |
| `DependencyGraph.PathsAreSimple` | track-c/runtime/dma_accel_dependency.cpp:28-38 | Paths in an acyclic graph repeat no node. |
| `DependencyGraph.PathLength` | track-c/runtime/dma_accel_dependency.cpp:28-38 | Hence no path is longer than the graph, which bounds the recursion. |
| `DependencyGraph.ReachesUnfold` | track-c/runtime/dma_accel_dependency.cpp:29-37 | Reachability is being the target or reaching it from a dependency. |
| `DependencyGraph.ReachableFrom` | track-c/runtime/dma_accel_dependency.cpp:28-38 | The recursive search terminates on every acyclic graph and returns true exactly if a path exists. |
| `DependencyGraph.Reachable` | track-c/runtime/dma_accel_dependency.cpp:28-38 | The same for a search from any node. |
| `DependencyGraph.AddEdgeAcyclic` | track-c/runtime/dma_accel_dependency.cpp:66-72 | An edge that passes the check keeps the graph acyclic. |
| `DependencyGraph.EdgeClosesCycleIff` | track-c/runtime/dma_accel_dependency.cpp:66-71 | The check rejects an edge exactly if adding it would close a cycle. |
| `Dependencies.ScanFencesMeaning` | track-c/runtime/dma_accel_dependency.cpp:140-149 | Despite its early breaks the scan is clear exactly if all Fences are OK; otherwise it names a cause. |
| `Dependencies.ScanGroupsMeaning` | track-c/runtime/dma_accel_dependency.cpp:151-167 | The same for the nested scan over groups. |
| `Dependencies.ScanPendingMeaning` | track-c/runtime/dma_accel_dependency.cpp:169-188 | The same for the scan over pending dependencies. |
| `Dependencies.ScanFencesPosition` | track-c/runtime/dma_accel_dependency.cpp:140-149 | The first Fence that is not ready and OK decides: failed blocks at once, unready waits. |
| `Dependencies.ScanGroupsFlat` | track-c/runtime/dma_accel_dependency.cpp:151-167 | The nested scan is one scan over the members of all groups in order. |
| `Dependencies.ScanPendingPosition` | track-c/runtime/dma_accel_dependency.cpp:169-188 | The first pending dependency that has not delivered decides. |
| `Dependencies.VisitClear` | track-c/runtime/dma_accel_dependency.cpp:198-200 | A command is submitted only when all its dependencies are satisfied. |
| `Dependencies.VisitFailed` | track-c/runtime/dma_accel_dependency.cpp:190-193 | A command is blocked only if it can never be submitted. |
| `Dependencies.GoodUnfold` | track-c/runtime/dma_accel_dependency.cpp:137-200 | A command should run iff its Fences and groups are OK and every pending dependency should run and is OK. |
| `Dependencies.SubmittedIsGood` | track-c/runtime/dma_accel_dependency.cpp:198-200 | Submitted commands have no failing dependency chain. |
| `Dependencies.StepMonotone` | track-c/runtime/dma_accel_dependency.cpp:129-202 | Steps only add; flags are permanent and a submitted command's dependencies are frozen. |
| `Dependencies.StepInv` | track-c/runtime/dma_accel_dependency.cpp:44-202 | Every call, effect and completion keeps acyclicity, gating, causes of blocking and effect order. |
| `Dependencies.RunInv` | track-c/runtime/dma_accel_dependency.cpp:44-202 | These hold at every point of every run. |
| `Dependencies.FlagsMeanGood` | track-c/runtime/dma_accel_dependency.cpp:132-201 | Submitted and blocked exclude each other and agree with the split of the final graph. |
| `Dependencies.DecisionsPermanent` | track-c/runtime/dma_accel_dependency.cpp:132-201 | Decisions never change, at any later point of any run. |
| `Dependencies.Confluence` | track-c/runtime/dma_accel_dependency.cpp:132-201 | Runs over the same graph and outcomes end with the same split, whatever the timing; the split is the documented one. |
| `SequentialEquivalence.RunMeaning` | track-c/runtime/dma_accel_dependency.cpp:198-200 | A command replaces its destination range by what the device computes and changes no other byte. |
| `SequentialEquivalence.RunAllMeaning` | track-c/runtime/dma_accel_dependency.cpp:198-200 | Executing one at a time: the last command acts on what the others have left. |
| `SequentialEquivalence.Commute` | track-c/runtime/dma_accel_dependency.cpp:129-202 | Commands whose ranges do not conflict commute on memory, for every device function. |
| `SequentialEquivalence.ReorderInvariance` | track-c/runtime/dma_accel_dependency.cpp:129-202 | Two orders of the same commands that agree on conflicting pairs leave the same memory. |
| `SequentialEquivalence.TopologicalNoInversion` | track-c/runtime/dma_accel_dependency.cpp:61-73 | If conflicts are joined by dependency paths, topological orders agree on them. |
| `SequentialEquivalence.SequentiallyEquivalent` | track-c/runtime/dma_accel_dependency.cpp:129-202 | At every point of every run memory equals executing the applied commands one by one in any topological order. |
| `SequentialEquivalence.DrainedEquivalent` | track-c/runtime/dma_accel_dependency.cpp:129-202 | Once everything submitted has completed, memory equals executing all submitted commands in any topological order. |
| `DependencyProgress.EffectsAreRun` | track-c/runtime/dma_accel_dependency.cpp:198-200 | The device applying submitted commands, in any order, is a run of effect steps. |
| `DependencyProgress.PassIsRun` | track-c/runtime/dma_accel_dependency.cpp:132-201 | A pass over the registry is a run of model steps, with the device applying commands and completions arriving inside its submissions, also for commands submitted in the same pass. |
| `DependencyProgress.CallIsRun` | track-c/runtime/dma_accel_dependency.cpp:129-202 | A whole call, pump and pass, from any reachable state is a run and ends in a state that satisfies the invariant. |
| `DependencyProgress.LeadsTransitive` | track-c/runtime/dma_accel_dependency.cpp:129-202 | Runs of successive calls join into one run. |
| `DependencyProgress.PumpIsRun` | track-c/runtime/dma_accel_dependency.cpp:130 | The pump at the start of a call is a run of completion steps. |
| `DependencyProgress.PumpOwn` | track-a/dma_accel_runtime.cpp:244-262 | What a batch does to a command: the first completion for it counts, with its status, exactly if it is submitted and not done. |
| `DependencyProgress.PumpExt` | track-a/dma_accel_runtime.cpp:244-262 | The same for a Fence from outside the engine. |
| `DependencyProgress.PumpSettles` | track-c/runtime/dma_accel_dependency.cpp:130 | A pump that finds a completion for everything outstanding leaves nothing outstanding. |
| `DependencyProgress.VisitIsRun` | track-c/runtime/dma_accel_dependency.cpp:133-200 | Visiting one command is a run of model steps. |
| `DependencyProgress.CallLifts` | track-c/runtime/dma_accel_dependency.cpp:129-202 | One call decides one more level of dependency chains. |
| `DependencyProgress.Convergence` | track-c/runtime/dma_accel_dependency.cpp:129-202 | After k+1 calls every command whose chains have at most k edges is submitted or blocked. |
| `DependencyProgress.EventuallyDecided` | track-c/runtime/dma_accel_dependency.cpp:129-202 | As many calls as commands decide everything. |
| `DependencyProgress.ProgressConverges` | track-c/runtime/dma_accel_dependency.cpp:129-202 | Over successive calls whose pumps find everything outstanding: k+1 calls decide all chains of at most k edges, and as many calls as commands decide everything. |
| `DependencyProgress.DependencyEngine.constructor` | track-c/runtime/dma_accel_dependency.cpp:84-96 | A new engine is empty and valid. |
| `DependencyProgress.DependencyEngine.DeferSubmit` | track-c/runtime/dma_accel_dependency.cpp:84-96 | Registers a fresh command at the end. |
| `DependencyProgress.DependencyEngine.DependsOnFence` | track-c/runtime/dma_accel_dependency.cpp:44-51 | Adds the Fence, or is an error with no change once submitted. |
| `DependencyProgress.DependencyEngine.DependsOnGroup` | track-c/runtime/dma_accel_dependency.cpp:53-59 | Adds the group, or is an error with no change once submitted. |
| `DependencyProgress.DependencyEngine.DependsOnPending` | track-c/runtime/dma_accel_dependency.cpp:61-73 | Rejects exactly submitted commands and edges that would close a cycle; otherwise adds exactly that edge. |
| `DependencyProgress.DependencyEngine.CheckFences` | track-c/runtime/dma_accel_dependency.cpp:140-149 | The loop with its two flags computes the scan. |
| `DependencyProgress.DependencyEngine.Check` | track-c/runtime/dma_accel_dependency.cpp:137-188 | The three loops compute the evaluation of one command. |
| `DependencyProgress.DependencyEngine.PumpStream` | track-c/runtime/dma_accel_dependency.cpp:130 | The loop over a batch has the effect that `PumpOwn` and `PumpExt` describe. |
| `DependencyProgress.DependencyEngine.VisitOne` | track-c/runtime/dma_accel_dependency.cpp:133-200 | One round of the loop is the model's visit. |
| `DependencyProgress.DependencyEngine.VisitAll` | track-c/runtime/dma_accel_dependency.cpp:132-201 | The loop over the registry computes one pass in registration order. |
| `DependencyProgress.DependencyEngine.Progress` | track-c/runtime/dma_accel_dependency.cpp:129-202 | A call is a pump followed by one pass; the graph is unchanged. |
| `Schedulers.ScheduleIsInterleaving` | track-c/runtime/dma_accel_stream_scheduler.cpp:26-44 | The schedule holds every request once, sorted by position in its queue and then by client. |
| `Schedulers.InterleavingUnique` | track-c/runtime/dma_accel_stream_scheduler.cpp:26-44 | There is only one such order. |
| `Schedulers.FifoPerClient` | track-b/dma_accel_scheduler.cpp:50-77 | What is dispatched of each client is a prefix of its queue, in order. |
| `Schedulers.PrefixIsUpTo` | track-b/dma_accel_scheduler.cpp:50-77 | Every prefix of the schedule is the schedule up to one point. |
| `Schedulers.Fair` | track-b/dma_accel_scheduler.cpp:50-77 | In every prefix two clients that still have work differ by at most one dispatch. |
| `Schedulers.Conserved` | track-b/dma_accel_scheduler.cpp:63-75 | When a dispatch throws, dispatched, failing and remaining requests make up the queues. |
| `Schedulers.StreamScheduler.AddStream` | track-c/runtime/dma_accel_stream_scheduler.cpp:10-14 | Registers an empty queue at the returned index. |
| `Schedulers.StreamScheduler.Enqueue` | track-c/runtime/dma_accel_stream_scheduler.cpp:16-21 | Appends to that queue, or is an error with no change. |
| `Schedulers.StreamScheduler.Pass` | track-c/runtime/dma_accel_stream_scheduler.cpp:31-40 | One pass dispatches one more position of every queue that has one, or stops at the failing request. |
| `Schedulers.StreamScheduler.Run` | track-c/runtime/dma_accel_stream_scheduler.cpp:23-47 | Dispatches the whole schedule, or exactly the part before the first failing request. |
| `Schedulers.Scheduler.AddContext` | track-b/dma_accel_scheduler.cpp:16-19 | Registers an empty queue under the returned id. |
| `Schedulers.Scheduler.EnqueueCopy` | track-b/dma_accel_scheduler.cpp:21-24 | Appends to that queue, or is an error with no change. |
| `Schedulers.Scheduler.HasPending` | track-b/dma_accel_scheduler.cpp:26-33 | True exactly if some queue is not empty. |
| `Schedulers.Scheduler.Pass` | track-b/dma_accel_scheduler.cpp:52-76 | One pass with the snapshot counters, which stay equal to the queue lengths. |
| `Schedulers.Scheduler.RunRound` | track-b/dma_accel_scheduler.cpp:35-80 | The same outcome as the other scheduler, with snapshot counters instead of empty queues. |
| `Schedulers.StopsAtFirst` | track-b/dma_accel_scheduler.cpp:63-75 | A run stops no later than the first request that is not accepted when its turn comes. |
| `Schedulers.SchedulersAgree` | track-b/dma_accel_scheduler.cpp:35-80 | Both schedulers yield the same dispatches, failure and remaining queues on the same input, also when a dispatch's success depends on what was dispatched before. |
| `Schedulers.NothingLostIff` | track-b/dma_accel_scheduler.cpp:57-75 | No request is lost exactly if every queued request is accepted when its turn comes. |
| `Schedulers.LostRequest` | track-b/dma_accel_scheduler.cpp:58-75 | One rejected request in one queue is lost, against the comment. |
| `TiledGemm.TilesFit` | track-a/dma_accel_gemm_stage3.cpp:46-58 | Every tile index starts inside the dimension, so `valid_extent` never underflows and is between 1 and the tile size. |
| `TiledGemm.TilesPartition` | track-a/dma_accel_gemm_stage3.cpp:46-58 | Each index is real data of exactly one tile. |
| `TiledGemm.ProductWithIdentity` | track-a/dma_accel_gemm_stage3.cpp:83-90 | The sums are those of the matrix product: the identity is neutral on both sides. |
| `TiledGemm.ProductAdds` | track-a/dma_accel_gemm_stage3.cpp:83-90 | The product is additive in each factor. |
| `TiledGemm.MultiplyAccumulate` | track-a/dma_accel_gemm_stage3.cpp:173-180 | The triple loop adds the matrix product of the buffers to the output, cell by cell. |
| `TiledGemm.MultiplyRow` | track-a/dma_accel_gemm_stage3.cpp:84-89 | One row of the product; other rows unchanged. |
| `TiledGemm.AddScaledRow` | track-a/dma_accel_gemm_stage3.cpp:86-88 | The innermost loop adds a multiple of one row. |
| `TiledGemm.Fill` | track-a/dma_accel_gemm_stage3.cpp:117-125 | A filled tile holds the matrix in its valid region and zero elsewhere. |
| `TiledGemm.ReferenceGemm` | track-a/dma_accel_gemm_stage3.cpp:71-92 | The untiled loops compute the product. |
| `TiledGemm.PaddedDot` | track-a/dma_accel_gemm_stage3.cpp:169-181 | Within a pair of padded tiles the partial sums are those of the untiled product; padding adds nothing. |
| `TiledGemm.AccumulateTile` | track-a/dma_accel_gemm_stage3.cpp:169-182 | One K step extends every valid cell's sum by that tile. |
| `TiledGemm.ComputeTile` | track-a/dma_accel_gemm_stage3.cpp:165-182 | An output tile's valid region holds the full sums, using full-tile arithmetic only. |
| `TiledGemm.TiledProduct` | track-a/dma_accel_gemm_stage3.cpp:161-184 | The grid of output tiles covers the product. |
| `TiledGemm.TiledEqualsReference` | track-a/dma_accel_gemm_stage3.cpp:112-183 | For all sizes every element of the tiled result equals the untiled element. |
| `TiledGemm.FirstMismatch` | track-a/dma_accel_gemm_stage3.cpp:199-215 | The comparison reports a differing element exactly if there is one. |
| `TiledGemm.RunComparison` | track-a/dma_accel_gemm_stage3.cpp:112-222 | The program's final comparison succeeds for all sizes and all matrices. |
| `TiledGemm.FillMeaning` | track-a/dma_accel_gemm_stage3.cpp:64-69 | The fill values are the stated residues modulo 7 and 11. |
| `TiledGemm.PartialSumsExact` | track-a/dma_accel_gemm_stage3.cpp:64-69 | With the given fills every partial sum is an integer between 0 and 60 K, exact in float32 while 60 K is at most 2^24. |
| `BufferPools.Taken` | track-c/runtime/dma_accel_buffer_pool.cpp:53-60 | Moving a buffer from the free list to a handle keeps every buffer free once or held once. |
| `BufferPools.Returned` | track-c/runtime/dma_accel_buffer_pool.cpp:62-64 | Giving a buffer back keeps the partition. |
| `BufferPools.Handover` | track-c/runtime/dma_accel_buffer_pool.cpp:10-25 | Moving a handle keeps the partition. |
| `BufferPools.GivenBackOnTop` | track-c/runtime/dma_accel_buffer_pool.cpp:62-64 | A buffer returns to its own pool as the next one to be acquired; other pools are unchanged. |
| `BufferPools.PoolSystem.NewPool` | track-c/runtime/dma_accel_buffer_pool.cpp:39-51 | A new pool has every buffer free, once; a refused allocation leaves no pool; other pools are unchanged. |
| `BufferPools.PoolSystem.Acquire` | track-c/runtime/dma_accel_buffer_pool.cpp:53-60 | Takes the last free buffer, or nothing from an empty pool; the partition is kept. |
| `BufferPools.PoolSystem.ReleaseIfHeld` | track-c/runtime/dma_accel_buffer_pool.cpp:27-33 | Returns a held buffer to its own pool and empties the handle. |
| `BufferPools.PoolSystem.MoveConstruct` | track-c/runtime/dma_accel_buffer_pool.cpp:10-14 | The buffer moves to the new handle and the old one is empty. |
| `BufferPools.PoolSystem.MoveAssign` | track-c/runtime/dma_accel_buffer_pool.cpp:16-25 | Self-assignment changes nothing; otherwise the old buffer is returned first, also across pools. |
| `BufferPools.PoolSystem.Destroy` | track-c/runtime/dma_accel_buffer_pool.cpp:35 | A destroyed handle returns its buffer. |

## Left out

- PCI probe and remove, MMIO registers, MSI setup and the self-tests: hardware bring-up; the model starts after probe with driver and device counters in agreement.
- RESET and aborted commands, and what the device computes: the device is an environment that fetches in ring order and posts one completion per fetched command; its arithmetic is an arbitrary function in `SequentialEquivalence`.
- copy_from_user and copy_to_user faults, mmap and errno numbers: an ioctl is admitted with an id or fails; a signal during the admission wait is the step that gives up.
- Wrap-around of the 64-bit command id counter: ids are unbounded.
- Ring properties under unsynchronised submitters: `sq_tail` is updated without a lock, so the ring results hold for serialised submission only; accounting, liveness and memory results hold at the fine grain.
- The wake-ups after the decrement (track-a/dma_accel_drv.c:373-374): session liveness is proved up to the decrement.
- DriverDevice.DmaDevice.Submit: runs to its end as one step, so a blocked wait ends interrupted and the loop that retries after a wake-up is not in this method; the retries are `ReadQuota`, `Register` and `WaitRun` steps of the fine model.
- DriverDevice.DmaDevice.RouteOne: the other fields of a session (`inflight`, `owned_buffers`) are entries of maps, named by the session's address, instead of fields of a session object.
- Serial submits in `SerialDriver` take any descriptor that validation lets through rather than the request; `ValidatedIsBacked` and `SubmitOutcome` join the two.
- StreamRuntime.StreamObject.Wait: a deadline is a number of polls, not wall-clock time, and a wait without end returns false.
- StreamRuntime.StreamObject.Submit: the driver's fresh id is a parameter; that ids are fresh is proved in `StreamGuarantees`. The three public submit variants differ only in the request they fill in.
- Moves of Streams, Contexts and groups, and lifetimes behind non-owning references: objects stay in place and alive (the Stream's moves do not carry `submission_order_`).
- Groups used as dependencies are sealed, dependencies belong to the same engine and deferred submissions do not throw; handles are indices into the registry.
- SequentialEquivalence.SequentiallyEquivalent: each command takes effect at one point between submission and completion.
- Schedulers.StreamScheduler.Run: the returned Fences are represented by the requests dispatched.
- BufferPools.PoolSystem.NewPool: pools and handles are entries of maps instead of objects that refer to each other.
- Floating-point rounding: products are over integers, with `PartialSumsExact` as the bridge; GEMM stages 1 and 2 are special cases.
- TiledGemm.AccumulateTile: fills the A and B tiles where they are used instead of keeping them in a grid, which gives the same contents.
- TiledGemm.TiledProduct: keeps the output tiles as a grid of rows instead of a flat vector.
- CommandBatch, StreamObserver, Context, the SCALE_ADD row program, kctl and the test programs: thin wrappers or empirical; they would only add easy members.
