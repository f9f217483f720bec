# AymOS: verified models of the kernel, its heap, its trace and its FIR filter

AymOS is a small real-time kernel for a Cortex-M4: four user task slots and
idle, deadline-first scheduling with periodic releases, a task-owned next-fit
heap, an event trace that a host tool decodes strictly, and a Q15 FIR filter.
This Dafny project models those parts and proves what they are for.

Check everything with `dafny verify dfyconfig.toml`.

How the files fit together:

- Kernel. `Scheduler` holds the policy on single entries and the deadline order.
  `KernelModel` is the kernel as a state machine: each handler is one atomic
  step, a panic is a terminal outcome, and every trace emission is appended to
  a log. `KernelTasks`, `KernelInvariant` and `KernelSteps` prove the invariant
  step by step; `KernelRuns`, `KernelSleep`, `KernelRequests` (what creators asked
  for) and `KernelCalls` (what callers get) state the theorems about every
  reachable state and every run, and `KernelWitness` holds concrete runs.
  `SchedulerTable` and `KernelMachine` are the same handlers over static tables
  that are updated in place, each proved to compute the model step.
- Heap. `HeapChain`, `HeapModel`, `HeapLaws`, `HeapCursor`, `HeapRuns` are the block
  list and its laws; `HeapImage` and `Allocator` are the linked headers in memory and the
  class that walks and rewrites them.
- Trace. `TraceRing` and `TraceRingMachine` are the bounded ring against its
  unbounded history; `TraceSelection` and `TraceEmitter` build selection batches;
  `TraceRules` is what the decoder demands of records; `TraceWire`, `Crc`,
  `TraceEncoder` are the bytes and the firmware that writes them;
  `TraceDecoder` and `TraceValidator` are the strict decoder; `SnapshotMeaning` is
  what a snapshot it accepts means; `TraceCorruption` is what the CRC guarantees.
  `TraceReplay` is a reader of records that believes no number it cannot check.
- Across components. `KernelTrace`, `KernelHonesty`, `KernelAccounts` and
  `KernelTiming` relate the kernel's log to the decoder's rules; `KernelReplay`
  shows that the reader follows the kernel in every run; `EndToEnd` goes from
  booting the kernel to decoding its drained trace, and its method
  `FinishAndDecode` joins the executed pieces; `HostView` lets the reader loose on
  what was decoded.
- `Context` and `ContextMachine` are the PendSV entry code over R4-R11, the
  process stack pointer and the task stacks. `Fir` is the filter.

What the kernel runs assume of their environment is the predicate
`KernelModel.Enabled`: a thread-mode service comes from the running user task
while no PendSV is pending; idle calls no service; PendSV finds a stack pointer
that its task kept inside its own stack; SysTick may occur at any point, also
between a service and its PendSV (it is the more urgent exception, section
B1.5.4 of the ARMv7-M Architecture Reference Manual); PendSV is atomic because
it masks interrupts. Creation and the memory services may also be repeated while
a PendSV is pending, by a caller that masks interrupts.

Where the code falls short of what a reader may expect, the exact condition is
proved:

- Global deadline-first order can fail after a voluntary yield, because the
  dispatcher must pass over the yielder (`OrderBreaksAfterAYield` is such a run).
  A yield keeps the order if and only if nobody else is ready or the yielder does
  not come first (`YieldKeepsOrderExactly`); a PendSV keeps it if and only if
  nobody is excluded, the excluded task is the only ready one, or another ready
  task precedes it (`DispatchKeepsOrderExactly`). In every run without yields the
  order holds (`YieldFreeRunsAreDeadlineFirst`), and with yields it holds for
  everybody but the task passed over (`RunningTaskIsFirst`).
- The decoder refuses three kinds of records the kernel can emit: an allocation
  of zero bytes, a successful free of the null pointer, and a creation probe for
  a task that some ready task precedes. `StepIsWellTraced` says that a step emits
  one exactly when it misleads, and `DecodesExactlyHonestRuns` that the trace of a
  run decodes if and only if no step misled and the ring lost nothing.
  `ZeroAllocationAndNullFreeOccur` and `ProbeBehindAYielderOccurs` are runs from
  initialisation that end in each of them.

## Model

| member | source | states |
|---|---|---|
| `KernelRuns.StepSafe` | kernel/src/kernel.c:458-695 | From every state that satisfies the kernel invariant, every enabled step (creation, each service, memory call, SysTick, PendSV, in any interleaving) keeps the invariant, and panics exactly when the 64-bit clock, the next period boundary or a wake-up instant does not fit |
| `KernelRuns.NeverTwoRunners` | kernel/src/kernel.c:785-800 | In every reachable state at most one task runs and it is the current one, idle is READY or RUNNING, a user task has an active job iff it is READY, RUNNING or SLEEPING, a pending preemption still has somebody who outranks the outgoing task, and no panic but clock exhaustion is reachable |
| `KernelRuns.RunningTaskIsFirst` | kernel/src/kernel.c:562-636 | Whenever no PendSV is pending the running task precedes every ready user task by deadline, priority and id, save only the task the last dispatch had to pass over because it yielded |
| `KernelRuns.YieldFreeRunsAreDeadlineFirst` | kernel/src/kernel.c:679-694 | In every run without yields the running task is globally the minimum of itself and all ready user tasks |
| `KernelRuns.YieldPassesOverTheFirst` | kernel/src/kernel.c:469-481 | When somebody else is ready, a yield of the first task always leaves it READY and outranking the task that runs next |
| `KernelRuns.YieldKeepsOrderExactly` | kernel/src/kernel.c:469-482 | A yield and its PendSV leave the first of all ready tasks running iff nobody else is ready or the yielder does not come first, both of which can be told before the yield |
| `KernelRuns.DispatchKeepsOrderExactly` | kernel/src/kernel.c:594-610 | Every PendSV, however late after the yield, leaves the first of all ready tasks running iff nobody is excluded, the excluded task is the only ready one, or another ready task precedes it |
| `KernelWitness.OrderBreaksAfterAYield` | kernel/src/kernel.c:594-610 | A run from initialisation after which the task with deadline 30 runs although the one with deadline 10 is ready |
| `KernelRuns.DispatchPicksTheLeast` | kernel/src/kernel.c:594-610 | Every PendSV picks the least ready task other than the excluded one, the excluded one only when it is alone, idle only when nobody is ready, and makes exactly that task running |
| `KernelRuns.CadenceLosesNothing` | kernel/src/scheduler.c:172-193 | Between ticks the jobs given to a periodic task and the releases it skipped number exactly the period boundaries that have passed, and the next boundary is first release plus that many periods and still to come (while neither counter is saturated) |
| `KernelRuns.JobsStartOnTime` | kernel/src/scheduler.c:104-113 | A waiting task's job is activated at exactly the tick of its release, with its whole relative deadline ahead of it, and at no other tick |
| `KernelSleep.SleepLastsExactly` | kernel/src/kernel.c:257-268 | Over every run that follows, the caller of os_sleep(n) stays asleep on the same job at every instant before the n-th tick and no longer from that tick on |
| `KernelSleep.StepSleeps` | kernel/src/scheduler.c:115-123 | No step wakes a sleeping task but the tick of its wake-up instant, which readies it with the same job |
| `KernelRuns.DeadlineAccountingIsExact` | kernel/src/scheduler.c:140-170 | Between handlers an active job is latched missed iff the clock has reached its deadline, and the job number exceeds the completed count by one iff a job is active (unsaturated) |
| `KernelRuns.NoBlockIsInherited` | kernel/src/kernel.c:865-888 | Every live heap block belongs to a user slot that is not DORMANT, so a created task never owns a block from an earlier occupant of its slot |
| `KernelRequests.EveryTaskIsAsRequested` | kernel/src/kernel.c:165-220 | Over every run: each occupant has the kind, period, relative deadline, budget, priority and stack size of the creation that took its slot; its active job was released at an instant of that request and is due the requested deadline later; a waiting task waits for such an instant, a one-shot for the first |
| `KernelRequests.CadenceIsAsRequested` | kernel/src/scheduler.c:57-92 | Over every run the jobs given to a periodic task and the releases it skipped number exactly the instants (time of the request) + delay + n * period that have passed, and the next such instant is announced (while neither counter is saturated) |
| `KernelRequests.CreationSucceedsExactly` | kernel/src/kernel.c:165-199 | In every reachable state creation succeeds iff the request is well formed (stated in numbers), its first deadline and second release fit the clock, the caller is a running user task or the kernel has not started, and a slot is empty; it takes the lowest empty slot; a refusal changes nothing |
| `KernelRequests.CreationInstalls` | kernel/src/kernel.c:201-214 | A success configures exactly that slot, gives it a stack of the requested size in its own kilobyte with the initial frame at its top, and leaves every other slot alone |
| `KernelCalls.BootSucceedsExactly` | kernel/src/kernel.c:95-145 | Initialisation succeeds iff the stack pool is aligned and the aligned heap region holds a header and a doubleword; it sets up idle, one free block over that region, and nothing else |
| `KernelCalls.SleepAnswers` | kernel/src/kernel.c:257-268 | A sleep of 1 to 2^31 - 1 ticks answers 1 and asks for a switch; any other answers 0 and changes nothing |
| `KernelCalls.WaitAnswers` | kernel/src/kernel.c:270-278 | A periodic caller gets 1 and a switch, any other 0 and nothing changes |
| `KernelCalls.AllocAnswers` | kernel/src/kernel.c:356-375 | In every reachable state a running user task gets null iff nothing fits and otherwise the payload of a live block of its own that is large enough, with a record of the request and the offset; anybody else gets null and changes nothing |
| `KernelCalls.FreeAnswers` | kernel/src/kernel.c:377-396 | In every reachable state a running user task gets 1 iff the pointer is null or the payload of a block it holds; anybody else gets 0 and changes nothing |
| `KernelCalls.TickCounts` | kernel/src/kernel.c:638-646 | SysTick advances the clock by one tick, and does nothing before the kernel runs |
| `KernelReplay.TraceTellsTheTable` | kernel/src/kernel.c:896-903 | In every reachable state a reader of the log alone, who stops at the first record whose numbers do not fit the tick it stands at or earlier records, has accepted every record and knows each slot's phase, kind, priority, deadline, job number, miss latch, counters, wake-up and announced release, the running task, the cause of the pending switch, the reclaimed slots, and every live block with its owner |
| `KernelReplay.DeadlinesAreTold` | kernel/src/kernel.c:896-903 | In every run each miss record stands at exactly the tick it names, each met record before it, each skipped release at it; every outcome, start and wake-up names the deadline and number of a job that an earlier record released |
| `HostView.DecodedTraceTellsTheTable` | tools/aymos_lab/trace.py:179-343 | Whatever decodes from the drained trace of a run, read record by record, gives the kernel's own view of its tasks and heap at the end of the run |
| `KernelTasks.TickKeepsTask` | kernel/src/kernel.c:649-677 | One tick of one task: it becomes ready exactly at its release or wake instant, keeps the deadline and rank of a job it already had, keeps the per-task invariant, and exhausts the time range exactly when the next boundary overruns the clock |
| `KernelTasks.TickKeepsCadence` | kernel/src/scheduler.c:265-294 | A tick never breaks next release = first + (jobs + skipped) * period |
| `KernelTasks.TickChargesTheRunner` | kernel/src/scheduler.c:195-202 | A tick is charged to the running job and to nobody else; a job that starts at the tick has used none |
| `KernelTasks.CompletionHolds` | kernel/src/kernel.c:509-517 | A completion never latches a deadline miss itself: SysTick has done so iff the deadline has passed |
| `KernelInvariant.CreateHolds` | kernel/src/kernel.c:165-234 | Creation never panics from a good state, keeps the invariant, and on success starts the slot's release history at now plus the initial delay |
| `KernelSteps.TickHolds` | kernel/src/kernel.c:638-695 | SysTick keeps the invariant and panics exactly on clock exhaustion, also between a service and its PendSV |
| `KernelSteps.PendSvHolds` | kernel/src/kernel.c:562-636 | PendSV never panics from a good state; the new running task is the scheduler's choice over the settled table and the rest of the table is unchanged |
| `KernelSteps.PreemptionStands` | kernel/src/kernel.c:619-625 | With preemption sources pending the choice is never the outgoing task |
| `KernelSteps.NextIsBest` | kernel/src/scheduler.c:230-263 | With nobody running a ready task is always found and no ready task but the excluded one outranks it |
| `KernelSteps.CandidateDecides` | kernel/src/kernel.c:681-685 | The SysTick probe asks for a switch iff some ready task outranks the running one |
| `Scheduler.BeforeIsStrictTotalOrder` | kernel/src/scheduler.c:204-228 | The lexicographic key is a strict total order, and os_sched_outranks decides exactly it on runnable user tasks |
| `Scheduler.SelectChoosesMinimum` | kernel/src/scheduler.c:230-263 | The selection is the unique minimum of the eligible tasks, else the excluded task if runnable, else idle if ready, else none |
| `SchedulerTable.SelectEntry` | kernel/src/scheduler.c:230-263 | The in-place scan over the table computes that selection |
| `SchedulerTable.ConfigureEntry` | kernel/src/scheduler.c:57-92 | The in-place update equals Configure on the entry, touches no other slot, and reports success alike |
| `SchedulerTable.Activate` | kernel/src/scheduler.c:265-294 | Likewise for job activation, including the range-exhausted branch |
| `SchedulerTable.SkipEntry` | kernel/src/scheduler.c:172-193 | Likewise for a release that arrives while a job is active |
| `SchedulerTable.CompleteEntry` | kernel/src/scheduler.c:140-149 | Likewise for job completion with its deadline check |
| `SchedulerTable.SleepEntry` | kernel/src/scheduler.c:125-138 | Likewise for sleep |
| `SchedulerTable.ReleaseEntry` | kernel/src/scheduler.c:104-113 | Likewise for a due release |
| `KernelMachine.System.Init` | kernel/src/kernel.c:95-145 | Initialisation in place yields the boot state, or the panic the model names; a second call changes nothing |
| `KernelMachine.System.CreateTask` | kernel/src/kernel.c:165-234 | The handler over the static tables, ring and allocator computes the model step Create, with its result or panic |
| `KernelMachine.System.StartKernel` | kernel/src/kernel.c:236-253 | Starting marks the kernel running and records it, or panics on a second start: the model step Start |
| `KernelMachine.System.ServeStart` | kernel/src/kernel.c:463-468 | The handler computes the model step StartSvc |
| `KernelMachine.System.ServeYield` | kernel/src/kernel.c:469-481 | The handler computes the model step Yield |
| `KernelMachine.System.ServeSleep` | kernel/src/kernel.c:482-501 | The handler computes the model step Sleep, including the API's refusal |
| `KernelMachine.System.ServeExit` | kernel/src/kernel.c:502-526 | The handler computes the model step Exit, with its deadline outcome |
| `KernelMachine.System.ServeWaitPeriod` | kernel/src/kernel.c:527-554 | The handler computes the model step WaitPeriod |
| `KernelMachine.System.ServeTick` | kernel/src/kernel.c:638-695 | The handler with its loop over slots computes the model step Tick |
| `KernelMachine.System.SwitchContext` | kernel/src/kernel.c:562-636 | The handler computes the model step PendSv: save, retire or reclaim, select, trace, commit |
| `KernelMachine.System.Reclaim` | kernel/src/kernel.c:865-888 | Reclaiming sweeps the heap and frees the slot; the allocator's self-checks before and after it cannot fail |
| `KernelMachine.System.AllocMemory` | kernel/src/kernel.c:356-375 | The service computes the model step MemoryAlloc |
| `KernelMachine.System.FreeMemory` | kernel/src/kernel.c:377-396 | The service computes the model step MemoryFree |
| `KernelMachine.System.VerifyState` | kernel/src/kernel.c:785-800 | The counting loop decides that nobody runs before the kernel does and that exactly the current task runs once a context is active |
| `KernelMachine.System.RequestPreemption` | kernel/src/kernel.c:926-946 | Accumulating a source yields the combined cause, or the mask panic |
| `KernelTrace.ChoiceBatchOk` | tools/aymos_lab/trace.py:346-448 | A selection batch the kernel can emit passes the decoder's record and snapshot rules iff the selected task is the least countable candidate |
| `KernelTrace.DispatchIsLeast` | kernel/src/kernel.c:606-607 | Every dispatch batch is well posed and names the least candidate |
| `KernelTrace.ProbeIsLeast` | kernel/src/kernel.c:683-689 | Every SysTick probe is well posed and names the least of everybody it lists |
| `KernelTrace.StepIsWellTraced` | kernel/src/kernel.c:458-695 | All records of a step satisfy the decoder's rules iff the step does not mislead: no zero-size allocation, no null free, no creation probe for a task that some ready task precedes |
| `KernelTrace.CreateLog` | kernel/src/kernel.c:222-229 | A creation's records satisfy the decoder iff it does not both ask for a switch and find a ready task before the newcomer |
| `KernelTrace.AllocLog` | tools/aymos_lab/trace.py:513-516 | The record of an allocation is accepted iff the size is not zero |
| `KernelTrace.FreeLog` | tools/aymos_lab/trace.py:517-519 | The record of a free is accepted iff the pointer is not null |
| `KernelTrace.CreationByTheFirstIsHonest` | kernel/src/kernel.c:222-229 | While the running task precedes all ready tasks, no creation misleads |
| `KernelWitness.ProbeBehindAYielderOccurs` | kernel/src/kernel.c:222-229 | A run from initialisation, honest so far, after which creating a task between a yielder and the running one is possible and emits a probe that no numbering and no continuation makes acceptable |
| `KernelWitness.ZeroAllocationAndNullFreeOccur` | kernel/src/kernel.c:356-396 | A run from initialisation, honest so far, after which a zero-size allocation and a free of the null pointer are possible and each ends the log with a record that is never acceptable |
| `KernelTrace.HonestRunsAreWellTraced` | kernel/src/kernel.c:562-695 | The log of every honest run satisfies all record and selection rules |
| `KernelHonesty.MisleadingStepIsRefused` | kernel/src/kernel.c:222-229 | A misleading step ends the log with a batch that no numbering and no continuation can make acceptable |
| `KernelAccounts.TraceAccountsBalance` | kernel/src/kernel.c:458-560 | Over every run and slot: releases = completions + active job; met + missed = completions + latched active miss; creations = exits + occupant; sleeps = wake-ups + sleeper |
| `KernelTiming.RunsAreTimed` | kernel/src/kernel.c:638-646 | Log ticks never go back nor past the clock, and every batch fits the ring's limits |
| `TraceSelection.DecoderAgrees` | tools/aymos_lab/trace.py:346-448 | For every well-posed choice the decoder's re-derivation from the snapshot, marks, mask, counts, purpose and sorted reason, accepts iff the selected task is least |
| `TraceSelection.ReasonHolds` | kernel/src/trace_runtime.c:273-313 | The reason from the runner-up scan is the one the decoder finds by sorting |
| `TraceSelection.ReasonTells` | kernel/src/trace_runtime.c:273-313 | The reason code says in numbers what decided: idle, the excluded task alone, no competitor, or the deadline, priority or number against the second best |
| `SnapshotMeaning.AcceptedSnapshotIsAChoice` | tools/aymos_lab/trace.py:346-448 | Every snapshot that passes the decoder's record and snapshot rules is the picture, in any order, of a well-posed choice over some task table in which the named task is the least candidate, with its mask, counts, marks and reason |
| `TraceRules.RulesAreTheTable` | tools/aymos_lab/trace.py:451-541 | The role and payload rules are, event number by event number, a table of admissible task numbers and value ranges with the ties between values and tick |
| `TraceEmitter.BuildSelection` | kernel/src/trace_runtime.c:67-146 | The two loops over the table fill the buffer with exactly the summary and the listed candidates in id order |
| `TraceEmitter.FindReason` | kernel/src/trace_runtime.c:273-313 | The runner-up loop yields the selection reason |
| `TraceEmitter.MaskOfReady` | kernel/src/trace_runtime.c:329-338 | The bit loop yields the READY mask |
| `TraceRingMachine.RingBuffer.PushBatch` | kernel/src/trace.c:55-117 | In a circular buffer updated in place, the push is the model's: whole batch in order, or nothing, with counters and exhaustion |
| `TraceRingMachine.RingBuffer.Pop` | kernel/src/trace.c:119-130 | The oldest record leaves, the rest stay in order |
| `TraceRingMachine.RingBuffer.ReportOverflow` | kernel/src/trace.c:132-150 | The in-place report is the model's |
| `TraceRingMachine.RingBuffer.Close` | kernel/src/trace.c:152-171 | Closing snapshots the counters and disables the ring, once |
| `TraceRing.PushExtendsHistory` | kernel/src/trace.c:55-117 | A push extends the unbounded history by its batch, kept whole at consecutive sequence numbers or dropped whole, and says exactly when it is kept |
| `TraceRing.PopIsOldest` | kernel/src/trace.c:119-130 | Pops hand out the kept records in order, none twice |
| `TraceRing.DueReportCommitsOne` | kernel/src/trace.c:132-150 | Past its guard a loss report commits exactly one record, which tells how many attempts had been dropped, seen and kept, and is then no longer due |
| `TraceRing.SequenceCountsDrops` | kernel/src/trace.c:72-104 | The k-th kept record has sequence k plus the drops before it |
| `TraceRing.FooterCountsHistory` | kernel/src/trace.c:152-171 | Closing reports exactly the attempts, kept and dropped ones of the history, the number of the last attempt and whether the numbers ran out, and nothing enters afterwards |
| `TraceRing.EveryRunIsFaithful` | kernel/src/trace.c:38-171 | From a fresh ring, over every sequence of operations, the records handed out and held are exactly the kept attempts, and attempted = emitted + dropped until saturation |
| `TraceRing.ZeroLossCloses` | kernel/src/trace.c:152-171 | A ring that lost nothing closes with consecutive sequences and a footer that the decoder's checks accept |
| `TraceWire.RecordRoundTrip` | kernel/src/trace_runtime.c:259-271 | Record encoding and decoding undo each other, on all records and all 32-byte payloads |
| `TraceWire.FooterRoundTrip` | kernel/src/trace_runtime.c:182-192 | Likewise for the footer |
| `TraceWire.RecordLayout` | kernel/src/trace_runtime.c:259-271 | Which bytes of a record payload hold which field, lowest byte first |
| `TraceWire.FooterLayout` | kernel/src/trace_runtime.c:182-192 | Likewise for the footer |
| `TraceWire.FrameLayout` | kernel/src/trace_runtime.c:231-257 | Which bytes of a frame hold the sync word, version, kind, schema, length, flags, payload and check |
| `TraceWire.BannersAreText` | tools/aymos_lab/trace.py:15-17 | The sync word and banner lines are these texts |
| `TraceWire.FrameIsHeaderAndCrc` | tools/aymos_lab/trace.py:206-239 | A frame starts at an offset iff its fixed header bytes and the CRC over the covered bytes match |
| `TraceDecoder.ReadFrame` | tools/aymos_lab/trace.py:206-239 | The frame checks succeed iff the bytes at the offset are the encoding of some record or footer frame, and an error names the first fault |
| `TraceDecoder.CheckRecord` | tools/aymos_lab/trace.py:258-278 | The record checks succeed iff fields, sequence and time are in order, and an error names the first fault |
| `TraceDecoder.DecodeFrames` | tools/aymos_lab/trace.py:200-292 | The frame loop succeeds iff a continuous trace body of at most 4096 frames starts there, and returns the only one |
| `TraceValidator.Decode` | tools/aymos_lab/trace.py:179-343 | The decoder succeeds iff the bytes are the encoding, bare or between the banner lines, of an acceptable zero-loss trace; it returns that trace and its raw payloads |
| `TraceValidator.ValidateSelections` | tools/aymos_lab/trace.py:346-448 | The pass over the records decides the selection rule |
| `TraceValidator.CheckFooter` | tools/aymos_lab/trace.py:294-320 | The footer checks decide completeness, zero loss, final sequence and final tick, and an error names the first fault |
| `TraceEncoder.Crc32Of` | kernel/src/trace_runtime.c:218-229 | The bit loop over a buffer computes the CRC |
| `Crc.CheckOfNineDigits` | kernel/src/trace_runtime.c:218-229 | The check of the digits 123456789 is 0xCBF43926 |
| `TraceWire.CrcResidue` | kernel/src/trace_runtime.c:218-229 | Any data followed by its check has the check 0x2144DF1C, the residue of this polynomial, initial value and complement |
| `TraceWire.FrameResidue` | tools/aymos_lab/trace.py:235-239 | The bytes of every frame after its sync word have that residue |
| `TraceEncoder.WriteRecord` | kernel/src/trace_runtime.c:259-271 | The in-place writes lay out the record encoding |
| `TraceEncoder.BuildFrame` | kernel/src/trace_runtime.c:231-257 | The in-place writes lay out the frame encoding |
| `TraceEncoder.TraceRuntime.Finish` | kernel/src/trace_runtime.c:152-196 | Finishing sends exactly the held records in order and then the footer; a refusing UART ends the drain after the frames it accepted; only idle may finish, once |
| `TraceEncoder.TraceRuntime.EmitSelection` | kernel/src/trace_runtime.c:67-150 | A choice is produced into the ring as one batch, after a due loss report |
| `Crc.WindowCorruptionIsDetected` | kernel/src/trace_runtime.c:218-229 | Byte strings that differ only within four consecutive bytes have different CRCs |
| `TraceCorruption.CorruptPayloadNeverDecodes` | tools/aymos_lab/trace.py:235-239 | Damage of at most four consecutive bytes inside any payload of any encoded trace leaves nothing that decodes |
| `EndToEnd.NoLossMeansWhole` | kernel/src/trace_runtime.c:53-150 | A ring that has dropped nothing holds the whole log, batch after batch, numbered from 0 |
| `EndToEnd.HonestRunsDecode` | kernel/src/trace_runtime.c:152-196 | The drained trace of an honest run that lost nothing encodes exactly the kernel's events in order |
| `EndToEnd.DecodesExactlyHonestRuns` | tools/aymos_lab/trace.py:179-343 | The drained trace of any run decodes iff the run was honest and its ring lost nothing |
| `EndToEnd.LossyNeverDecodes` | tools/aymos_lab/trace.py:294-320 | The trace of a ring that dropped a record or ran out of sequence numbers never decodes, with or without the banner |
| `EndToEnd.FinishAndDecode` | kernel/src/trace_runtime.c:152-196 | Over the static tables, the in-place ring, the UART drain and the decoder together: what idle sends decodes iff the run was honest and lost nothing, and yields exactly the kernel's events in order with the final tick |
| `AllocatorMachine.Allocator.BlockChainValid` | kernel/src/allocator.c:317-382 | The self-check, with its block bound, accepts iff memory holds a true partition of the arena that agrees with the bookkeeping, and accepts every reachable state |
| `AllocatorMachine.Allocator.Init` | kernel/src/allocator.c:49-91 | Initialisation in place lays one free block over the aligned arena, or reports why not |
| `AllocatorMachine.Allocator.Alloc` | kernel/src/allocator.c:98-166 | Search, split and bookkeeping over linked headers compute the model allocation |
| `AllocatorMachine.Allocator.Free` | kernel/src/allocator.c:168-193 | Release and coalescing over linked headers compute the model free |
| `AllocatorMachine.Allocator.ReleaseOwner` | kernel/src/allocator.c:195-221 | Mark-all and one coalescing pass compute the model sweep |
| `AllocatorMachine.Allocator.CoalesceAll` | kernel/src/allocator.c:446-456 | The in-place pass merges every run of free neighbours and moves the cursor |
| `AllocatorMachine.Allocator.GetStats` | kernel/src/allocator.c:223-255 | The statistics are those of the block list |
| `AllocatorMachine.Allocator.CountFragments` | kernel/src/allocator.c:257-275 | The count is that of free blocks smaller than the rounded request |
| `HeapChain.CanonicalIsUnique` | kernel/src/allocator.c:446-456 | A canonical list is a function of the arena and its live blocks |
| `HeapModel.SearchIsFirstFit` | kernel/src/allocator.c:118-165 | The search returns the first fitting block in circular order, visiting each block at most once |
| `HeapLaws.AllocFailsExactly` | kernel/src/allocator.c:98-135 | Allocation fails iff the request is void, overflows the rounding, or no free block has the rounded size; a refusal changes one counter |
| `HeapLaws.AllocIsNextFit` | kernel/src/allocator.c:118-166 | A success returns the aligned payload of the first fitting block from the cursor and adds exactly that live block |
| `HeapCursor.AllocMovesCursor` | kernel/src/allocator.c:137-146 | After a success the cursor stands right behind the granted block, or at the first block when that was the last; the grant holds the rounded request with less than a header and a doubleword to spare, and is cut to size when there was more |
| `HeapCursor.AllocsAdvance` | kernel/src/allocator.c:118-146 | An allocation for which the block at the cursor is large enough takes that block, also when an earlier hole would do |
| `HeapCursor.FreeCarriesCursor` | kernel/src/allocator.c:428-456 | A free leaves the cursor on the block that now holds the address it stood on; a refused one does not move it |
| `HeapCursor.SweepRestartsCursor` | kernel/src/allocator.c:213-216 | A sweep that releases something puts the cursor back to the first block |
| `HeapModel.FragmentsAreCounted` | kernel/src/allocator.c:257-275 | The fragment count is the number of free blocks below the rounded request |
| `HeapLaws.FreeRemovesExactlyThatBlock` | kernel/src/allocator.c:168-193 | A free succeeds iff the pointer is the payload of a live block of that owner, and removes exactly that block |
| `HeapLaws.AllocThenFreeRestoresList` | kernel/src/allocator.c:118-193 | Freeing a result at once restores the block list and byte count |
| `HeapLaws.ReleaseKeepsInvAndOthers` | kernel/src/allocator.c:195-221 | The sweep returns the owner's block count and leaves every other live block's address, capacity and owner |
| `HeapLaws.SweepEqualsRepeatedFree` | kernel/src/allocator.c:195-221 | The sweep reaches exactly the list, byte count and free counter of freeing the owner's blocks one by one in any order |
| `HeapRuns.HeapIsConserved` | kernel/src/allocator.c:149-155 | Over every run: payload plus headers is the arena, the byte counter is the live sum, the watermark is the maximum ever, allocations minus frees is the live count (unsaturated) |
| `Fir.Validate` | dsp/src/fir_q15_common.c:45-85 | Each status in order of failure; the overlap status means that the output shares a byte with an input |
| `Fir.VerdictMeans` | dsp/src/fir_q15_common.c:45-85 | Each status with its exact condition in numbers, so that the order of the checks is fixed |
| `Fir.Scalar` | dsp/src/fir_q15_scalar.c:6-31 | In place, over one memory: the outputs are the truncated and saturated sums of products, nothing else changes, nothing at all on refusal |
| `Fir.PackedPortable` | dsp/src/fir_q15_packed_portable.c:28-62 | The two-lane loop with its odd tail has the same result |
| `Fir.CortexM4` | dsp/src/fir_q15_m4.c:21-59 | The dual multiply-accumulate loop over a wrapping 64-bit word has the same result |
| `Fir.AccumulatorBound` | dsp/src/fir_q15_scalar.c:20-29 | Every partial sum stays within 2^36 |
| `Fir.QuotientFits` | dsp/src/fir_q15_common.c:87-91 | Narrowing the quotient to 32 bits loses nothing |
| `Fir.TruncationRoundsToZero` | dsp/src/fir_q15_common.c:87-91 | The quotient by 32768 rounds toward zero |
| `Fir.OutputScale` | dsp/src/fir_q15_common.c:87-101 | Inside the limits an output is the sum of products over 32768 without its fraction, and it sits on a limit iff that quotient reaches or passes it |
| `Fir.ImpulseDot` | dsp/src/fir_q15_scalar.c:20-26 | A single tap of any weight at position t picks out sample i + t with that weight |
| `Fir.DotIsLinear` | dsp/src/fir_q15_scalar.c:20-26 | The sum of products is additive in the taps, so single taps determine it |
| `Fir.ImpulseNegates` | dsp/src/fir_q15_scalar.c:6-31 | A filter whose only tap is -1.0 at position t returns the samples from t on, negated and saturated |
| `Fir.ModularSumDecodes` | dsp/src/fir_q15_m4.c:13-19 | The wrapped sum decodes to the exact sum |
| `Fir.LanesUnpack` | dsp/src/fir_q15_internal.h:17-22 | Packing two values and reading the signed lanes gives them back |
| `Context.SwitchKeeps` | arch/arm_cm4/context_switch.S:30-52 | A switch resumes its task with the stack pointer, R4-R11 and exception frame kept for it, and leaves every other context intact in its own slot |
| `Context.ResumedAsSuspended` | arch/arm_cm4/context_switch.S:30-52 | Over any number of computations, handlers, creations and switches in between, a suspended task is resumed with exactly what it was suspended with |
| `Context.SwitchOutRecords` | arch/arm_cm4/context_switch.S:30-41 | A task that is switched out and not chosen again at once is kept with the stack pointer, registers and exception frame it had |
| `Context.NewTaskStartsAsCreated` | kernel/src/kernel.c:755-776 | A new task is first resumed with R4 to R11 zero, the stack pointer one frame below the top of the stack it asked for, and a frame holding its argument, the return guard, the entry and the Thumb bit, whatever happened in between |
| `Context.SwitchNeverFails` | kernel/src/kernel.c:827-840 | With room below the stack pointer the handler always finds a context to resume |
| `Context.BootedIsGood` | kernel/src/kernel.c:755-776 | After initialisation idle's initial frame is a valid suspended context |
| `ContextMachine.Cortex.PendSvHandler` | arch/arm_cm4/context_switch.S:30-52 | The entry code over registers and stack words in place performs that switch; the push, the choice and the reload each demand the interrupt mask, which is taken first and restored last |

## Left out

- Hardware plumbing: clock, GPIO, UART, vendor startup, linker script, simulation models, applications and their expected schedules; they are configuration or finite oracles.
- Memory fences, NMI and HardFault paths, the panic output; a panic is a terminal outcome.
- SVC opcode decoding, EXC_RETURN checks, the IPSR checks and the `initialized` checks of the services after start-up; the service is the step's label, and null-pointer parameters of the kernel API are excluded by construction.
- Task entry points and arguments, and the trampoline checks on them; they appear only as words of the initial frame.
- The 32-bit `*_tick` copies of the 64-bit orders, `os_task_info` and the other read-only queries of kernel.c; they would only add easy members.
- Enumerations outside their declared values (a task kind other than the two, a selection purpose other than the three) and table entries whose id differs from their slot; the C functions guard against them, the kernel never builds them.
- KernelModel.Enabled: assumes that tasks keep their stack pointer inside their own stack and that idle calls no service, because nothing in the kernel enforces either.
- KernelRuns.CadenceLosesNothing: stated while neither counter has saturated at 2^32 - 1, because beyond that the counters no longer count.
- AllocatorMachine.Allocator.Init: block markers are modelled as the pair of cookie and address instead of their exclusive-or, so accidental equality of two markers is outside the model; `size_t` and pointers are 32-bit, as on the target.
- AllocatorMachine.Allocator.BlockChainValid: memory is a map from an address to the header that starts there, so writing one header never changes another that overlaps it; in a valid chain no two headers overlap, and what the check would read from overlapping garbage is outside the model.
- Deliberate corruption of heap metadata by tasks; the claims are about reachable states.
- TraceEncoder.TraceRuntime.Finish: a refused UART write sends nothing of that frame, because how many bytes of it left is up to the hardware.
- Shifts, masks and bit-or of the packed trace fields are modelled as the equal sums, quotients and remainders; the modulo of the ring indices as a conditional subtraction.
- TraceDecoder.ReadFrame: the resynchronisation hint in the error text, the field dictionary and the JSON output are not modelled; the error names the failed check.
- EndToEnd.FinishAndDecode: the UART is assumed to accept every frame and nothing to have been sent before; what a refusing UART leaves is the claim of TraceEncoder.TraceRuntime.Finish.
- `read_bounded` and the command line of the decoder, and the other host tools (HTML reports, signal lab, performance report): file handling and fixed projections.
- Fir.Scalar, Fir.PackedPortable, Fir.CortexM4: pointers must be aligned and name arrays that exist, as C requires of the caller.
- Context.ResumedAsSuspended: floating-point registers and the one-instruction window before interrupts are masked are not modelled; a running task may change any word of its own stack and no other.
- KernelReplay.TraceTellsTheTable: the records carry neither periods nor execution times nor block sizes, so the reader does not know them; what it says of a task's first, delayed release is only that it comes.
- Context.NewTaskStartsAsCreated: the frame's words are laid by the creation step as one action; the loop that zeroes them first is not modelled.
