/** The kernel as a state machine: four user slots and idle, task creation, the
    SVC services, SysTick and PendSV, each handler one atomic step. A panic is
    a terminal outcome. Trace emission is the log of attempted batches. */
module KernelModel {
  import opened Words
  import opened Scheduler
  import opened TraceTypes
  import opened TraceRules
  import opened TraceSelection
  import HeapModel

  const MIN_STACK := 256
  const MAX_STACK := 1024
  const FRAME_BYTES := 64

  const CAUSE_START: u8 := 1
  const CAUSE_YIELD: u8 := 2
  const CAUSE_SLEEP: u8 := 3
  const CAUSE_EXIT: u8 := 4
  const CAUSE_WAIT_PERIOD: u8 := 5
  const CAUSE_SYSTICK: u8 := 6
  const CAUSE_CREATE: u8 := 7
  const CAUSE_COALESCED: u8 := 8

  const SOURCE_SYSTICK: u8 := 1
  const SOURCE_CREATE: u8 := 2

  /** Stack bounds and saved stack pointer of a slot; 0 stands for NULL. */
  datatype Tcb = Tcb(savedPsp: nat, low: nat, high: nat, claimed: bool, started: bool)

  const UNCLAIMED := Tcb(0, 0, 0, false, false)

  /** Records attempted together at one tick. */
  datatype Batch = Batch(tick: u64, inputs: seq<Input>)

  datatype Kernel = Kernel(
    tasks: seq<Task>,
    tcbs: seq<Tcb>,
    current: u8,
    excluded: u8,
    cause: u8,
    sources: u8,
    now: u64,
    reclaims: u32,
    lastReclaimed: u8,
    running: bool,
    active: bool,
    pending: bool,
    heap: HeapModel.Heap,
    stackPool: nat,
    heapStart: u32,
    heapStop: u32,
    log: seq<Batch>)

  datatype PanicReason =
    | HeapInit | InitState | StackLayout | Transition | CreateState | StartState | SvcStart | SvcYield
    | SvcSleep | TaskSleep | SvcExit | ExitComplete | SvcPeriod | SavePsp | FirstPsp | Reclaim | HeapReclaim
    | HeapRelease | NextTask | PreemptCommit | PreemptMask | SwitchState | ArchPsp | TickRange | TaskTimeRange

  /** A finished step with its return value, or the fail-stop. */
  datatype Outcome = Go(k: Kernel, result: nat) | Panic(reason: PanicReason)

  predicate Formed(k: Kernel) {
    |k.tasks| == TASK_COUNT && |k.tcbs| == TASK_COUNT && forall i :: 0 <= i < TASK_COUNT ==> k.tasks[i].id == i
  }

  // ---- Helpers ----

  function Emit(k: Kernel, input: Input): Kernel {
    k.(log := k.log + [Batch(k.now, [input])])
  }

  function DeadlineInput(event: u8, t: Task): Input {
    Input(event, 0, t.id, NO_TASK, Low32(t.absoluteDeadline), High32(t.absoluteDeadline), t.jobSequence)
  }

  function EmitSelection(k: Kernel, c: Choice): Kernel
    requires Shaped(c)
  {
    k.(log := k.log + [Batch(k.now, SelectionBatch(c))])
  }

  function WithTask(k: Kernel, id: u8, t: Task): Kernel
    requires id < |k.tasks|
  {
    k.(tasks := k.tasks[id := t])
  }

  function StackLow(k: Kernel, id: u8): nat {
    k.stackPool + MAX_STACK * id
  }

  predicate LayoutValid(low: nat, high: nat) {
    low != 0 && low % 8 == 0 && high % 8 == 0 && high >= low + FRAME_BYTES
  }

  predicate PspValid(k: Kernel, id: u8, psp: nat) {
    && id < |k.tcbs| && psp != 0 && k.tcbs[id].low != 0 && k.tcbs[id].high != 0
    && k.tcbs[id].high >= k.tcbs[id].low + FRAME_BYTES
    && psp % 8 == 0 && k.tcbs[id].low <= psp <= k.tcbs[id].high - FRAME_BYTES
  }

  predicate CallerRuns(k: Kernel) {
    k.running && k.current < |k.tasks| && k.tasks[k.current].state == Running && k.active
  }

  predicate ExactlyRunning(tasks: seq<Task>, id: u8) {
    && id < |tasks|
    && forall i :: 0 <= i < |tasks| ==> (tasks[i].state == Running <==> i == id)
  }

  /** Nobody runs before the kernel does; once a context is active exactly the
      current task runs. */
  predicate StateVerified(k: Kernel) {
    && (!k.running ==> forall i :: 0 <= i < |k.tasks| ==> k.tasks[i].state != Running)
    && (k.running && k.active ==> ExactlyRunning(k.tasks, k.current))
  }

  function WithSource(sources: u8, source: u8): u8
    requires source == SOURCE_SYSTICK || source == SOURCE_CREATE
  {
    if source == SOURCE_SYSTICK then (if sources % 2 == 1 then sources else (sources + 1) % 0x100)
    else (if sources / 2 % 2 == 1 then sources else (sources + 2) % 0x100)
  }

  /** Accumulate a preemption source and name the combined cause. */
  function RequestPreemption(k: Kernel, source: u8): Outcome
    requires source == SOURCE_SYSTICK || source == SOURCE_CREATE
  {
    var mask := WithSource(k.sources, source);
    if 1 <= mask <= 3 then
      Go(k.(sources := mask,
            cause := if mask == 1 then CAUSE_SYSTICK else if mask == 2 then CAUSE_CREATE else CAUSE_COALESCED,
            pending := true), 0)
    else Panic(PreemptMask)
  }

  // ---- Initialisation ----

  function IdleTask(): Task {
    Reset(IDLE).(state := Ready)
  }

  function Boot(stackPool: nat, heapStart: u32, heapStop: u32): Outcome {
    if !LayoutValid(stackPool, stackPool + MAX_STACK) then Panic(StackLayout)
    else if heapStop <= heapStart || HeapModel.Init(heapStart, heapStop - heapStart).None? then Panic(HeapInit)
    else
      var k := Kernel(
        [IdleTask(), Reset(1), Reset(2), Reset(3), Reset(4)],
        [Tcb(stackPool + MAX_STACK - FRAME_BYTES, stackPool, stackPool + MAX_STACK, true, false),
         UNCLAIMED, UNCLAIMED, UNCLAIMED, UNCLAIMED],
        INVALID, INVALID, 0, 0, 0, 0, INVALID, false, false, false,
        HeapModel.Init(heapStart, heapStop - heapStart).value, stackPool, heapStart, heapStop, []);
      if !StateVerified(k) then Panic(InitState) else Go(k, 1)
  }

  // ---- Task creation ----

  function FreeSlot(k: Kernel, from: u8): (id: u8)
    requires Formed(k) && 1 <= from <= TASK_COUNT
    ensures id != INVALID ==> from <= id < TASK_COUNT && k.tasks[id].state == Dormant && !k.tcbs[id].claimed
    ensures forall i :: from <= i < TASK_COUNT && k.tasks[i].state == Dormant && !k.tcbs[i].claimed ==> id <= i
    decreases TASK_COUNT - from
  {
    if from == TASK_COUNT then INVALID
    else if k.tasks[from].state == Dormant && !k.tcbs[from].claimed then from
    else FreeSlot(k, from + 1)
  }

  function ResetSlot(k: Kernel, id: u8): Kernel
    requires Formed(k) && id < TASK_COUNT
  {
    k.(tasks := k.tasks[id := Reset(id)], tcbs := k.tcbs[id := UNCLAIMED])
  }

  function Installed(k: Kernel, id: u8, t: Task, size: nat): (r: Kernel)
    requires Formed(k) && id < TASK_COUNT && size >= FRAME_BYTES
    ensures t.id == id ==> Formed(r)
  {
    var low := StackLow(k, id);
    k.(tasks := k.tasks[id := t],
       tcbs := k.tcbs[id := k.tcbs[id].(savedPsp := low + size - FRAME_BYTES, low := low, high := low + size,
                                        claimed := true)])
  }

  function KindNumber(kind: Kind): u8 {
    if kind.OneShot? then 0 else 1
  }

  function Announced(k: Kernel, id: u8): (r: Kernel)
    requires Formed(k) && id < TASK_COUNT
    ensures r == k.(log := r.log)
  {
    var t := k.tasks[id];
    var creator := if k.running then k.current else INVALID;
    var k1 := Emit(k, Input(TASK_CREATE, 0, id, TaskWord(creator), KindNumber(t.kind), t.priority,
                            StateNumber(t.state)));
    if t.state == Ready then Emit(k1, DeadlineInput(TASK_RELEASE, t)) else k1
  }

  predicate CreationRefused(k: Kernel, c: TimingConfig, size: nat)
    requires Formed(k)
  {
    || size < MIN_STACK || size > MAX_STACK || size % 8 != 0 || !ConfigValid(c)
    || (k.running && (!CallerRuns(k) || k.current == IDLE))
  }

  /** Ask for a switch when the new task outranks the running one. */
  function Challenged(k: Kernel, id: u8): Outcome
    requires Formed(k) && id < TASK_COUNT && (k.running ==> k.current < TASK_COUNT)
  {
    if k.running && k.tasks[id].state == Ready && Outranks(k.tasks[id], k.tasks[k.current]) then
      RequestPreemption(EmitSelection(k, Choice(k.tasks, id, k.current, INVALID, CREATE_PROBE)), SOURCE_CREATE)
    else Go(k, 0)
  }

  /** Creation once a free slot has been found. */
  function CreateIn(k: Kernel, id: u8, c: TimingConfig, size: nat): Outcome
    requires Formed(k) && id < TASK_COUNT && size >= FRAME_BYTES && (k.running ==> k.current < TASK_COUNT)
  {
    var (t, ok) := Configure(k.tasks[id], c, k.now);
    if !ok then Go(ResetSlot(k, id), 0)
    else if !LayoutValid(StackLow(k, id), StackLow(k, id) + size) then Panic(StackLayout)
    else
      var o := Challenged(Announced(Installed(k, id, t, size), id), id);
      if o.Panic? then o
      else if !StateVerified(o.k) then Panic(CreateState)
      else Go(o.k, id)
  }

  /** Returns the new task's id, 0 when creation is refused. */
  function Create(k: Kernel, c: TimingConfig, size: nat): Outcome
    requires Formed(k)
  {
    if CreationRefused(k, c, size) then Go(k, 0)
    else if FreeSlot(k, 1) == INVALID then Go(k, 0)
    else CreateIn(k, FreeSlot(k, 1), c, size)
  }

  // ---- Start and the SVC services ----

  /** os_kernel_start up to its SVC instruction. */
  function Start(k: Kernel): Outcome {
    if k.running then Panic(StartState)
    else Go(Emit(k.(running := true, cause := CAUSE_START),
                 Input(KERNEL_START, 0, NO_TASK, NO_TASK, 0, TASK_COUNT, 0)), 0)
  }

  function StartSvc(k: Kernel): Outcome {
    if k.current != INVALID || k.active then Panic(SvcStart) else Go(k.(pending := true), 0)
  }

  function Yield(k: Kernel): (o: Outcome)
    requires Formed(k)
    ensures o.Go? ==> Formed(o.k)
  {
    if k.current >= TASK_COUNT || k.tasks[k.current].state != Running then Panic(SvcYield)
    else
      var k1 := WithTask(k, k.current, k.tasks[k.current].(state := Ready));
      Go(Emit(k1.(excluded := k.current, cause := CAUSE_YIELD, pending := true),
              Input(TASK_YIELD, 0, TaskWord(k.current), NO_TASK, 0, 0, 0)), 0)
  }

  /** os_sleep: 0 for an interval the API refuses, 1 otherwise. */
  function Sleep(k: Kernel, ticks: u32): Outcome
    requires Formed(k)
  {
    if ticks == 0 || ticks > I32_MAX then Go(k, 0)
    else if k.current >= TASK_COUNT || k.tasks[k.current].state != Running then Panic(SvcSleep)
    else
      var (t, ok) := SleepJob(k.tasks[k.current], k.now, ticks);
      if !ok then Panic(TaskSleep)
      else
        Go(Emit(WithTask(k, k.current, t).(cause := CAUSE_SLEEP, pending := true),
                Input(TASK_SLEEP, 0, TaskWord(k.current), NO_TASK, Low32(t.wakeOrder), High32(t.wakeOrder), ticks)), 1)
  }

  /** The deadline outcome of a job that just completed. */
  function EmitOutcome(k: Kernel, before: Task, after: Task): Kernel {
    if !before.missLatched && after.missLatched then Emit(k, DeadlineInput(DEADLINE_MISS, after))
    else if !after.missLatched then Emit(k, DeadlineInput(DEADLINE_MET, after))
    else k
  }

  function Exit(k: Kernel): Outcome
    requires Formed(k)
  {
    if k.current >= TASK_COUNT || k.current == IDLE || k.tasks[k.current].state != Running then Panic(SvcExit)
    else
      var before := k.tasks[k.current];
      var (t, ok) := CompleteJob(before, k.now);
      if !ok then Panic(ExitComplete)
      else
        var k1 := EmitOutcome(WithTask(k, k.current, t.(state := Exiting)), before, t);
        Go(Emit(k1.(cause := CAUSE_EXIT, pending := true),
                Input(TASK_EXIT, 0, TaskWord(k.current), NO_TASK, t.completedJobs, t.deadlineMisses, 0)), 0)
  }

  /** os_wait_next_period: 0 for a task that is not periodic. */
  function WaitPeriod(k: Kernel): Outcome
    requires Formed(k)
  {
    if k.current >= TASK_COUNT || !k.tasks[k.current].kind.Periodic? then Go(k, 0)
    else if k.current == IDLE || k.tasks[k.current].state != Running then Panic(SvcPeriod)
    else
      var before := k.tasks[k.current];
      var (t, ok) := WaitNextPeriod(before, k.now);
      if !ok then Panic(SvcPeriod)
      else
        var k1 := EmitOutcome(WithTask(k, k.current, t), before, t);
        Go(Emit(k1.(cause := CAUSE_WAIT_PERIOD, pending := true),
                Input(TASK_WAIT_PERIOD, 0, TaskWord(k.current), NO_TASK,
                      Low32(t.nextReleaseOrder), High32(t.nextReleaseOrder), 0)), 1)
  }

  // ---- Memory services ----

  /** The trace names a heap address by its offset; anything else is all ones. */
  function PointerOffset(heapStart: u32, heapStop: u32, pointer: nat): u32 {
    if pointer == 0 || pointer < heapStart || pointer >= heapStop then U32_MAX else pointer - heapStart
  }

  predicate MayUseHeap(k: Kernel) {
    CallerRuns(k) && k.current != IDLE
  }

  function MemoryAlloc(k: Kernel, size: u32): Outcome
    requires HeapModel.HasCursor(k.heap)
  {
    if !MayUseHeap(k) then Go(k, 0)
    else
      var (h, p) := HeapModel.Alloc(k.heap, size, k.current);
      Go(Emit(k.(heap := h), Input(ALLOC, 0, TaskWord(k.current), NO_TASK, size,
                                   PointerOffset(k.heapStart, k.heapStop, p), if p != 0 then 1 else 0)), p)
  }

  function MemoryFree(k: Kernel, pointer: u32): Outcome {
    if !MayUseHeap(k) then Go(k, 0)
    else
      var (h, ok) := HeapModel.FreeBlock(k.heap, pointer, k.current);
      Go(Emit(k.(heap := h), Input(FREE, 0, TaskWord(k.current), NO_TASK,
                                   PointerOffset(k.heapStart, k.heapStop, pointer), 1, if ok then 1 else 0)),
         if ok then 1 else 0)
  }

  // ---- PendSV ----

  /** Store the outgoing stack pointer, or insist that there is none. */
  function Saved(k: Kernel, psp: nat): (o: Outcome)
    requires Formed(k)
    ensures o.Go? ==> Formed(o.k)
  {
    if k.active then
      if k.current >= TASK_COUNT || !PspValid(k, k.current, psp) then Panic(SavePsp)
      else Go(k.(tcbs := k.tcbs[k.current := k.tcbs[k.current].(savedPsp := psp)]), 0)
    else if psp != 0 || k.current != INVALID then Panic(FirstPsp)
    else Go(k, 0)
  }

  /** Free what an exiting task still owns. */
  function HeapSwept(k: Kernel, id: u8): (r: Kernel)
    ensures r == k.(heap := r.heap, log := r.log)
  {
    var (h, n) := HeapModel.ReleaseOwner(k.heap, id);
    if n != 0 then
      Emit(k.(heap := h), Input(OWNER_RELEASE, 0, id, NO_TASK, if n <= U32_MAX then n else U32_MAX, id, 1))
    else k.(heap := h)
  }

  /** Reclaim an exiting task's blocks and its slot. */
  function Reclaimed(k: Kernel, id: u8): (o: Outcome)
    requires Formed(k)
    ensures o.Go? ==> Formed(o.k)
  {
    if id == IDLE || id >= TASK_COUNT || k.tasks[id].state != Exiting || !k.tcbs[id].claimed then Panic(Reclaim)
    else Go(ResetSlot(HeapSwept(k, id), id).(lastReclaimed := id, reclaims := (k.reclaims + 1) % 0x1_0000_0000), 0)
  }

  /** What happens to the outgoing task before the choice. */
  function Retired(k: Kernel): (o: Outcome)
    requires Formed(k)
    ensures o.Go? ==> Formed(o.k)
  {
    if k.current >= TASK_COUNT then Go(k, 0)
    else
      var k1 := if k.tasks[k.current].state == Running then
          WithTask(k, k.current, k.tasks[k.current].(state := Ready))
        else k;
      if k1.tasks[k.current].state == Exiting then Reclaimed(k1, k.current) else Go(k1, 0)
  }

  /** The task to run, idle when nothing else can. */
  function Chosen(k: Kernel): (r: u8)
    requires Formed(k)
    ensures r < TASK_COUNT
  {
    var r := Select(k.tasks, k.excluded);
    if r == INVALID then IDLE else r
  }

  function IdleInputs(next: u8, outgoing: u8): seq<Input> {
    (if outgoing == IDLE && next != IDLE then [Input(IDLE_STOP, 0, IDLE as u16, TaskWord(next), 0, 0, 0)] else [])
    + (if next == IDLE && outgoing != IDLE then [Input(IDLE_START, 0, IDLE as u16, TaskWord(outgoing), 0, 0, 0)]
       else [])
  }

  /** The events of a switch, in order. */
  function SwitchInputs(sources: u8, cause: u8, next: u8, outgoing: u8, outgoingState: State): seq<Input> {
    IdleInputs(next, outgoing)
    + (if sources != 0 then [Input(TASK_PREEMPT, 0, TaskWord(outgoing), TaskWord(next), sources, 0, 0)] else [])
    + [Input(CONTEXT_SWITCH, 0, TaskWord(outgoing), TaskWord(next), cause, StateNumber(outgoingState), 0)]
  }

  /** One batch per input, as single emissions at one tick. */
  function Singles(tick: u64, inputs: seq<Input>): (r: seq<Batch>)
    ensures |r| == |inputs|
    ensures forall i :: 0 <= i < |r| ==> r[i] == Batch(tick, [inputs[i]])
  {
    seq(|inputs|, i requires 0 <= i < |inputs| => Batch(tick, [inputs[i]]))
  }

  /** The first time a task runs it is announced. */
  function Begun(k: Kernel, next: u8, t: Task): Kernel
    requires next < |k.tcbs|
  {
    if next != IDLE && !k.tcbs[next].started then
      Emit(k.(tcbs := k.tcbs[next := k.tcbs[next].(started := true)]), DeadlineInput(TASK_START, t))
    else k
  }

  /** Record the switch and clear what requested it. */
  function Switched(k: Kernel, next: u8, outgoing: u8, outgoingState: State): Outcome
    requires Formed(k) && next < TASK_COUNT
  {
    if k.sources != 0 && (outgoing == INVALID || outgoing == next) then Panic(PreemptCommit)
    else
      var k1 := k.(log := k.log + Singles(k.now, SwitchInputs(k.sources, k.cause, next, outgoing, outgoingState)),
                   cause := 0, sources := 0, pending := false);
      var k2 := Begun(k1, next, k.tasks[next]);
      if !StateVerified(k2) then Panic(SwitchState) else Go(k2, k2.tcbs[next].savedPsp)
  }

  /** The chosen task becomes the running and current one. */
  function Entered(k: Kernel, next: u8, outgoing: u8): (r: Kernel)
    requires Formed(k) && next < TASK_COUNT
    ensures Formed(r)
  {
    var k1 := EmitSelection(k, Choice(k.tasks, next, outgoing, k.excluded, DISPATCH));
    WithTask(k1, next, k.tasks[next].(state := Running)).(current := next, active := true, excluded := INVALID)
  }

  /** Commit the switch to the chosen task. */
  function Dispatched(k: Kernel, next: u8, outgoing: u8, outgoingState: State): Outcome
    requires Formed(k) && next < TASK_COUNT
  {
    if k.tasks[next].state != Ready || !PspValid(k, next, k.tcbs[next].savedPsp) then Panic(NextTask)
    else Switched(Entered(k, next, outgoing), next, outgoing, outgoingState)
  }

  /** The PendSV switch, given the stack pointer below the saved registers (0
      on the first dispatch). Returns the stack pointer to resume from. */
  function PendSv(k: Kernel, psp: nat): Outcome
    requires Formed(k)
  {
    var outgoing := k.current;
    var outgoingState := if outgoing < TASK_COUNT then k.tasks[outgoing].state else Dormant;
    var saved := Saved(k, psp);
    if saved.Panic? then saved
    else
      var retired := Retired(saved.k);
      if retired.Panic? then retired
      else Dispatched(retired.k, Chosen(retired.k), outgoing, outgoingState)
  }

  // ---- SysTick ----

  datatype TickOut = TickOut(task: Task, ready: bool, exhausted: bool, inputs: seq<Input>)

  /** A deadline that has been reached, with its record. */
  function MissPart(t: Task, now: u64): TickOut {
    var (u, missed) := RecordDeadlineMiss(t, now);
    TickOut(u, false, u.timeRangeExhausted, if missed then [DeadlineInput(DEADLINE_MISS, u)] else [])
  }

  /** A period boundary that passes while a job is active, with its record. */
  function SkipPart(t: Task, now: u64): TickOut {
    var (u, skipped) := RecordActiveRelease(t, now);
    TickOut(u, false, u.timeRangeExhausted,
            if skipped && u.nextReleaseOrder >= u.period then
              var release := u.nextReleaseOrder - u.period;
              [Input(TASK_RELEASE_SKIPPED, 0, t.id, NO_TASK, Low32(release), High32(release), u.missedReleases)]
            else [])
  }

  function ReleasePart(t: Task, now: u64): TickOut {
    var (u, released) := ReleaseDue(t, now);
    TickOut(u, released, u.timeRangeExhausted, if released then [DeadlineInput(TASK_RELEASE, u)] else [])
  }

  function WakePart(t: Task, now: u64): TickOut {
    var (u, woken) := WakeDue(t, now);
    TickOut(u, woken, u.timeRangeExhausted, if woken then [DeadlineInput(TASK_WAKE, u)] else [])
  }

  /** One part of a tick after another. */
  function Then(a: TickOut, b: TickOut): TickOut {
    TickOut(b.task, a.ready || b.ready, b.exhausted, a.inputs + b.inputs)
  }

  /** The accounting half of a tick: running time, deadline miss, and a period
      boundary that passes while a job is still active. */
  function Accounted(t: Task, now: u64): (r: TickOut)
    ensures r.task.id == t.id && !r.ready
  {
    var a := MissPart(AccountRunningTick(t), now);
    Then(a, SkipPart(a.task, now))
  }

  /** The readying half of a tick: releases and wake-ups that are due. */
  function Readied(t: Task, now: u64): (r: TickOut)
    ensures r.task.id == t.id
  {
    var a := ReleasePart(t, now);
    if a.exhausted then a else Then(a, WakePart(a.task, now))
  }

  /** What one tick does to one entry, in the handler's order. */
  function TickTask(t: Task, now: u64): (r: TickOut)
    ensures r.task.id == t.id
  {
    var a := Accounted(t, now);
    if a.exhausted then a else Then(a, Readied(a.task, now))
  }

  function TickTable(tasks: seq<Task>, now: u64): (r: seq<Task>)
    ensures |r| == |tasks|
    ensures forall i :: 0 <= i < |tasks| ==> r[i] == if i == 0 then tasks[0] else TickTask(tasks[i], now).task
  {
    seq(|tasks|, i requires 0 <= i < |tasks| => if i == 0 then tasks[0] else TickTask(tasks[i], now).task)
  }

  /** The events of slots 1..n-1, by slot. */
  function TickInputs(tasks: seq<Task>, n: nat, now: u64): seq<Input>
    requires n <= |tasks|
  {
    if n <= 1 then [] else TickInputs(tasks, n - 1, now) + TickTask(tasks[n - 1], now).inputs
  }

  predicate SomeReady(tasks: seq<Task>, now: u64) {
    exists i :: 1 <= i < |tasks| && TickTask(tasks[i], now).ready
  }

  predicate SomeExhausted(tasks: seq<Task>, now: u64) {
    exists i :: 1 <= i < |tasks| && TickTask(tasks[i], now).exhausted
  }

  /** The table and log after the per-task loop. */
  function Ticked(k: Kernel): (r: Kernel)
    requires Formed(k) && k.now < U64_MAX
    ensures Formed(r)
  {
    hide TickTask;
    k.(now := k.now + 1,
       tasks := TickTable(k.tasks, k.now + 1),
       log := k.log + Singles(k.now + 1, TickInputs(k.tasks, TASK_COUNT, k.now + 1)))
  }

  /** Preempt the running task when a newly readied table has somebody
      better. */
  function Probed(k: Kernel): Outcome
    requires Formed(k) && k.current < TASK_COUNT && k.tasks[k.current].state == Running
  {
    var candidate := Select(k.tasks, INVALID);
    if candidate != INVALID && candidate != IDLE && Outranks(k.tasks[candidate], k.tasks[k.current]) then
      var o := RequestPreemption(
        EmitSelection(k, Choice(k.tasks, candidate, k.current, INVALID, SYSTICK_PROBE)), SOURCE_SYSTICK);
      if o.Panic? then o
      else Go(WithTask(o.k, k.current, k.tasks[k.current].(state := Ready)), 0)
    else Go(k, 0)
  }

  function Tick(k: Kernel): Outcome
    requires Formed(k)
  {
    hide TickTask;
    if !k.running then Go(k, 0)
    else if k.now == U64_MAX then Panic(TickRange)
    else if SomeExhausted(k.tasks, k.now + 1) then Panic(TaskTimeRange)
    else
      var k1 := Ticked(k);
      if SomeReady(k.tasks, k.now + 1) && k.current < TASK_COUNT && k1.tasks[k.current].state == Running then Probed(k1)
      else Go(k1, 0)
  }

  // ---- Runs ----

  datatype Event =
    | CreateEvent(config: TimingConfig, stackSize: nat)
    | StartEvent
    | StartSvcEvent
    | YieldEvent
    | SleepEvent(ticks: u32)
    | WaitPeriodEvent
    | ExitEvent
    | AllocEvent(size: u32)
    | FreeEvent(pointer: u32)
    | TickEvent
    | PendSvEvent(psp: nat)

  /** When an event can occur. Thread-mode services come from the running user
      task with no PendSV pending; a PendSV finds a stack pointer that its task
      has kept inside its own stack. SysTick can always occur, also between a
      service and its PendSV. Creation and the memory services decide for
      themselves from any state, so a caller that masks interrupts may repeat
      them with a PendSV pending. */
  predicate Enabled(k: Kernel, e: Event)
    requires Formed(k)
  {
    match e
    case CreateEvent(_, _) => true
    case AllocEvent(_) => true
    case FreeEvent(_) => true
    case TickEvent => true
    case StartEvent => !k.running
    case StartSvcEvent => k.running && !k.active && !k.pending
    case PendSvEvent(psp) => k.pending && if k.active then PspValid(k, k.current, psp) else psp == 0
    case _ => CallerRuns(k) && !k.pending && k.current != IDLE
  }

  function Do(k: Kernel, e: Event): Outcome
    requires Formed(k) && HeapModel.HasCursor(k.heap)
  {
    match e
    case CreateEvent(config, size) => Create(k, config, size)
    case StartEvent => Start(k)
    case StartSvcEvent => StartSvc(k)
    case YieldEvent => Yield(k)
    case SleepEvent(ticks) => Sleep(k, ticks)
    case WaitPeriodEvent => WaitPeriod(k)
    case ExitEvent => Exit(k)
    case AllocEvent(size) => MemoryAlloc(k, size)
    case FreeEvent(pointer) => MemoryFree(k, pointer)
    case TickEvent => Tick(k)
    case PendSvEvent(psp) => PendSv(k, psp)
  }
}
