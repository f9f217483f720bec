/** Context switching: the PendSV entry code over R4-R11, the process stack
    pointer and the task stacks. A task that is switched out finds its
    registers, stack pointer and exception frame again when it is resumed. */
module Context {
  import opened Words
  import opened Scheduler
  import opened TraceSelection
  import opened KernelModel
  import opened KernelTasks
  import opened KernelInvariant
  import opened KernelSteps
  import opened KernelRuns
  import HeapModel
  import KernelRequests

  const SLOT_WORDS := 256
  const STACK_WORDS := 1280
  const FRAME_WORDS := 16
  const REGISTERS := 8

  /** The part of the core that a switch touches: the process stack pointer,
      R4 to R11, and the words of all task stacks, slot by slot. */
  datatype Core = Core(psp: nat, regs: seq<u32>, stacks: seq<u32>)

  /** What a switched-out task must find again: stack pointer, registers, and
      the eight words the exception entry stacked. */
  datatype Suspended = Suspended(psp: nat, regs: seq<u32>, frame: seq<u32>)

  /** The word index of an address in the stack pool. */
  function Index(k: Kernel, address: nat): int {
    (address - k.stackPool) / 4
  }

  predicate CoreOk(c: Core) {
    |c.regs| == REGISTERS && |c.stacks| == STACK_WORDS
  }

  function Peek(c: Core, from: int, n: nat): seq<u32> {
    if 0 <= from && from + n <= |c.stacks| then c.stacks[from..from + n] else []
  }

  function Overwritten(s: seq<u32>, at: nat, words: seq<u32>): (r: seq<u32>)
    requires at + |words| <= |s|
    ensures |r| == |s|
    ensures forall j :: 0 <= j < |s| ==> r[j] == if at <= j < at + |words| then words[j - at] else s[j]
  {
    s[..at] + words + s[at + |words|..]
  }

  // ---- The handler ----

  /** stmdb: push R4-R11 below the stack pointer. */
  function Pushed(k: Kernel, c: Core): Core
    requires CoreOk(c) && c.psp >= 32 && 0 <= Index(k, c.psp - 32) && Index(k, c.psp - 32) + REGISTERS <= STACK_WORDS
  {
    c.(stacks := Overwritten(c.stacks, Index(k, c.psp - 32), c.regs), psp := c.psp - 32)
  }

  /** ldmia: reload R4-R11 and leave the stack pointer above them. */
  function Popped(k: Kernel, c: Core, resume: nat): Core
    requires CoreOk(c) && 0 <= Index(k, resume) && Index(k, resume) + REGISTERS <= STACK_WORDS
  {
    c.(regs := Peek(c, Index(k, resume), REGISTERS), psp := resume + 32)
  }

  /** A stack pointer below which the registers fit in the current slot. */
  predicate RoomToSave(k: Kernel, psp: nat) {
    psp >= 32 && PspValid(k, k.current, psp - 32)
  }

  // ---- Geometry ----

  predicate InSlot(i: int, from: int, n: int) {
    SLOT_WORDS * i <= from && from + n <= SLOT_WORDS * (i + 1)
  }

  lemma FrameInSlot(k: Kernel, i: int, psp: nat)
    requires Formed(k) && StacksOk(k) && 0 <= i < TASK_COUNT && (i == 0 || !k.tasks[i].state.Dormant?)
             && PspValid(k, i, psp)
    ensures InSlot(i, Index(k, psp), FRAME_WORDS) && Index(k, psp + 32) == Index(k, psp) + REGISTERS
    ensures psp >= k.stackPool && (psp - k.stackPool) % 8 == 0
  {
    assert StackOk(k, i);
  }

  // ---- The machine ----

  /** The kernel, the core, and for every slot what its task must find again if
      it is not running. */
  datatype Machine = Machine(w: World, core: Core, suspended: seq<Option<Suspended>>)

  /** The sixteen words a new task starts from: R4-R11 zero, then the exception
      frame with its argument, return guard, entry and the Thumb bit. */
  function InitialWords(argument: u32, guard: u32, entry: u32): (s: seq<u32>)
    ensures |s| == FRAME_WORDS
  {
    [0, 0, 0, 0, 0, 0, 0, 0, argument, 0, 0, 0, 0, guard, entry, 0x100_0000]
  }

  /** Task i's context lies in its stack, below its stack pointer. */
  predicate Kept(m: Machine, i: int)
    requires 0 <= i < |m.suspended| && i < |m.w.k.tcbs|
  {
    m.suspended[i].Some? ==>
      var s := m.suspended[i].value;
      var base := Index(m.w.k, m.w.k.tcbs[i].savedPsp);
      && s.psp == m.w.k.tcbs[i].savedPsp + 32
      && Peek(m.core, base, REGISTERS) == s.regs && Peek(m.core, base + REGISTERS, REGISTERS) == s.frame
  }

  /** Exactly the occupants that are not running have a suspended context, and
      each context is intact. */
  ghost predicate Good(m: Machine) {
    && Inv(m.w) && Formed(m.w.k) && CoreOk(m.core) && |m.suspended| == TASK_COUNT
    && (forall i :: 0 <= i < TASK_COUNT ==>
          (m.suspended[i].Some? <==>
             (i == 0 || !m.w.k.tasks[i].state.Dormant?) && !(m.w.k.active && i == m.w.k.current)))
    && (forall i :: 0 <= i < TASK_COUNT ==> Kept(m, i))
  }

  /** What the running task may do by itself: anything with its registers and
      stack pointer, and with the words of its own stack. */
  predicate Computes(k: Kernel, c: Core, c': Core) {
    && k.active && CoreOk(c) && CoreOk(c')
    && forall j :: 0 <= j < STACK_WORDS && !InSlot(k.current, j, 1) ==> c'.stacks[j] == c.stacks[j]
  }

  ghost predicate ComputeStep(m: Machine, m': Machine) {
    Computes(m.w.k, m.core, m'.core) && m' == m.(core := m'.core)
  }

  /** A kernel step other than a switch leaves the task stacks alone, except
      that creation lays the new task's initial frame. */
  ghost predicate KernelStep(m: Machine, e: Event, words: seq<u32>, m': Machine) {
    && Formed(m.w.k) && HeapModel.HasCursor(m.w.k.heap) && !e.PendSvEvent? && Enabled(m.w.k, e) && Do(m.w.k, e).Go?
    && CoreOk(m.core) && |m.suspended| == TASK_COUNT && |words| == FRAME_WORDS
    && var o := Do(m.w.k, e);
       && m'.w == Next(m.w, e, o.k, o.result)
       && if e.CreateEvent? && 0 < o.result < TASK_COUNT && Formed(o.k) then
            var base := Index(o.k, o.k.tcbs[o.result].savedPsp);
            && 0 <= base && base + FRAME_WORDS <= STACK_WORDS
            && m'.core == m.core.(stacks := Overwritten(m.core.stacks, base, words))
            && m'.suspended == m.suspended[o.result :=
                 Some(Suspended(o.k.tcbs[o.result].savedPsp + 32, words[..REGISTERS], words[REGISTERS..]))]
          else m'.core == m.core && m'.suspended == m.suspended
  }

  /** What the switch records of the task that goes out, if one does. */
  function Outgoing(m: Machine): (r: seq<Option<Suspended>>)
    requires |m.suspended| == TASK_COUNT && Formed(m.w.k)
    ensures |r| == TASK_COUNT
  {
    var k := m.w.k;
    if !k.active || k.current >= TASK_COUNT then m.suspended
    else if k.tasks[k.current].state.Exiting? then m.suspended[k.current := None]
    else m.suspended[k.current := Some(Suspended(m.core.psp, m.core.regs,
                                                 Peek(m.core, Index(k, m.core.psp), REGISTERS)))]
  }

  /** PendSV: push the registers if a context is active, let the kernel choose,
      and reload from the stack pointer it returns. */
  ghost predicate SwitchedTo(k: Kernel, c: Core, k': Kernel, c': Core) {
    && Formed(k) && CoreOk(c)
    && (k.active ==>
          RoomToSave(k, c.psp) && 0 <= Index(k, c.psp - 32) && Index(k, c.psp - 32) + REGISTERS <= STACK_WORDS)
    && var pushed := if k.active then Pushed(k, c) else c;
       var o := PendSv(k, if k.active then pushed.psp else 0);
       && o.Go? && o.k == k' && o.result != 0
       && 0 <= Index(k, o.result) && Index(k, o.result) + REGISTERS <= STACK_WORDS
       && c' == Popped(k, pushed, o.result)
  }

  ghost predicate SwitchStep(m: Machine, m': Machine) {
    && |m.suspended| == TASK_COUNT && m.w.k.pending && SwitchedTo(m.w.k, m.core, m'.w.k, m'.core)
    && m'.w.k.current < TASK_COUNT && m'.w == World(m'.w.k, m.w.first, m.w.k.excluded)
    && m'.suspended == Outgoing(m)[m'.w.k.current := None]
  }

  // ---- What a switch does to the saved stack pointers ----

  /** The switch returns the stack pointer saved for the task it chose, and
      changes no other task's. */
  lemma SwitchStacks(w: World, psp: nat)
    requires Inv(w) && Formed(w.k) && Enabled(w.k, PendSvEvent(psp))
    ensures var o := PendSv(w.k, psp);
      && o.Go? && Formed(o.k) && o.k.current < TASK_COUNT && o.result == o.k.tcbs[o.k.current].savedPsp
      && o.k.stackPool == w.k.stackPool && PspValid(o.k, o.k.current, o.result)
      && forall i :: 0 <= i < TASK_COUNT && (i == 0 || !o.k.tasks[i].state.Dormant?) ==>
           o.k.tcbs[i].savedPsp == if w.k.active && i == w.k.current then psp else w.k.tcbs[i].savedPsp
  {
    hide TableOk, CadenceOk, HeapOk, StacksOk, Select, PspValid, Outranks;
    hide Dispatched, Retired, Saved;
    SavedHolds(w.k, psp);
    var k1 := KernelModel.Saved(w.k, psp).k;
    HeapSame(w.k, k1);
    RetiredHolds(k1);
    RetiredStacks(k1);
    var k2 := Retired(k1).k;
    SettledCadence(k1, k2, w.first);
    if k2.sources != 0 { PreemptionStands(k1, k2); }
    NextIsBest(k2.tasks, k2.excluded, k2.now);
    PendSvHolds(w, psp);
    DispatchedHolds(k2, Chosen(k2), w.k.current,
                    if w.k.current < TASK_COUNT then w.k.tasks[w.k.current].state else Dormant, w.first);
    OccupiedSlot(PendSv(w.k, psp).k, PendSv(w.k, psp).k.current);
  }

  lemma RetiredStacks(k: Kernel)
    requires Formed(k) && Retired(k).Go?
    ensures var r := Retired(k).k;
      && r.stackPool == k.stackPool
      && forall i :: 0 <= i < TASK_COUNT && (i == 0 || !r.tasks[i].state.Dormant?) ==> r.tcbs[i] == k.tcbs[i]
  {
    hide HeapModel.ReleaseOwner;
  }

  // ---- Steps that leave the stacks to their tasks ----

  /** Stack bounds, occupancy and the running context are as before. */
  ghost predicate StacksUntouched(k: Kernel, k': Kernel) {
    && Formed(k) && Formed(k') && k'.tcbs == k.tcbs && k'.stackPool == k.stackPool && k'.current == k.current
        && k'.active == k.active
    && forall i :: 0 <= i < TASK_COUNT ==> (k'.tasks[i].state.Dormant? <==> k.tasks[i].state.Dormant?)
  }

  lemma TickUntouched(w: World)
    requires Inv(w) && Formed(w.k) && Tick(w.k).Go?
    ensures StacksUntouched(w.k, Tick(w.k).k)
  {
    hide TaskOk, StacksOk, HeapOk, CadenceOk, FirstOk, PhaseOk, TickTask, Probed, SomeReady, TickTable, TickInputs,
         Singles;
    hide SomeExhausted;
    if w.k.running {
      TickTableHolds(w.k.tasks, w.k.now);
      TickedHolds(w);
      var k1 := Ticked(w.k);
      if SomeReady(w.k.tasks, w.k.now + 1) && w.k.current < TASK_COUNT && k1.tasks[w.k.current].state.Running? {
        RunnerIsActive(w);
        ProbedHolds(k1, w.lastExcluded);
      }
    }
  }

  lemma RunnerIsActive(w: World)
    requires Inv(w) && Formed(w.k) && w.k.current < TASK_COUNT
    ensures w.k.active
  {
    hide TaskOk, StacksOk, HeapOk, CadenceOk, FirstOk;
  }

  lemma ServiceUntouched(w: World, e: Event)
    requires Inv(w) && Formed(w.k) && HeapModel.HasCursor(w.k.heap) && Enabled(w.k, e) && Do(w.k, e).Go?
    requires !e.PendSvEvent? && !e.CreateEvent? && !e.TickEvent?
    ensures StacksUntouched(w.k, Do(w.k, e).k)
  {
    hide TaskOk, StacksOk, HeapOk, CadenceOk, FirstOk, PhaseOk, HeapModel.Alloc, HeapModel.FreeBlock, PointerOffset,
         Low32, High32;
    hide SleepJob, CompleteJob, WaitNextPeriod, EmitOutcome;
    match e
    case SleepEvent(ticks) => SleepShape(w.k.tasks[w.k.current], w.k.now, ticks);
    case ExitEvent =>
      var t := CompleteJob(w.k.tasks[w.k.current], w.k.now).0;
      OutcomeShape(WithTask(w.k, w.k.current, t.(state := Exiting)), w.k.tasks[w.k.current], t);
      CompleteShape(w.k.tasks[w.k.current], w.k.now);
    case WaitPeriodEvent =>
      var t := WaitNextPeriod(w.k.tasks[w.k.current], w.k.now).0;
      OutcomeShape(WithTask(w.k, w.k.current, t), w.k.tasks[w.k.current], t);
      CompleteShape(w.k.tasks[w.k.current], w.k.now);
    case _ =>
  }

  lemma SleepShape(t: Task, now: u64, ticks: u32)
    ensures var (u, ok) := SleepJob(t, now, ticks); ok ==> u.state.Sleeping? && u.id == t.id
  {
  }

  lemma OutcomeShape(k: Kernel, before: Task, after: Task)
    ensures EmitOutcome(k, before, after) == k.(log := EmitOutcome(k, before, after).log)
  {
  }

  lemma CompleteShape(t: Task, now: u64)
    ensures CompleteJob(t, now).0.id == t.id
    ensures var (u, ok) := WaitNextPeriod(t, now); ok ==> u.state.WaitingRelease? && u.id == t.id
  {
  }

  /** Creation either leaves every stack alone or takes an empty slot and points
      into its stack. */
  lemma CreationStacks(w: World, c: TimingConfig, size: nat)
    requires Inv(w) && Formed(w.k) && Create(w.k, c, size).Go?
    ensures var o := Create(w.k, c, size);
      && Formed(o.k) && o.k.stackPool == w.k.stackPool && o.k.current == w.k.current && o.k.active == w.k.active
      && (if o.result == 0 then StacksUntouched(w.k, o.k)
          else && o.result < TASK_COUNT && w.k.tasks[o.result].state.Dormant? && !o.k.tasks[o.result].state.Dormant?
               && (forall i :: 0 <= i < TASK_COUNT && i != o.result ==>
                     o.k.tcbs[i] == w.k.tcbs[i] && (o.k.tasks[i].state.Dormant? <==> w.k.tasks[i].state.Dormant?)))
  {
    hide TaskOk, StackOk, HeapOk, CadenceOk, FirstOk, PhaseOk, Configure, Reset, Challenged, StateVerified, ConfigValid,
         LayoutValid, Outranks;
    if !CreationRefused(w.k, c, size) && FreeSlot(w.k, 1) != INVALID {
      var id := FreeSlot(w.k, 1);
      DormantIsReset(w.k.tasks[id], w.k.now);
      if Configure(w.k.tasks[id], c, w.k.now).1 {
        InstalledHolds(w, id, c, size);
        var k1 := Announced(Installed(w.k, id, Configure(w.k.tasks[id], c, w.k.now).0, size), id);
        ChallengedShape(k1, id);
      } else {
        EmptySlot(w, id);
      }
    }
  }

  lemma ChallengedShape(k: Kernel, id: u8)
    requires Formed(k) && id < TASK_COUNT && (k.running ==> k.current < TASK_COUNT) && Challenged(k, id).Go?
    ensures var r := Challenged(k, id).k; r == k.(log := r.log, sources := r.sources, cause := r.cause,
                                                  pending := r.pending)
  {
    hide SelectionBatch, Outranks;
  }

  // ---- Preservation ----

  /** Where a suspended context lies. */
  lemma ContextInSlot(m: Machine, i: int)
    requires Good(m) && 0 <= i < TASK_COUNT && m.suspended[i].Some?
    ensures InSlot(i, Index(m.w.k, m.w.k.tcbs[i].savedPsp), FRAME_WORDS)
    ensures 0 <= Index(m.w.k, m.w.k.tcbs[i].savedPsp) && Index(m.w.k, m.w.k.tcbs[i].savedPsp)
            + FRAME_WORDS <= STACK_WORDS
  {
    hide TaskOk, HeapOk, CadenceOk, FirstOk, PhaseOk, TableOk, Kept, PspValid;
    assert StackOk(m.w.k, i);
    FrameInSlot(m.w.k, i, m.w.k.tcbs[i].savedPsp);
  }

  /** A context survives any change of words outside its slot. */
  lemma KeptElsewhere(m: Machine, m': Machine, i: int)
    requires Good(m) && 0 <= i < TASK_COUNT && m.suspended[i].Some?
    requires CoreOk(m'.core) && |m'.suspended| == TASK_COUNT && |m'.w.k.tcbs| == TASK_COUNT
    requires m'.suspended[i] == m.suspended[i] && m'.w.k.stackPool == m.w.k.stackPool
    requires m'.w.k.tcbs[i].savedPsp == m.w.k.tcbs[i].savedPsp
    requires forall j :: 0 <= j < STACK_WORDS && InSlot(i, j, 1) ==> m'.core.stacks[j] == m.core.stacks[j]
    ensures Kept(m', i)
  {
    hide Inv;
    ContextInSlot(m, i);
    var base := Index(m.w.k, m.w.k.tcbs[i].savedPsp);
    assert Kept(m, i);
    assert forall j :: base <= j < base + FRAME_WORDS ==> InSlot(i, j, 1);
    assert Peek(m'.core, base, REGISTERS) == Peek(m.core, base, REGISTERS);
    assert Peek(m'.core, base + REGISTERS, REGISTERS) == Peek(m.core, base + REGISTERS, REGISTERS);
  }

  lemma ComputeKeeps(m: Machine, m': Machine)
    requires Good(m) && ComputeStep(m, m')
    ensures Good(m') && m'.suspended == m.suspended
  {
    hide Inv, Kept;
    forall i | 0 <= i < TASK_COUNT ensures Kept(m', i) {
      if m.suspended[i].Some? {
        KeptElsewhere(m, m', i);
      } else {
        NotSuspended(m', i);
      }
    }
  }

  lemma NotSuspended(m: Machine, i: int)
    requires 0 <= i < |m.suspended| && i < |m.w.k.tcbs| && m.suspended[i].None?
    ensures Kept(m, i)
  {
  }

  lemma UntouchedKeeps(m: Machine, m': Machine)
    requires Good(m) && Inv(m'.w) && StacksUntouched(m.w.k, m'.w.k) && m'.core == m.core && m'.suspended == m.suspended
    ensures Good(m')
  {
    hide Inv;
    forall i | 0 <= i < TASK_COUNT ensures Kept(m', i) {
      assert Kept(m, i);
    }
  }

  lemma CreationKeeps(m: Machine, c: TimingConfig, size: nat, words: seq<u32>, m': Machine)
    requires Good(m) && KernelStep(m, CreateEvent(c, size), words, m')
    ensures Good(m')
    ensures forall i :: 0 <= i < TASK_COUNT && m.suspended[i].Some? ==> m'.suspended[i] == m.suspended[i]
  {
    hide Inv, Kept, Create, PspValid;
    var e := CreateEvent(c, size);
    var o := Create(m.w.k, c, size);
    StepSafe(m.w, e);
    CreationStacks(m.w, c, size);
    NextKernel(m.w, e, o.k, o.result);
    if m.w.k.active { CurrentOccupied(m.w); }
    if o.result == 0 {
      UntouchedKeeps(m, m');
    } else {
      var base := Index(o.k, o.k.tcbs[o.result].savedPsp);
      NewFrameInSlot(m'.w, o.result);
      forall i | 0 <= i < TASK_COUNT ensures Kept(m', i) {
        if i == o.result {
          NewContextKept(m', i, base, words);
        } else if m.suspended[i].Some? {
          KeptElsewhere(m, m', i);
        } else {
          NotSuspended(m', i);
        }
      }
    }
  }

  lemma NewFrameInSlot(w: World, i: int)
    requires Inv(w) && Formed(w.k) && 0 <= i < TASK_COUNT && !w.k.tasks[i].state.Dormant?
    ensures InSlot(i, Index(w.k, w.k.tcbs[i].savedPsp), FRAME_WORDS)
  {
    hide TaskOk, HeapOk, CadenceOk, FirstOk, PhaseOk, TableOk, PspValid;
    assert StackOk(w.k, i);
    FrameInSlot(w.k, i, w.k.tcbs[i].savedPsp);
  }

  lemma NewContextKept(m: Machine, i: int, base: int, words: seq<u32>)
    requires 0 <= i < TASK_COUNT && |m.suspended| == TASK_COUNT && |m.w.k.tcbs| == TASK_COUNT && CoreOk(m.core)
    requires base == Index(m.w.k, m.w.k.tcbs[i].savedPsp) && 0 <= base && base + FRAME_WORDS <= STACK_WORDS
             && |words| == FRAME_WORDS
    requires forall j :: base <= j < base + FRAME_WORDS ==> m.core.stacks[j] == words[j - base]
    requires m.suspended[i] == Some(Suspended(m.w.k.tcbs[i].savedPsp + 32, words[..REGISTERS], words[REGISTERS..]))
    ensures Kept(m, i)
  {
  }

  lemma KernelStepKeeps(m: Machine, e: Event, words: seq<u32>, m': Machine)
    requires Good(m) && KernelStep(m, e, words, m')
    ensures Good(m')
    ensures forall i :: 0 <= i < TASK_COUNT && m.suspended[i].Some? ==> m'.suspended[i] == m.suspended[i]
  {
    hide Inv, Kept, Do;
    if e.CreateEvent? {
      CreationKeeps(m, e.config, e.stackSize, words, m');
    } else {
      StepSafe(m.w, e);
      NextKernel(m.w, e, Do(m.w.k, e).k, Do(m.w.k, e).result);
      if e.TickEvent? { TickIsDo(m.w.k, e); TickUntouched(m.w); } else { ServiceUntouched(m.w, e); }
      UntouchedKeeps(m, m');
    }
  }

  lemma TickIsDo(k: Kernel, e: Event)
    requires Formed(k) && HeapModel.HasCursor(k.heap) && e.TickEvent?
    ensures Do(k, e) == Tick(k)
  {
    hide Tick, Create, Start, StartSvc, Yield, Sleep, WaitPeriod, Exit, MemoryAlloc, MemoryFree, PendSv;
  }

  // ---- The switch ----

  /** The outgoing registers land just below the stack pointer, inside the
      slot, and the exception frame above them stays. */
  lemma PushedWords(k: Kernel, c: Core)
    requires CoreOk(c) && Formed(k) && StacksOk(k) && k.current < TASK_COUNT && RoomToSave(k, c.psp)
    requires k.current == 0 || !k.tasks[k.current].state.Dormant?
    ensures var base := Index(k, c.psp - 32);
      && InSlot(k.current, base, FRAME_WORDS) && 0 <= base && base + FRAME_WORDS <= STACK_WORDS
      && Index(k, c.psp) == base + REGISTERS
      && Peek(Pushed(k, c), base, REGISTERS) == c.regs
      && Peek(Pushed(k, c), base + REGISTERS, REGISTERS) == Peek(c, base + REGISTERS, REGISTERS)
      && forall j :: 0 <= j < STACK_WORDS && !InSlot(k.current, j, 1) ==> Pushed(k, c).stacks[j] == c.stacks[j]
  {
    hide PspValid;
    FrameInSlot(k, k.current, c.psp - 32);
    var base := Index(k, c.psp - 32);
    var s := Pushed(k, c).stacks;
    assert Peek(Pushed(k, c), base, REGISTERS) == s[base..base + REGISTERS];
    assert s[base..base + REGISTERS] == c.regs;
    assert s[base + REGISTERS..base + 2 * REGISTERS] == c.stacks[base + REGISTERS..base + 2 * REGISTERS];
  }

  lemma CurrentOccupied(w: World)
    requires Inv(w) && Formed(w.k) && w.k.active
    ensures w.k.current < TASK_COUNT && (w.k.current == 0 || !w.k.tasks[w.k.current].state.Dormant?) && StacksOk(w.k)
  {
    hide TaskOk, StackOk, HeapOk, CadenceOk, FirstOk;
  }

  /** Which slots the switch leaves occupied. */
  lemma SwitchOccupancy(w: World, psp: nat)
    requires Inv(w) && Formed(w.k) && Enabled(w.k, PendSvEvent(psp))
    ensures var o := PendSv(w.k, psp);
      && o.Go? && Formed(o.k) && o.k.current < TASK_COUNT && o.k.active
      && (forall i :: 0 <= i < TASK_COUNT ==>
            (o.k.tasks[i].state.Dormant? <==>
             w.k.tasks[i].state.Dormant? || (i == w.k.current && w.k.tasks[i].state.Exiting?)))
      && !o.k.tasks[o.k.current].state.Dormant?
  {
    hide Inv, PendSv, Select, PspValid, Enabled;
    PendSvHolds(w, psp);
    InvIsFormed(World(PendSv(w.k, psp).k, w.first, w.k.excluded));
  }

  lemma IdleNeverExits(w: World)
    requires Inv(w) && Formed(w.k)
    ensures w.k.tasks[IDLE].state.Ready? || w.k.tasks[IDLE].state.Running?
  {
    hide TaskOk, StacksOk, HeapOk, CadenceOk, FirstOk, PhaseOk;
  }

  /** What the switch resumes, and that nobody else's context is touched. */
  lemma SwitchKeeps(m: Machine, m': Machine)
    requires Good(m) && SwitchStep(m, m')
    ensures Good(m')
    ensures var next := m'.w.k.current;
      && next < TASK_COUNT && Outgoing(m)[next].Some?
      && m'.core.psp == Outgoing(m)[next].value.psp && m'.core.regs == Outgoing(m)[next].value.regs
      && Peek(m'.core, Index(m'.w.k, m'.core.psp), REGISTERS) == Outgoing(m)[next].value.frame
    ensures forall i :: 0 <= i < TASK_COUNT && m.suspended[i].Some? && i != m'.w.k.current ==>
              m'.suspended[i] == m.suspended[i]
    ensures m.suspended[m'.w.k.current].Some? ==> Outgoing(m)[m'.w.k.current] == m.suspended[m'.w.k.current]
  {
    hide Inv, Kept, PendSv, Pushed, PspValid, Enabled, Peek;
    var middle := Machine(m'.w, if m.w.k.active then Pushed(m.w.k, m.core) else m.core, Outgoing(m));
    MiddleKept(m, m', middle);
    var next := m'.w.k.current;
    Resumed(middle, m', next);
    forall i | 0 <= i < TASK_COUNT ensures Kept(m', i) {
      if m'.suspended[i].None? { NotSuspended(m', i); } else { SameContext(middle, m', i); }
    }
  }

  /** Exactly the occupants of slots have a context here. */
  ghost predicate ContextsMatch(s: seq<Option<Suspended>>, k: Kernel) {
    && |s| == TASK_COUNT && Formed(k)
    && forall i :: 0 <= i < TASK_COUNT ==> (s[i].Some? <==> (i == 0 || !k.tasks[i].state.Dormant?))
  }

  ghost predicate AllKept(m: Machine) {
    |m.suspended| == TASK_COUNT && |m.w.k.tcbs| == TASK_COUNT && forall i :: 0 <= i < TASK_COUNT ==> Kept(m, i)
  }

  /** The reload reads the current task's saved context. */
  ghost predicate Reloads(middle: Machine, m': Machine) {
    && Formed(m'.w.k) && CoreOk(middle.core) && m'.w.k.active && m'.w.k.current < TASK_COUNT
    && !m'.w.k.tasks[m'.w.k.current].state.Dormant?
    && var resume := m'.w.k.tcbs[m'.w.k.current].savedPsp;
       && 0 <= Index(m'.w.k, resume) && Index(m'.w.k, resume) + REGISTERS <= STACK_WORDS
       && Index(m'.w.k, resume + 32) == Index(m'.w.k, resume) + REGISTERS
       && m'.core == Popped(m'.w.k, middle.core, resume)
  }

  /** The machine after the push and the choice, before the reload. */
  lemma MiddleKept(m: Machine, m': Machine, middle: Machine)
    requires Good(m) && SwitchStep(m, m')
    requires middle == Machine(m'.w, if m.w.k.active then Pushed(m.w.k, m.core) else m.core, Outgoing(m))
    ensures Inv(m'.w) && AllKept(middle) && ContextsMatch(Outgoing(m), m'.w.k) && Reloads(middle, m')
  {
    hide Inv, Kept, PendSv, Pushed, PspValid, Enabled, Peek;
    var k := m.w.k;
    NobodyYet(m.w);
    if k.active {
      PushedPsp(k, m.core);
      CurrentOccupied(m.w);
      PushedWords(k, m.core);
    }
    var psp := if k.active then m.core.psp - 32 else 0;
    SwitchEnabled(m);
    SwitchStacks(m.w, psp);
    SwitchOccupancy(m.w, psp);
    PendSvHolds(m.w, psp);
    IdleNeverExits(m.w);
    ResumeInSlot(m'.w);
    forall i | 0 <= i < TASK_COUNT ensures Kept(middle, i) {
      if Outgoing(m)[i].None? {
        NotSuspended(middle, i);
      } else if k.active && i == k.current {
        JustPushed(m, middle);
      } else {
        SlotsDisjoint(k.current, i);
        KeptElsewhere(m, middle, i);
      }
    }
  }

  lemma NobodyYet(w: World)
    requires Inv(w) && Formed(w.k)
    ensures !w.k.active ==> w.k.current == INVALID
  {
    hide TaskOk, StacksOk, HeapOk, CadenceOk, FirstOk;
  }

  lemma SlotsDisjoint(i: int, j: int)
    requires i != j
    ensures forall w :: InSlot(j, w, 1) ==> !InSlot(i, w, 1)
  {
  }

  lemma PushedPsp(k: Kernel, c: Core)
    requires CoreOk(c) && c.psp >= 32 && 0 <= Index(k, c.psp - 32) && Index(k, c.psp - 32) + REGISTERS <= STACK_WORDS
    ensures Pushed(k, c).psp == c.psp - 32 && CoreOk(Pushed(k, c))
  {
  }

  lemma ResumeInSlot(w: World)
    requires Inv(w) && Formed(w.k) && w.k.current < TASK_COUNT && !w.k.tasks[w.k.current].state.Dormant?
    ensures var resume := w.k.tcbs[w.k.current].savedPsp;
      Index(w.k, resume + 32) == Index(w.k, resume) + REGISTERS
      && 0 <= Index(w.k, resume) && Index(w.k, resume) + REGISTERS <= STACK_WORDS
  {
    hide TaskOk, HeapOk, CadenceOk, FirstOk, PhaseOk, TableOk, PspValid;
    assert StackOk(w.k, w.k.current);
    FrameInSlot(w.k, w.k.current, w.k.tcbs[w.k.current].savedPsp);
  }

  lemma SwitchEnabled(m: Machine)
    requires Good(m) && m.w.k.pending && (m.w.k.active ==> RoomToSave(m.w.k, m.core.psp))
    ensures Enabled(m.w.k, PendSvEvent(if m.w.k.active then m.core.psp - 32 else 0))
  {
    hide Inv, Kept, PspValid;
  }

  lemma JustPushed(m: Machine, middle: Machine)
    requires Good(m) && m.w.k.active && m.w.k.current < TASK_COUNT && RoomToSave(m.w.k, m.core.psp) && StacksOk(m.w.k)
    requires m.w.k.current == 0 || !m.w.k.tasks[m.w.k.current].state.Dormant?
    requires !m.w.k.tasks[m.w.k.current].state.Exiting?
    requires 0 <= Index(m.w.k, m.core.psp - 32) && Index(m.w.k, m.core.psp - 32) + REGISTERS <= STACK_WORDS
    requires middle.core == Pushed(m.w.k, m.core) && middle.suspended == Outgoing(m)
    requires |middle.w.k.tcbs| == TASK_COUNT && middle.w.k.stackPool == m.w.k.stackPool
    requires middle.w.k.tcbs[m.w.k.current].savedPsp == m.core.psp - 32
    ensures Kept(middle, m.w.k.current)
  {
    hide Inv, PspValid, Peek;
    PushedWords(m.w.k, m.core);
  }

  /** Loading the registers reads the context just as it was kept. */
  lemma Resumed(middle: Machine, m': Machine, next: u8)
    requires next < TASK_COUNT && |middle.suspended| == TASK_COUNT && |middle.w.k.tcbs| == TASK_COUNT
             && CoreOk(middle.core)
    requires middle.suspended[next].Some? && Kept(middle, next) && m'.w == middle.w
    requires var resume := middle.w.k.tcbs[next].savedPsp;
      && 0 <= Index(middle.w.k, resume) && Index(middle.w.k, resume) + REGISTERS <= STACK_WORDS
      && m'.core == Popped(middle.w.k, middle.core, resume) && Index(middle.w.k, resume + 32)
          == Index(middle.w.k, resume) + REGISTERS
    ensures var s := middle.suspended[next].value;
      && CoreOk(m'.core) && m'.core.psp == s.psp && m'.core.regs == s.regs
      && Peek(m'.core, Index(m'.w.k, m'.core.psp), REGISTERS) == s.frame
  {
  }

  lemma SameContext(m: Machine, m': Machine, i: int)
    requires 0 <= i < TASK_COUNT && |m.suspended| == TASK_COUNT && |m'.suspended| == TASK_COUNT
    requires |m.w.k.tcbs| == TASK_COUNT && m'.w == m.w && m'.core.stacks == m.core.stacks
             && m'.suspended[i] == m.suspended[i]
    requires Kept(m, i)
    ensures Kept(m', i)
  {
  }

  /** With room for the registers below the stack pointer, the handler always
      finds a context to resume. */
  lemma SwitchNeverFails(m: Machine) returns (m': Machine)
    requires Good(m) && m.w.k.pending && (m.w.k.active ==> RoomToSave(m.w.k, m.core.psp))
    ensures SwitchStep(m, m')
  {
    hide Inv, Kept, PendSv, PspValid, Enabled, Peek;
    var k := m.w.k;
    if k.active {
      CurrentOccupied(m.w);
      PushedWords(k, m.core);
    }
    var pushed := if k.active then Pushed(k, m.core) else m.core;
    var psp := if k.active then m.core.psp - 32 else 0;
    SwitchEnabled(m);
    SwitchStacks(m.w, psp);
    SwitchOccupancy(m.w, psp);
    PendSvHolds(m.w, psp);
    var o := PendSv(k, psp);
    ResumeInSlot(World(o.k, m.w.first, m.w.k.excluded));
    PspIsNotNull(o.k, o.k.current, o.result);
    m' := Machine(World(o.k, m.w.first, m.w.k.excluded), Popped(k, pushed, o.result), Outgoing(m)[o.k.current := None]);
  }

  lemma PspIsNotNull(k: Kernel, id: u8, psp: nat)
    requires PspValid(k, id, psp)
    ensures psp != 0
  {
  }

  // ---- Whole runs ----

  ghost predicate Steps(m: Machine, m': Machine) {
    || ComputeStep(m, m')
    || (exists e: Event, argument: u32, guard: u32, entry: u32 ::
          KernelStep(m, e, InitialWords(argument, guard, entry), m'))
    || SwitchStep(m, m')
  }

  /** A suspended context either stays as it is, or its task is being resumed
      with it. */
  lemma StepKeepsContexts(m: Machine, m': Machine)
    requires Good(m) && Steps(m, m')
    ensures Good(m')
    ensures forall i :: 0 <= i < TASK_COUNT && m.suspended[i].Some? ==>
      m'.suspended[i] == m.suspended[i] || (m'.suspended[i].None? && ResumesWith(m', i, m.suspended[i].value))
  {
    hide Inv, Kept, ComputeStep, KernelStep, SwitchStep, Peek;
    if ComputeStep(m, m') {
      ComputeKeeps(m, m');
    } else if SwitchStep(m, m') {
      SwitchKeeps(m, m');
      SwitchedIn(m, m');
    } else {
      var e: Event, argument: u32, guard: u32, entry: u32 :|
        KernelStep(m, e, InitialWords(argument, guard, entry), m');
      KernelStepKeeps(m, e, InitialWords(argument, guard, entry), m');
    }
  }

  /** Task i runs, with this context back in the core. */
  ghost predicate ResumesWith(m: Machine, i: int, s: Suspended) {
    m.w.k.current == i && m.core.psp == s.psp && m.core.regs == s.regs
        && Peek(m.core, Index(m.w.k, m.core.psp), REGISTERS) == s.frame
  }

  lemma SwitchedIn(m: Machine, m': Machine)
    requires SwitchStep(m, m')
    ensures m'.w.k.current < TASK_COUNT && |m'.suspended| == TASK_COUNT && m'.suspended[m'.w.k.current].None?
  {
    hide PendSv, Popped, Pushed, Outgoing;
  }

  ghost predicate Runs(ms: seq<Machine>) {
    forall j :: 0 <= j < |ms| - 1 ==> Steps(ms[j], ms[j + 1])
  }

  lemma {:induction false} ContextUnchanged(ms: seq<Machine>, i: int, n: nat)
    requires n < |ms| && Good(ms[0]) && Runs(ms) && 0 <= i < TASK_COUNT
    requires forall j :: 0 <= j <= n ==> |ms[j].suspended| == TASK_COUNT && ms[j].suspended[i].Some?
    ensures Good(ms[n]) && ms[n].suspended[i] == ms[0].suspended[i]
  {
    hide Good, Steps;
    if n > 0 {
      ContextUnchanged(ms, i, n - 1);
      StepKeepsContexts(ms[n - 1], ms[n]);
    }
  }

  /** Over any number of steps and switches in between, a task that was switched
      out is resumed with the stack pointer, R4-R11 and exception frame it was
      suspended with. */
  lemma ResumedAsSuspended(ms: seq<Machine>, i: int)
    requires |ms| > 1 && Good(ms[0]) && Runs(ms) && 0 <= i < TASK_COUNT
    requires forall j :: 0 <= j < |ms| ==> |ms[j].suspended| == TASK_COUNT
    requires forall j :: 0 <= j < |ms| - 1 ==> ms[j].suspended[i].Some?
    requires ms[|ms| - 1].suspended[i].None?
    ensures ResumesWith(ms[|ms| - 1], i, ms[0].suspended[i].value)
  {
    hide Good, Steps, ResumesWith;
    ContextUnchanged(ms, i, |ms| - 2);
    StepKeepsContexts(ms[|ms| - 2], ms[|ms| - 1]);
  }

  /** A new task starts as it was created, whatever happens before its first
      switch: R4 to R11 are zero, the stack pointer stands one exception frame
      below the top of the stack it asked for, and the frame returns to its entry
      in Thumb state with its argument in R0 and the guard in the link
      register. */
  lemma NewTaskStartsAsCreated(m: Machine, ms: seq<Machine>, c: TimingConfig, size: nat, argument: u32, guard: u32,
                               entry: u32, i: nat)
    requires |ms| > 1 && Runs(ms) && Good(m) && 0 < i < TASK_COUNT
    requires KernelStep(m, CreateEvent(c, size), InitialWords(argument, guard, entry), ms[0])
    requires Takes(m.w.k, c, size, i)
    requires forall j :: 0 <= j < |ms| ==> |ms[j].suspended| == TASK_COUNT
    requires forall j :: 0 <= j < |ms| - 1 ==> ms[j].suspended[i].Some?
    requires ms[|ms| - 1].suspended[i].None?
    ensures ResumesWith(ms[|ms| - 1], i,
                        Suspended(m.w.k.stackPool + 1024 * i + size - 32,
                                  [0, 0, 0, 0, 0, 0, 0, 0],
                                  [argument, 0, 0, 0, 0, guard, entry, 0x0100_0000]))
  {
    hide Good, Steps, ResumesWith, KernelStep, Runs, InitialWords, Takes;
    var words := InitialWords(argument, guard, entry);
    StartingWords(argument, guard, entry);
    NewcomerStack(m, c, size, i);
    KernelStepKeeps(m, CreateEvent(c, size), words, ms[0]);
    NewcomerSuspended(m, c, size, words, ms[0], i);
    ResumedAsSuspended(ms, i);
  }

  /** Creation succeeds and takes this slot. */
  ghost predicate Takes(k: Kernel, c: TimingConfig, size: nat, i: nat) {
    Formed(k) && Create(k, c, size).Go? && Create(k, c, size).result == i && Formed(Create(k, c, size).k)
  }

  lemma StartingWords(argument: u32, guard: u32, entry: u32)
    ensures var words := InitialWords(argument, guard, entry);
      && words[..REGISTERS] == [0, 0, 0, 0, 0, 0, 0, 0]
      && words[REGISTERS..] == [argument, 0, 0, 0, 0, guard, entry, 0x0100_0000]
  {
  }

  lemma NewcomerStack(m: Machine, c: TimingConfig, size: nat, i: nat)
    requires Good(m) && Takes(m.w.k, c, size, i) && 0 < i < TASK_COUNT
    ensures Create(m.w.k, c, size).k.tcbs[i].savedPsp + 32 == m.w.k.stackPool + 1024 * i + size - 32
  {
    hide Inv, Kept, Create;
    KernelRequests.CreationInstalls(m.w, c, size);
  }

  lemma NewcomerSuspended(m: Machine, c: TimingConfig, size: nat, words: seq<u32>, m': Machine, i: nat)
    requires KernelStep(m, CreateEvent(c, size), words, m') && Takes(m.w.k, c, size, i) && 0 < i < TASK_COUNT
    ensures |m'.suspended| == TASK_COUNT
    ensures m'.suspended[i]
            == Some(Suspended(Create(m.w.k, c, size).k.tcbs[i].savedPsp + 32, words[..REGISTERS], words[REGISTERS..]))
  {
    hide Create;
  }

  /** A task that is switched out, and not chosen again at once, is recorded
      with the stack pointer and registers it had and the exception frame on
      its stack. */
  lemma SwitchOutRecords(m: Machine, m': Machine)
    requires Good(m) && SwitchStep(m, m') && m.w.k.active
    ensures m.w.k.current < TASK_COUNT
    ensures m.w.k.current != m'.w.k.current && !m.w.k.tasks[m.w.k.current].state.Exiting? ==>
              |m'.suspended| == TASK_COUNT
              && m'.suspended[m.w.k.current]
                 == Some(Suspended(m.core.psp, m.core.regs, Peek(m.core, Index(m.w.k, m.core.psp), REGISTERS)))
  {
    hide PendSv, Popped, Pushed, Peek, Kept;
    CurrentOccupied(m.w);
  }

  /** The machine right after initialisation, with idle's frame laid. */
  lemma BootedIsGood(w: World, core: Core, argument: u32, guard: u32, entry: u32) returns (m: Machine)
    requires Booted(w) && CoreOk(core)
    ensures Good(m) && m.w == w
  {
    hide Inv, Boot, Kept;
    EmptyRun(w);
    assert Reachable(w);
    ReachableIsGood(w);
    OnlyIdleIsThere(w);
    NewFrameInSlot(w, 0);
    var words := InitialWords(argument, guard, entry);
    var base := Index(w.k, w.k.tcbs[0].savedPsp);
    m := Machine(w, core.(stacks := Overwritten(core.stacks, base, words)),
                 [Some(Suspended(w.k.tcbs[0].savedPsp + 32, words[..REGISTERS], words[REGISTERS..])), None, None, None,
                  None]);
    NewContextKept(m, 0, base, words);
    forall i | 0 <= i < TASK_COUNT ensures Kept(m, i) {
      if i > 0 { NotSuspended(m, i); }
    }
  }

  lemma OnlyIdleIsThere(w: World)
    requires Booted(w) && Formed(w.k)
    ensures !w.k.active && !w.k.tasks[0].state.Dormant?
    ensures forall i :: 1 <= i < TASK_COUNT ==> w.k.tasks[i].state.Dormant?
  {
    hide HeapModel.Init, LayoutValid, StateVerified;
  }
}
