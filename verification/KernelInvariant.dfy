/** What every reachable kernel state satisfies, in every interleaving of
    creation, services, SysTick and PendSV, and that every step keeps it. */
module KernelInvariant {
  import opened Words
  import opened Scheduler
  import opened TraceTypes
  import opened TraceSelection
  import opened KernelModel
  import opened KernelTasks
  import opened HeapChain
  import HeapModel
  import HeapLaws

  /** A kernel with what the statements about its past need: each slot's first
      release, and the task the last dispatch was not allowed to choose. */
  datatype World = World(k: Kernel, first: seq<u64>, lastExcluded: u8)

  predicate IdleOk(t: Task) {
    t == Reset(IDLE).(state := Ready) || t == Reset(IDLE).(state := Running)
  }

  predicate TableOk(tasks: seq<Task>, now: u64) {
    && |tasks| == TASK_COUNT && (forall i :: 0 <= i < TASK_COUNT ==> tasks[i].id == i)
    && IdleOk(tasks[IDLE]) && (forall i :: 1 <= i < TASK_COUNT ==> TaskOk(tasks[i], now))
  }

  /** A slot owns its stack exactly while it has an occupant, and the saved
      stack pointer leaves room for a whole context inside it. */
  predicate StackOk(k: Kernel, i: int)
    requires Formed(k) && 0 <= i < TASK_COUNT
  {
    if i == 0 || !k.tasks[i].state.Dormant? then
      && k.tcbs[i].claimed && k.tcbs[i].low == StackLow(k, i) && k.tcbs[i].high <= k.tcbs[i].low + MAX_STACK
      && PspValid(k, i, k.tcbs[i].savedPsp)
    else k.tcbs[i] == UNCLAIMED
  }

  predicate StacksOk(k: Kernel)
    requires Formed(k)
  {
    && k.stackPool > 0 && k.stackPool % 8 == 0
    && forall i :: 0 <= i < TASK_COUNT ==> StackOk(k, i)
  }

  predicate OnlyMayRun(tasks: seq<Task>, id: u8) {
    forall i :: 0 <= i < |tasks| && tasks[i].state.Running? ==> i == id
  }

  /** Some ready user task outranks task id. */
  predicate Outranked(tasks: seq<Task>, id: u8)
    requires id < |tasks|
  {
    exists j :: 1 <= j < |tasks| && j != id && Outranks(tasks[j], tasks[id])
  }

  /** Why a PendSV can be pending, and what then holds of the outgoing task. */
  predicate PendingOk(k: Kernel)
    requires Formed(k) && k.current < TASK_COUNT
  {
    var s := k.tasks[k.current].state;
    && (k.cause != CAUSE_YIELD ==> k.excluded == INVALID)
    && (if k.cause == CAUSE_YIELD then k.sources == 0 && s.Ready? && k.current != IDLE && k.excluded == k.current
        else if k.cause == CAUSE_SLEEP then k.sources == 0 && k.current != IDLE && (s.Sleeping? || s.Ready?)
        else if k.cause == CAUSE_EXIT then k.sources == 0 && k.current != IDLE && s.Exiting?
        else if k.cause == CAUSE_WAIT_PERIOD then k.sources == 0 && k.current != IDLE && (s.WaitingRelease? || s.Ready?)
        else if k.cause == CAUSE_SYSTICK then k.sources == 1 && s.Ready? && Outranked(k.tasks, k.current)
        else if k.cause == CAUSE_CREATE then
          k.sources == 2 && s.Running? && k.current != IDLE && Outranked(k.tasks, k.current)
        else
          k.cause == CAUSE_COALESCED && k.sources == 3 && s.Ready? && k.current != IDLE
          && Outranked(k.tasks, k.current))
  }

  /** Before the first dispatch nobody runs; afterwards only the current task
      may, and it does whenever no PendSV is pending. */
  predicate PhaseOk(k: Kernel)
    requires Formed(k)
  {
    if !k.active then
      && k.current == INVALID && k.excluded == INVALID && k.sources == 0 && (k.pending ==> k.running)
      && OnlyMayRun(k.tasks, INVALID) && k.cause == if k.running then CAUSE_START else 0
    else
      && k.running && k.current < TASK_COUNT && OnlyMayRun(k.tasks, k.current)
      && if k.pending then PendingOk(k)
         else k.tasks[k.current].state.Running? && k.sources == 0 && k.cause == 0 && k.excluded == INVALID
  }

  /** Deadline-first: while nothing is pending, the only ready task that may
      outrank the running one is the task the last dispatch had to pass over. */
  predicate FirstOk(k: Kernel, lastExcluded: u8)
    requires Formed(k)
  {
    k.active && !k.pending && k.current < TASK_COUNT ==>
      forall j :: 1 <= j < TASK_COUNT && j != lastExcluded ==> !Outranks(k.tasks[j], k.tasks[k.current])
  }

  predicate Occupied(tasks: seq<Task>, owner: int) {
    1 <= owner < |tasks| && !tasks[owner].state.Dormant?
  }

  /** No allocation outlives the occupant of its slot. */
  ghost predicate HeapOk(k: Kernel) {
    && HeapModel.HeapInv(k.heap) && k.heapStart <= k.heap.begin && k.heap.end <= k.heapStop
    && forall b :: b in Live(k.heap.chain) ==> Occupied(k.tasks, b.owner)
  }

  predicate CadenceOk(tasks: seq<Task>, first: seq<u64>) {
    |first| == |tasks| && forall i :: 0 <= i < |tasks| ==> OnCadence(tasks[i], first[i])
  }

  ghost predicate Inv(w: World) {
    && TableOk(w.k.tasks, w.k.now) && |w.k.tcbs| == TASK_COUNT && StacksOk(w.k) && PhaseOk(w.k)
    && FirstOk(w.k, w.lastExcluded) && HeapOk(w.k) && CadenceOk(w.k.tasks, w.first)
  }

  // ---- Steps on worlds ----

  /** A successful creation starts a new release history for its slot; a
      dispatch remembers whom it had to pass over. */
  function Next(w: World, e: Event, k': Kernel, result: nat): World {
    match e
    case CreateEvent(c, _) =>
      if 0 < result < |w.first| && w.k.now + c.initialReleaseDelay <= U64_MAX then
        World(k', w.first[result := w.k.now + c.initialReleaseDelay], w.lastExcluded)
      else World(k', w.first, w.lastExcluded)
    case PendSvEvent(_) => World(k', w.first, w.k.excluded)
    case _ => World(k', w.first, w.lastExcluded)
  }

  lemma NextKernel(w: World, e: Event, k': Kernel, result: nat)
    ensures Next(w, e, k', result).k == k'
  {
  }

  lemma InvIsFormed(w: World)
    requires Inv(w)
    ensures Formed(w.k) && |w.first| == TASK_COUNT && HeapModel.HasCursor(w.k.heap)
  {
    hide TaskOk, StacksOk, PhaseOk, FirstOk, Live, Tiles;
  }

  // ---- Boot ----

  lemma BootHeapOk(k: Kernel)
    requires k.heapStart < k.heapStop && HeapModel.Init(k.heapStart, k.heapStop - k.heapStart) == Some(k.heap)
    ensures HeapOk(k)
  {
    HeapModel.InitHolds(k.heapStart, k.heapStop - k.heapStart);
    assert k.heap.chain[1..] == [];
    assert Live(k.heap.chain) == [];
  }

  lemma BootStacksOk(k: Kernel)
    requires Formed(k) && LayoutValid(k.stackPool, k.stackPool + MAX_STACK)
    requires k.tcbs == [Tcb(k.stackPool + MAX_STACK - FRAME_BYTES, k.stackPool, k.stackPool + MAX_STACK, true, false),
                        UNCLAIMED, UNCLAIMED, UNCLAIMED, UNCLAIMED]
    requires forall i :: 1 <= i < TASK_COUNT ==> k.tasks[i].state.Dormant?
    ensures StacksOk(k)
  {
    assert StackOk(k, 0);
  }

  lemma BootTableOk(tasks: seq<Task>)
    requires tasks == [IdleTask(), Reset(1), Reset(2), Reset(3), Reset(4)]
    ensures TableOk(tasks, 0) && CadenceOk(tasks, [0, 0, 0, 0, 0]) && OnlyMayRun(tasks, INVALID)
    ensures forall i :: 1 <= i < TASK_COUNT ==> tasks[i].state.Dormant?
  {
    hide Reset, IdleTask, TaskOk, OnCadence, IdleOk;
    ResetIsOk(1);
    ResetIsOk(2);
    ResetIsOk(3);
    ResetIsOk(4);
    IdleTaskIsOk();
  }

  lemma ResetIsOk(id: u8)
    ensures Reset(id).id == id && Reset(id).state.Dormant? && TaskOk(Reset(id), 0) && OnCadence(Reset(id), 0)
  {
  }

  lemma IdleTaskIsOk()
    ensures IdleTask().id == IDLE && IdleTask().state.Ready? && IdleOk(IdleTask()) && OnCadence(IdleTask(), 0)
  {
  }

  lemma BootHolds(stackPool: nat, heapStart: u32, heapStop: u32)
    ensures var o := Boot(stackPool, heapStart, heapStop);
      o.Go? ==> Inv(World(o.k, [0, 0, 0, 0, 0], INVALID))
  {
    hide HeapOk, HeapModel.Init, StacksOk, TaskOk, OnCadence, IdleOk, Reset, IdleTask;
    var o := Boot(stackPool, heapStart, heapStop);
    if o.Go? {
      BootTableOk(o.k.tasks);
      BootHeapOk(o.k);
      BootStacksOk(o.k);
    }
  }

  // ---- Services ----

  predicate InService(k: Kernel)
    requires Formed(k)
  {
    CallerRuns(k) && !k.pending && k.current != IDLE
  }

  /** A service replaces the caller's entry by one that is no longer running and
      leaves the choice to PendSV. */
  lemma ServiceKeeps(w: World, t: Task, k': Kernel)
    requires Inv(w) && InService(w.k)
    requires t.id == w.k.current && TaskOk(t, w.k.now) && !t.state.Dormant? && !t.state.Running?
    requires OnCadence(t, w.first[w.k.current])
    requires k' == WithTask(w.k, w.k.current, t).(cause := k'.cause, excluded := k'.excluded, pending := true,
                                                  log := k'.log)
    requires PendingOk(k')
    ensures Inv(World(k', w.first, w.lastExcluded))
  {
    hide TaskOk, OnCadence, PspValid, HeapModel.HeapInv, Live, PendingOk;
    StacksSame(w.k, k');
  }

  /** Stack pointer validity reads only the stack bounds. */
  lemma PspSame(k: Kernel, k': Kernel, i: u8)
    requires i < |k.tcbs| && i < |k'.tcbs| && k.tcbs[i].low == k'.tcbs[i].low && k.tcbs[i].high == k'.tcbs[i].high
    ensures forall psp :: PspValid(k, i, psp) <==> PspValid(k', i, psp)
  {
  }

  lemma StacksSame(k: Kernel, k': Kernel)
    requires Formed(k) && Formed(k') && StacksOk(k)
    requires k'.tcbs == k.tcbs && k'.stackPool == k.stackPool
    requires forall i :: 0 <= i < TASK_COUNT ==> (k'.tasks[i].state.Dormant? <==> k.tasks[i].state.Dormant?)
    ensures StacksOk(k')
  {
    hide PspValid;
    forall i | 0 <= i < TASK_COUNT ensures StackOk(k', i) {
      assert StackOk(k, i);
      PspSame(k, k', i);
    }
  }

  lemma YieldHolds(w: World)
    requires Inv(w) && InService(w.k)
    ensures Yield(w.k).Go? && Inv(World(Yield(w.k).k, w.first, w.lastExcluded))
  {
    ServiceKeeps(w, w.k.tasks[w.k.current].(state := Ready), Yield(w.k).k);
  }

  lemma SleepHolds(w: World, ticks: u32)
    requires Inv(w) && InService(w.k)
    ensures var o := Sleep(w.k, ticks);
      && (o.Panic? <==> 0 < ticks <= I32_MAX && w.k.now > U64_MAX - ticks)
      && (o.Go? ==> Inv(World(o.k, w.first, w.lastExcluded)))
  {
    if 0 < ticks <= I32_MAX && w.k.now <= U64_MAX - ticks {
      assert TaskOk(w.k.tasks[w.k.current], w.k.now);
      ServiceKeeps(w, SleepJob(w.k.tasks[w.k.current], w.k.now, ticks).0, Sleep(w.k, ticks).k);
    }
  }

  lemma ExitHolds(w: World)
    requires Inv(w) && InService(w.k)
    ensures Exit(w.k).Go? && Inv(World(Exit(w.k).k, w.first, w.lastExcluded))
  {
    hide TaskOk, StackOk;
    var before := w.k.tasks[w.k.current];
    CompletionHolds(before, w.k.now);
    ServiceKeeps(w, CompleteJob(before, w.k.now).0.(state := Exiting), Exit(w.k).k);
  }

  lemma WaitPeriodHolds(w: World)
    requires Inv(w) && InService(w.k)
    ensures WaitPeriod(w.k).Go? && Inv(World(WaitPeriod(w.k).k, w.first, w.lastExcluded))
  {
    hide TaskOk, StackOk;
    var before := w.k.tasks[w.k.current];
    CompletionHolds(before, w.k.now);
    if before.kind.Periodic? {
      ServiceKeeps(w, CompleteJob(before, w.k.now).0.(state := WaitingRelease), WaitPeriod(w.k).k);
    }
  }

  lemma StartHolds(w: World)
    requires Inv(w) && !w.k.running
    ensures Start(w.k).Go? && Inv(World(Start(w.k).k, w.first, w.lastExcluded))
  {
    hide TaskOk, PspValid, HeapModel.HeapInv;
    StacksSame(w.k, Start(w.k).k);
  }

  lemma StartSvcHolds(w: World)
    requires Inv(w) && w.k.running && !w.k.active
    ensures StartSvc(w.k).Go? && Inv(World(StartSvc(w.k).k, w.first, w.lastExcluded))
  {
    hide TaskOk, PspValid, HeapModel.HeapInv;
    StacksSame(w.k, StartSvc(w.k).k);
  }

  // ---- Memory ----

  lemma HeapStepHolds(w: World, heap: HeapModel.Heap, log: seq<Batch>)
    requires Inv(w)
    requires HeapOk(w.k.(heap := heap))
    ensures Inv(World(w.k.(heap := heap, log := log), w.first, w.lastExcluded))
  {
    hide TaskOk, PspValid, HeapModel.HeapInv, Live;
    var k' := w.k.(heap := heap, log := log);
    StacksSame(w.k, k');
  }

  lemma AllocHolds(w: World, size: u32)
    requires Inv(w) && HeapModel.HasCursor(w.k.heap)
    ensures MemoryAlloc(w.k, size).Go? && Inv(World(MemoryAlloc(w.k, size).k, w.first, w.lastExcluded))
  {
    hide TaskOk, StacksOk, HeapModel.HeapInv, Live, HeapModel.Alloc;
    if MayUseHeap(w.k) {
      HeapLaws.AllocKeepsInv(w.k.heap, size, w.k.current);
      AllocOwners(w.k, size);
      HeapStepHolds(w, HeapModel.Alloc(w.k.heap, size, w.k.current).0, MemoryAlloc(w.k, size).k.log);
    }
  }

  /** The new block belongs to the caller; the others keep their owners. */
  lemma AllocOwners(k: Kernel, size: u32)
    requires HeapOk(k) && HeapModel.HasCursor(k.heap) && Occupied(k.tasks, k.current)
    ensures HeapOk(k.(heap := HeapModel.Alloc(k.heap, size, k.current).0))
  {
    hide HeapModel.HeapInv, Live, HeapModel.Alloc, HeapLaws.FirstFit, HeapLaws.Serviceable;
    var h' := HeapModel.Alloc(k.heap, size, k.current).0;
    HeapLaws.AllocKeepsInv(k.heap, size, k.current);
    HeapLaws.AllocFailsExactly(k.heap, size, k.current);
    if HeapModel.Alloc(k.heap, size, k.current).1 != 0 {
      var at := HeapLaws.AllocIsNextFit(k.heap, size, k.current);
    }
  }

  lemma FreeOwners(k: Kernel, pointer: u32)
    requires HeapOk(k)
    ensures HeapOk(k.(heap := HeapModel.FreeBlock(k.heap, pointer, k.current).0))
  {
    hide HeapModel.HeapInv, Live, HeapModel.FreeAt;
    HeapLaws.FreeKeepsInv(k.heap, pointer, k.current);
    if pointer != 0 {
      HeapLaws.FreeRemovesExactlyThatBlock(k.heap, pointer, k.current);
    }
  }

  lemma FreeHolds(w: World, pointer: u32)
    requires Inv(w)
    ensures MemoryFree(w.k, pointer).Go? && Inv(World(MemoryFree(w.k, pointer).k, w.first, w.lastExcluded))
  {
    hide TaskOk, StacksOk, HeapModel.HeapInv, Live, HeapModel.FreeBlock;
    if MayUseHeap(w.k) {
      FreeOwners(w.k, pointer);
      HeapStepHolds(w, HeapModel.FreeBlock(w.k.heap, pointer, w.k.current).0, MemoryFree(w.k, pointer).k.log);
    }
  }

  // ---- Creation ----

  /** An entry whose slot was empty cannot own heap blocks, so any occupant may
      move in. */
  lemma HeapOkAfterInstall(k: Kernel, k': Kernel, id: u8)
    requires HeapOk(k) && Formed(k) && Formed(k') && id < TASK_COUNT
    requires k'.heap == k.heap && k'.heapStart == k.heapStart && k'.heapStop == k.heapStop
    requires forall i :: 0 <= i < TASK_COUNT && i != id ==> k'.tasks[i] == k.tasks[i]
    requires k.tasks[id].state.Dormant?
    ensures HeapOk(k')
  {
    hide HeapModel.HeapInv, Live;
  }

  lemma LayoutHolds(k: Kernel, id: u8, size: nat)
    requires Formed(k) && StacksOk(k) && id < TASK_COUNT && MIN_STACK <= size <= MAX_STACK && size % 8 == 0
    ensures LayoutValid(StackLow(k, id), StackLow(k, id) + size)
    ensures (StackLow(k, id) + size - FRAME_BYTES) % 8 == 0
  {
  }

  lemma InstalledHolds(w: World, id: u8, c: TimingConfig, size: nat)
    requires Inv(w) && 1 <= id < TASK_COUNT && w.k.tasks[id].state.Dormant?
    requires MIN_STACK <= size <= MAX_STACK && size % 8 == 0
    requires w.k.running ==> CallerRuns(w.k)
    requires Configure(w.k.tasks[id], c, w.k.now).1
    ensures var t := Configure(w.k.tasks[id], c, w.k.now).0;
      var k' := Installed(w.k, id, t, size);
      && w.k.now + c.initialReleaseDelay <= U64_MAX
      && TableOk(k'.tasks, k'.now) && StacksOk(k') && HeapOk(k')
      && CadenceOk(k'.tasks, w.first[id := w.k.now + c.initialReleaseDelay])
      && t.id == id && (t.state.Ready? || t.state.WaitingRelease?) && OnlyMayRun(k'.tasks, k'.current)
  {
    hide TaskOk, OnCadence, HeapModel.HeapInv, Live, Configure;
    assert TaskOk(w.k.tasks[id], w.k.now);
    assert w.k.tasks[id] == Reset(id) by { DormantIsReset(w.k.tasks[id], w.k.now); }
    ConfigureHolds(id, c, w.k.now);
    LayoutHolds(w.k, id, size);
    var k' := Installed(w.k, id, Configure(w.k.tasks[id], c, w.k.now).0, size);
    HeapOkAfterInstall(w.k, k', id);
    forall i | 0 <= i < TASK_COUNT ensures StackOk(k', i) {
      assert StackOk(w.k, i);
    }
  }

  lemma DormantIsReset(t: Task, now: u64)
    requires TaskOk(t, now) && t.state.Dormant?
    ensures t == Reset(t.id)
  {
  }

  /** Creation either changes nothing and reports failure, or puts the new task
      into an empty slot; it never panics. */
  lemma CreateHolds(w: World, c: TimingConfig, size: nat)
    requires Inv(w)
    ensures var o := Create(w.k, c, size);
      o.Go? && Inv(Next(w, CreateEvent(c, size), o.k, o.result))
  {
    hide TaskOk, OnCadence, HeapOk, StacksOk, Configure, Outranks;
    if !CreationRefused(w.k, c, size) {
      var id := FreeSlot(w.k, 1);
      if id != INVALID {
        assert w.k.tasks[id] == Reset(id) by { DormantIsReset(w.k.tasks[id], w.k.now); }
        if Configure(w.k.tasks[id], c, w.k.now).1 {
          InstalledHolds(w, id, c, size);
          LayoutHolds(w.k, id, size);
          CreatedHolds(w, id, c, size);
        } else {
          assert ResetSlot(w.k, id) == w.k by { EmptySlot(w, id); }
        }
      }
    }
  }

  lemma EmptySlot(w: World, id: u8)
    requires Inv(w) && 1 <= id < TASK_COUNT && w.k.tasks[id].state.Dormant?
    ensures ResetSlot(w.k, id) == w.k
  {
    hide HeapModel.HeapInv, Live;
    assert StackOk(w.k, id);
    assert TaskOk(w.k.tasks[id], w.k.now);
  }

  /** The running task goes on unless somebody asks for a switch. */
  predicate CallerOnly(k: Kernel)
    requires Formed(k)
  {
    k.running ==> CallerRuns(k) && k.current != IDLE
  }

  /** Nobody but task id, and the task passed over, may outrank the caller. */
  predicate FirstButFor(k: Kernel, lastExcluded: u8, id: u8)
    requires Formed(k)
  {
    k.active && !k.pending && k.current < TASK_COUNT ==>
      forall j :: 1 <= j < TASK_COUNT && j != lastExcluded && j != id ==> !Outranks(k.tasks[j], k.tasks[k.current])
  }

  lemma OutranksNeedsReady(t: Task, u: Task)
    requires Outranks(t, u)
    ensures t.state.Ready?
  {
  }

  lemma InstalledPhase(w: World, k': Kernel, id: u8)
    requires Inv(w) && Formed(k') && CallerOnly(w.k) && 1 <= id < TASK_COUNT && w.k.tasks[id].state.Dormant?
    requires k' == w.k.(tasks := k'.tasks, tcbs := k'.tcbs, log := k'.log)
    requires forall i :: 0 <= i < TASK_COUNT && i != id ==> k'.tasks[i] == w.k.tasks[i]
    requires !k'.tasks[id].state.Running?
    ensures PhaseOk(k') && FirstButFor(k', w.lastExcluded, id) && CallerOnly(k') && id != k'.current
  {
    hide Outranks, HeapOk, StacksOk, TaskOk, OnCadence;
    if w.k.active && w.k.pending && Outranked(w.k.tasks, w.k.current) {
      var j :| 1 <= j < TASK_COUNT && j != w.k.current && Outranks(w.k.tasks[j], w.k.tasks[w.k.current]);
      OutranksNeedsReady(w.k.tasks[j], w.k.tasks[w.k.current]);
      assert Outranked(k'.tasks, k'.current);
    }
  }

  /** Asking for a switch on behalf of a new task keeps every clause. */
  lemma ChallengedHolds(k: Kernel, id: u8, lastExcluded: u8)
    requires Formed(k) && PhaseOk(k) && CallerOnly(k) && FirstButFor(k, lastExcluded, id)
    requires 1 <= id < TASK_COUNT && id != k.current
    ensures var o := Challenged(k, id);
      && o.Go? && PhaseOk(o.k) && FirstOk(o.k, lastExcluded) && StateVerified(o.k)
      && o.k == k.(sources := o.k.sources, cause := o.k.cause, pending := o.k.pending, log := o.k.log)
  {
    hide Outranks, SelectionBatch;
    if k.running {
      if k.tasks[id].state == Ready && Outranks(k.tasks[id], k.tasks[k.current]) {
        assert Outranked(k.tasks, k.current);
      } else if Outranks(k.tasks[id], k.tasks[k.current]) {
        OutranksNeedsReady(k.tasks[id], k.tasks[k.current]);
      }
    }
  }

  lemma HeapSame(k: Kernel, k': Kernel)
    requires HeapOk(k) && k'.heap == k.heap && k'.heapStart == k.heapStart && k'.heapStop == k.heapStop
    requires Formed(k) && Formed(k')
    requires forall i :: 0 <= i < TASK_COUNT ==> (k'.tasks[i].state.Dormant? <==> k.tasks[i].state.Dormant?)
    ensures HeapOk(k')
  {
    hide HeapModel.HeapInv, Live;
  }

  lemma CreatedHolds(w: World, id: u8, c: TimingConfig, size: nat)
    requires Inv(w) && !CreationRefused(w.k, c, size) && id == FreeSlot(w.k, 1) && id != INVALID
    requires Configure(w.k.tasks[id], c, w.k.now).1
    ensures var o := Create(w.k, c, size);
      o.Go? && o.result == id && Inv(Next(w, CreateEvent(c, size), o.k, o.result))
  {
    hide TaskOk, OnCadence, HeapOk, StackOk, Configure, LayoutValid, Outranks, StateVerified, PhaseOk, FirstOk,
         FirstButFor,
         Challenged, StacksOk, TableOk, CadenceOk;
    InvIsFormed(w);
    assert CallerOnly(w.k);
    InstalledHolds(w, id, c, size);
    LayoutHolds(w.k, id, size);
    var k0 := Installed(w.k, id, Configure(w.k.tasks[id], c, w.k.now).0, size);
    var k1 := Announced(k0, id);
    InstalledPhase(w, k1, id);
    ChallengedHolds(k1, id, w.lastExcluded);
    var k2 := Challenged(k1, id).k;
    StacksSame(k0, k2);
    HeapSame(k0, k2);
  }
}
