/** Whole runs of the kernel: safety, deadline-first scheduling, release
    cadence, deadline accounting and heap ownership in every reachable state. */
module KernelRuns {
  import opened Words
  import opened Scheduler
  import opened TraceTypes
  import opened TraceSelection
  import opened KernelModel
  import opened KernelTasks
  import opened KernelInvariant
  import opened KernelSteps
  import opened HeapChain
  import HeapModel

  /** The only ways a step can fail: the 64-bit clock cannot represent the next
      tick, the next period boundary, or a wake-up instant. */
  predicate TimeRunsOut(k: Kernel, e: Event) {
    match e
    case TickEvent => ClockOverruns(k)
    case SleepEvent(ticks) => 0 < ticks <= I32_MAX && k.now > U64_MAX - ticks
    case _ => false
  }

  /** Every enabled step from a good state keeps the invariant, and panics
      exactly when time runs out. */
  lemma StepSafe(w: World, e: Event)
    requires Inv(w) && Formed(w.k) && HeapModel.HasCursor(w.k.heap) && Enabled(w.k, e)
    ensures var o := Do(w.k, e);
      && (o.Panic? <==> TimeRunsOut(w.k, e))
      && (o.Go? ==> Inv(Next(w, e, o.k, o.result)))
  {
    hide Inv, Create, Start, StartSvc, Yield, Sleep, WaitPeriod, Exit, MemoryAlloc, MemoryFree, Tick, PendSv,
         ClockOverruns;
    match e
    case CreateEvent(config, size) => CreateHolds(w, config, size);
    case StartEvent => StartHolds(w);
    case StartSvcEvent => StartSvcHolds(w);
    case YieldEvent => YieldHolds(w);
    case SleepEvent(ticks) => SleepHolds(w, ticks);
    case WaitPeriodEvent => WaitPeriodHolds(w);
    case ExitEvent => ExitHolds(w);
    case AllocEvent(size) => AllocHolds(w, size);
    case FreeEvent(pointer) => FreeHolds(w, pointer);
    case TickEvent => TickHolds(w);
    case PendSvEvent(psp) => PendSvHolds(w, psp);
  }

  // ---- Runs ----

  /** The events es, in order, lead from w to v. */
  ghost predicate Leads(w: World, es: seq<Event>, v: World)
    decreases |es|
  {
    if es == [] then v == w
    else
      && Formed(w.k) && HeapModel.HasCursor(w.k.heap) && Enabled(w.k, es[0])
      && var o := Do(w.k, es[0]);
         o.Go? && Leads(Next(w, es[0], o.k, o.result), es[1..], v)
  }

  /** The state right after a successful initialisation. */
  ghost predicate Booted(w: World) {
    exists stackPool: nat, heapStart: u32, heapStop: u32 ::
      var o := Boot(stackPool, heapStart, heapStop);
      o.Go? && w == World(o.k, [0, 0, 0, 0, 0], INVALID)
  }

  ghost predicate Reachable(w: World) {
    exists w0: World, es: seq<Event> :: Booted(w0) && Leads(w0, es, w)
  }

  lemma {:induction false} RunsKeepInv(w: World, es: seq<Event>, v: World)
    requires Inv(w) && Leads(w, es, v)
    ensures Inv(v)
    decreases |es|
  {
    hide Inv, Do, Enabled, Next;
    if es != [] {
      StepSafe(w, es[0]);
      var o := Do(w.k, es[0]);
      RunsKeepInv(Next(w, es[0], o.k, o.result), es[1..], v);
    }
  }

  lemma ReachableIsGood(w: World)
    requires Reachable(w)
    ensures Inv(w) && Formed(w.k) && HeapModel.HasCursor(w.k.heap)
  {
    hide Inv, Boot;
    var w0: World, es :| Booted(w0) && Leads(w0, es, w);
    var stackPool: nat, heapStart: u32, heapStop: u32 :|
      var o := Boot(stackPool, heapStart, heapStop);
      o.Go? && w0 == World(o.k, [0, 0, 0, 0, 0], INVALID);
    BootHolds(stackPool, heapStart, heapStop);
    RunsKeepInv(w0, es, w);
    InvIsFormed(w);
  }

  // ---- What the invariant says of every reachable state ----

  /** At most one task runs and it is the current one; idle is ready or
      running; the kernel can always go on unless time runs out. */
  lemma NeverTwoRunners(w: World)
    requires Reachable(w)
    ensures forall i :: 0 <= i < |w.k.tasks| && w.k.tasks[i].state.Running? ==> i == w.k.current
    ensures w.k.active && !w.k.pending ==> w.k.current < |w.k.tasks| && w.k.tasks[w.k.current].state.Running?
    ensures |w.k.tasks| == TASK_COUNT && (w.k.tasks[IDLE].state.Ready? || w.k.tasks[IDLE].state.Running?)
    ensures forall i :: 1 <= i < TASK_COUNT ==>
              (w.k.tasks[i].jobActive <==> w.k.tasks[i].state in {Ready, Running, Sleeping})
    ensures w.k.sources != 0 ==> w.k.current < TASK_COUNT && Outranked(w.k.tasks, w.k.current)
    ensures forall e :: Formed(w.k) && HeapModel.HasCursor(w.k.heap) && Enabled(w.k, e) ==>
              (Do(w.k, e).Panic? <==> TimeRunsOut(w.k, e))
  {
    hide StacksOk, HeapOk, CadenceOk, Do, Enabled, TimeRunsOut, PspValid, Outranked;
    ReachableIsGood(w);
    forall e | Enabled(w.k, e) ensures Do(w.k, e).Panic? <==> TimeRunsOut(w.k, e) {
      StepSafe(w, e);
    }
    assert forall i :: 1 <= i < TASK_COUNT ==> TaskOk(w.k.tasks[i], w.k.now);
  }

  /** Task id is at the front of the deadline order: it comes before every
      ready user task but the one passed over, and idle runs only when there
      is no such task. */
  ghost predicate First(tasks: seq<Task>, id: u8, passedOver: u8) {
    && id < |tasks|
    && forall j :: 1 <= j < |tasks| && j != passedOver && tasks[j].state.Ready? ==>
         id != IDLE && Before(tasks[id], tasks[j])
  }

  /** Deadline-first scheduling in every reachable state: the running task is
      first among the ready tasks, save only the task that its own yield made
      the last dispatch pass over. */
  lemma RunningTaskIsFirst(w: World)
    requires Reachable(w) && w.k.active && !w.k.pending
    ensures First(w.k.tasks, w.k.current, w.lastExcluded)
  {
    hide StacksOk, HeapOk, CadenceOk;
    ReachableIsGood(w);
    var c := w.k.current;
    forall j | 1 <= j < TASK_COUNT && j != w.lastExcluded && w.k.tasks[j].state.Ready?
      ensures c != IDLE && Before(w.k.tasks[c], w.k.tasks[j])
    {
      assert TaskOk(w.k.tasks[j], w.k.now) && (c != IDLE ==> TaskOk(w.k.tasks[c], w.k.now));
      BeforeIsStrictTotalOrder(w.k.tasks[j], w.k.tasks[c], w.k.tasks[c]);
    }
  }

  lemma {:induction false} YieldFreeExcludesNobody(w: World, es: seq<Event>, v: World)
    requires Inv(w) && Leads(w, es, v) && (forall i :: 0 <= i < |es| ==> !es[i].YieldEvent?)
    requires w.k.excluded == INVALID && w.lastExcluded == INVALID
    ensures v.k.excluded == INVALID && v.lastExcluded == INVALID
    decreases |es|
  {
    hide Inv, Do, Enabled;
    if es != [] {
      StepSafe(w, es[0]);
      OnlyYieldExcludes(w, es[0]);
      var o := Do(w.k, es[0]);
      YieldFreeExcludesNobody(Next(w, es[0], o.k, o.result), es[1..], v);
    }
  }

  lemma CreateExcludes(k: Kernel, c: TimingConfig, size: nat)
    requires Formed(k) && Create(k, c, size).Go?
    ensures Create(k, c, size).k.excluded == k.excluded
  {
    hide SelectionBatch, Outranks, Configure, StateVerified, Reset, ConfigValid, LayoutValid;
  }

  lemma TickExcludes(k: Kernel)
    requires Formed(k) && Tick(k).Go?
    ensures Tick(k).k.excluded == k.excluded
  {
    hide SelectionBatch, Outranks, Select, TickTable, TickInputs, Singles, SomeReady, SomeExhausted;
  }

  lemma DispatchExcludes(k: Kernel, next: u8, outgoing: u8, outgoingState: State)
    requires Formed(k) && next < TASK_COUNT && Dispatched(k, next, outgoing, outgoingState).Go?
    ensures Dispatched(k, next, outgoing, outgoingState).k.excluded == INVALID
  {
    hide SelectionBatch, StateVerified, SwitchInputs, Singles;
  }

  lemma OnlyYieldExcludes(w: World, e: Event)
    requires Formed(w.k) && HeapModel.HasCursor(w.k.heap) && Enabled(w.k, e) && !e.YieldEvent?
    requires w.k.excluded == INVALID && Do(w.k, e).Go?
    ensures Do(w.k, e).k.excluded == INVALID
  {
    hide Create, Tick, Dispatched, Enabled, Select, Reset, SleepJob, CompleteJob, WaitNextPeriod, HeapModel.Alloc,
         HeapModel.FreeBlock;
    match e
    case CreateEvent(c, size) => CreateExcludes(w.k, c, size);
    case TickEvent => TickExcludes(w.k);
    case PendSvEvent(psp) =>
      var k := Retired(Saved(w.k, psp).k).k;
      DispatchExcludes(k, Chosen(k), w.k.current,
                       if w.k.current < TASK_COUNT then w.k.tasks[w.k.current].state else Dormant);
    case _ =>
  }

  lemma EmptyRun(w: World)
    ensures Leads(w, [], w)
  {
  }

  /** A run in which no task yields is globally deadline-first: whenever no
      PendSV is pending, the running task is the least of itself and all ready
      user tasks by deadline, priority and id. */
  lemma YieldFreeRunsAreDeadlineFirst(w0: World, es: seq<Event>, w: World)
    requires Booted(w0) && Leads(w0, es, w) && (forall i :: 0 <= i < |es| ==> !es[i].YieldEvent?)
    requires w.k.active && !w.k.pending
    ensures First(w.k.tasks, w.k.current, INVALID)
  {
    hide Inv, Leads;
    EmptyRun(w0);
    ReachableIsGood(w0);
    assert w0.k.excluded == INVALID && w0.lastExcluded == INVALID;
    YieldFreeExcludesNobody(w0, es, w);
    assert Reachable(w);
    RunningTaskIsFirst(w);
  }

  function YieldThenSwitch(k: Kernel, psp: nat): Outcome
    requires Formed(k)
  {
    if Yield(k).Panic? then Yield(k) else PendSv(Yield(k).k, psp)
  }

  /** What a yield and its switch amount to: the scheduler's choice over the
      table in which the yielder is ready again, passing the yielder over. */
  lemma YieldIsAChoice(w: World, psp: nat)
    requires Inv(w) && Formed(w.k) && InService(w.k) && PspValid(w.k, w.k.current, psp)
    ensures var o := YieldThenSwitch(w.k, psp);
      var table := w.k.tasks[w.k.current := w.k.tasks[w.k.current].(state := Ready)];
      && o.Go? && Formed(o.k) && |table| == TASK_COUNT && Indexed(table)
      && o.k.current == Select(table, w.k.current) && o.k.current < TASK_COUNT
      && o.k.tasks == table[o.k.current := table[o.k.current].(state := Running)]
  {
    hide Inv, PendSv, Select, Outranks, PspValid;
    YieldHolds(w);
    var k1 := Yield(w.k).k;
    assert Enabled(k1, PendSvEvent(psp)) by { PspSame(w.k, k1, w.k.current); }
    PendSvHolds(World(k1, w.first, w.lastExcluded), psp);
    assert SettledTasks(k1) == k1.tasks;
    InvIsFormed(World(PendSv(k1, psp).k, w.first, k1.excluded));
  }

  predicate SomebodyReady(tasks: seq<Task>) {
    exists j :: 1 <= j < |tasks| && tasks[j].state.Ready?
  }

  /** Why the statement above needs runs without yields: a yield hands the
      processor to another ready task even when the yielder comes first, and the
      yielder then outranks the task that runs. */
  lemma YieldPassesOverTheFirst(w: World, psp: nat)
    requires Reachable(w) && Formed(w.k) && InService(w.k) && PspValid(w.k, w.k.current, psp)
    requires SomebodyReady(w.k.tasks) && First(w.k.tasks, w.k.current, INVALID)
    ensures var o := YieldThenSwitch(w.k, psp);
      && o.Go? && Formed(o.k) && IDLE < o.k.current < TASK_COUNT && o.k.current != w.k.current
      && o.k.tasks[w.k.current].state.Ready? && Outranks(o.k.tasks[w.k.current], o.k.tasks[o.k.current])
  {
    hide Inv, Leads, YieldThenSwitch, Select, Outranks, PspValid;
    ReachableIsGood(w);
    YieldIsAChoice(w, psp);
    var c := w.k.current;
    var table := w.k.tasks[c := w.k.tasks[c].(state := Ready)];
    var j :| 1 <= j < TASK_COUNT && w.k.tasks[j].state.Ready?;
    ReadyIsRunnable(w, j);
    ReadyIsRunnable(w, c);
    assert Eligible(table, c, j);
    SelectChoosesMinimum(table, c);
    var o := YieldThenSwitch(w.k, psp);
    assert Before(w.k.tasks[c], w.k.tasks[o.k.current]);
    BeforeIsStrictTotalOrder(table[c], o.k.tasks[o.k.current], table[o.k.current]);
  }

  // ---- The exact condition ----

  /** No user task but x is ready. */
  predicate OnlyReady(tasks: seq<Task>, x: int) {
    forall j :: 1 <= j < |tasks| && tasks[j].state.Ready? ==> j == x
  }

  /** Some ready user task comes before x. */
  predicate Preceded(tasks: seq<Task>, x: int)
    requires 0 <= x < |tasks|
  {
    exists j :: 1 <= j < |tasks| && j != x && tasks[j].state.Ready? && Before(tasks[j], tasks[x])
  }

  /** A table to choose from, and the task that may not be chosen. */
  predicate Choosable(table: seq<Task>, x: u8) {
    && |table| == TASK_COUNT && Indexed(table) && table[IDLE].state.Ready?
    && (forall j :: 1 <= j < TASK_COUNT && table[j].state.Ready? ==> table[j].jobActive)
    && (x == INVALID || (1 <= x < TASK_COUNT && table[x].state.Ready?))
  }

  /** Making the chosen task run leaves the processor with the first of all
      ready tasks exactly when nobody was passed over in vain: nobody was
      excluded, or the excluded task was alone, or another ready task preceded
      it anyway. */
  lemma ChoiceKeepsOrderExactly(table: seq<Task>, x: u8)
    requires Choosable(table, x)
    ensures var next := Select(table, x);
      && next < TASK_COUNT
      && (First(table[next := table[next].(state := Running)], next, INVALID) <==>
            x == INVALID || OnlyReady(table, x) || Preceded(table, x))
  {
    hide Select, Before;
    SelectChoosesMinimum(table, x);
    var next := Select(table, x);
    var after := table[next := table[next].(state := Running)];
    assert forall j :: Eligible(table, x, j) <==> 1 <= j < TASK_COUNT && j != x && table[j].state.Ready?;
    SameKey(after[next], table[next]);
    if x != INVALID && !OnlyReady(table, x) {
      BeforeIsStrictTotalOrder(table[next], table[x], table[x]);
      BeforeIsStrictTotalOrder(table[x], table[next], table[next]);
      assert after[x] == table[x];
      if Before(table[x], table[next]) {
        forall j | 1 <= j < TASK_COUNT && j != x && table[j].state.Ready? ensures !Before(table[j], table[x]) {
          BeforeIsStrictTotalOrder(table[x], table[next], table[j]);
          BeforeIsStrictTotalOrder(table[x], table[j], table[j]);
        }
      }
    }
  }

  /** Every PendSV, however late after the yield: the switch leaves the first of
      all ready tasks running if and only if nobody was excluded, the excluded
      task is the only ready one, or another ready task precedes it. */
  lemma DispatchKeepsOrderExactly(w: World, psp: nat)
    requires Reachable(w) && Formed(w.k) && Enabled(w.k, PendSvEvent(psp))
    ensures var o := PendSv(w.k, psp);
      var table, x := SettledTasks(w.k), w.k.excluded;
      && o.Go? && (x == INVALID || x < TASK_COUNT)
      && (First(o.k.tasks, o.k.current, INVALID) <==> x == INVALID || OnlyReady(table, x) || Preceded(table, x))
  {
    hide Inv, Leads, PendSv, Select, PspValid, First, Before;
    ReachableIsGood(w);
    PendSvHolds(w, psp);
    SettledIsChoosable(w);
    ChoiceKeepsOrderExactly(SettledTasks(w.k), w.k.excluded);
  }

  lemma SettledIsChoosable(w: World)
    requires Inv(w) && Formed(w.k) && w.k.pending
    ensures Choosable(SettledTasks(w.k), w.k.excluded)
  {
    hide StacksOk, HeapOk, CadenceOk, FirstOk, TaskOk, Before, Outranked;
    SettledIdle(w);
    forall j | 1 <= j < TASK_COUNT && SettledTasks(w.k)[j].state.Ready? ensures SettledTasks(w.k)[j].jobActive {
      SettledRunnable(w, j);
    }
  }

  /** So a yield keeps the deadline-first order if and only if nobody else is
      ready, or the yielder does not come first itself. */
  lemma YieldKeepsOrderExactly(w: World, psp: nat)
    requires Reachable(w) && Formed(w.k) && InService(w.k) && PspValid(w.k, w.k.current, psp)
    ensures var o := YieldThenSwitch(w.k, psp);
      && o.Go? && Formed(o.k)
      && (First(o.k.tasks, o.k.current, INVALID) <==>
            !SomebodyReady(w.k.tasks) || !First(w.k.tasks, w.k.current, INVALID))
  {
    hide Inv, Leads, YieldThenSwitch, Select, PspValid, Before;
    ReachableIsGood(w);
    YieldIsAChoice(w, psp);
    var c := w.k.current;
    var table := w.k.tasks[c := w.k.tasks[c].(state := Ready)];
    YieldTable(w);
    ChoiceKeepsOrderExactly(table, c);
    forall j | 1 <= j < TASK_COUNT && j != c
      ensures table[j] == w.k.tasks[j] && (Before(table[j], table[c]) <==> !Before(w.k.tasks[c], w.k.tasks[j]))
    {
      SameKey(table[c], w.k.tasks[c]);
      BeforeIsStrictTotalOrder(w.k.tasks[j], w.k.tasks[c], w.k.tasks[c]);
      BeforeIsStrictTotalOrder(w.k.tasks[c], w.k.tasks[j], w.k.tasks[j]);
    }
  }

  lemma YieldTable(w: World)
    requires Inv(w) && Formed(w.k) && InService(w.k)
    ensures Choosable(w.k.tasks[w.k.current := w.k.tasks[w.k.current].(state := Ready)], w.k.current)
  {
    hide StacksOk, HeapOk, CadenceOk, FirstOk, Before;
    forall j | 1 <= j < TASK_COUNT && w.k.tasks[j].state in {Ready, Running} ensures w.k.tasks[j].jobActive {
      ReadyIsRunnable(w, j);
    }
  }

  /** The order reads only deadline, priority and id. */
  lemma SameKey(t: Task, u: Task)
    requires t.absoluteDeadline == u.absoluteDeadline && t.priority == u.priority && t.id == u.id
    ensures forall v :: (Before(t, v) <==> Before(u, v)) && (Before(v, t) <==> Before(v, u))
  {
  }

  lemma ReadyIsRunnable(w: World, j: int)
    requires Inv(w) && 1 <= j < TASK_COUNT && w.k.tasks[j].state in {Ready, Running}
    ensures w.k.tasks[j].jobActive && w.k.tasks[j].id == j
  {
    assert TaskOk(w.k.tasks[j], w.k.now);
  }

  // ---- Dispatch ----

  /** Every dispatch picks the least ready task other than the excluded one;
      the excluded task only when it is alone, and idle only when nobody is
      ready. */
  lemma DispatchPicksTheLeast(w: World, psp: nat)
    requires Reachable(w) && Formed(w.k) && Enabled(w.k, PendSvEvent(psp))
    ensures var o := PendSv(w.k, psp);
      var table := SettledTasks(w.k);
      && o.Go? && o.k.current < TASK_COUNT && table[o.k.current].state.Ready?
      && o.k.tasks == table[o.k.current := table[o.k.current].(state := Running)]
      && First(table[o.k.current := table[o.k.current].(state := Running)], o.k.current, w.k.excluded)
      && (o.k.current == w.k.excluded ==>
            forall j :: 1 <= j < TASK_COUNT && table[j].state.Ready? ==> j == w.k.excluded)
      && (o.k.current == IDLE ==> forall j :: 1 <= j < TASK_COUNT ==> !table[j].state.Ready?)
  {
    hide Inv, Leads, PendSv, Select, Outranks, PspValid, Enabled;
    ReachableIsGood(w);
    PendSvHolds(w, psp);
    var o := PendSv(w.k, psp);
    var w' := World(o.k, w.first, w.k.excluded);
    var table := SettledTasks(w.k);
    SelectChoosesMinimum(table, w.k.excluded);
    forall j | 1 <= j < TASK_COUNT && table[j].state.Ready? && j != w.k.excluded
      ensures Eligible(table, w.k.excluded, j)
    {
      SettledRunnable(w, j);
    }
    if 1 <= w.k.excluded < TASK_COUNT && table[w.k.excluded].state.Ready? { SettledRunnable(w, w.k.excluded); }
    SettledIdle(w);
  }

  lemma SettledRunnable(w: World, j: int)
    requires Inv(w) && Formed(w.k) && 1 <= j < TASK_COUNT && SettledTasks(w.k)[j].state.Ready?
    ensures Runnable(SettledTasks(w.k)[j])
  {
    assert TaskOk(w.k.tasks[j], w.k.now);
  }

  lemma SettledIdle(w: World)
    requires Inv(w) && Formed(w.k)
    ensures SettledTasks(w.k)[IDLE].state.Ready?
  {
    hide TaskOk, StacksOk, HeapOk, CadenceOk, FirstOk;
  }

  // ---- Release cadence ----

  lemma ReleasesGrow(first: u64, period: u32, m: nat, n: nat)
    requires m <= n
    ensures ReleaseAt(first, period, m) <= ReleaseAt(first, period, n)
  {
    assert m * period <= n * period;
  }

  /** Nothing is lost: between ticks, the jobs a periodic task has been given
      and the releases it skipped together number exactly the period boundaries
      that have passed, and the next boundary is still to come. */
  lemma CadenceLosesNothing(w: World, i: nat)
    requires Reachable(w) && 1 <= i < |w.k.tasks| && i < |w.first| && Recurring(w.k.tasks[i])
    requires w.k.tasks[i].jobSequence < U32_MAX && w.k.tasks[i].missedReleases < U32_MAX
    ensures var t := w.k.tasks[i];
      && t.nextReleaseOrder == ReleaseAt(w.first[i], t.period, t.jobSequence + t.missedReleases)
      && t.nextReleaseOrder > w.k.now
      && forall n: nat :: ReleaseAt(w.first[i], t.period, n) <= w.k.now <==> n < t.jobSequence + t.missedReleases
  {
    hide Leads, StacksOk, HeapOk, PhaseOk, FirstOk, ReleaseAt;
    ReachableIsGood(w);
    var t := w.k.tasks[i];
    assert TaskOk(t, w.k.now) && OnCadence(t, w.first[i]);
    var total := t.jobSequence + t.missedReleases;
    forall n: nat
      ensures ReleaseAt(w.first[i], t.period, n) <= w.k.now <==> n < total
    {
      if n >= total {
        ReleasesGrow(w.first[i], t.period, total, n);
      } else {
        NextReleaseAt(w.first[i], t.period, total - 1);
        ReleasesGrow(w.first[i], t.period, n, total - 1);
      }
    }
  }

  /** A task that waits for this instant starts its job now, with its whole
      relative deadline ahead of it; any other waiting task goes on waiting. */
  ghost predicate StartsAt(t: Task, u: Task, now: u64) {
    t.state.WaitingRelease? ==>
      if t.nextReleaseOrder == now then
        u.jobActive && u.releaseOrder == now && u.absoluteDeadline == now + u.relativeDeadline && !u.missLatched
      else u.state.WaitingRelease? && !u.jobActive
  }

  lemma TaskStartsOnTime(t: Task, now: u64)
    requires now < U64_MAX && TaskOk(t, now) && !TickTask(t, now + 1).exhausted
    ensures StartsAt(t, TickTask(t, now + 1).task, now + 1)
  {
    hide TickTask;
    TickKeepsTask(t, now);
  }

  /** Every job starts at exactly the tick it was promised. */
  lemma JobsStartOnTime(w: World, i: nat)
    requires Reachable(w) && 1 <= i < |w.k.tasks| && Formed(w.k)
    requires w.k.running && !ClockOverruns(w.k)
    ensures var o := Tick(w.k);
      && o.Go? && |o.k.tasks| == |w.k.tasks| && o.k.now == w.k.now + 1
      && StartsAt(w.k.tasks[i], o.k.tasks[i], o.k.now)
  {
    hide Leads, Inv, Tick, TickTask, ClockOverruns, TaskOk;
    ReachableIsGood(w);
    TickHolds(w);
    TickedTask(w, i);
    TaskStartsOnTime(w.k.tasks[i], w.k.now);
  }

  /** A probe changes no more than the running task's state. */
  lemma TickedTask(w: World, i: nat)
    requires Inv(w) && 1 <= i < TASK_COUNT && w.k.running && Tick(w.k).Go?
    ensures var o := Tick(w.k);
      && |o.k.tasks| == TASK_COUNT && w.k.now < U64_MAX && o.k.now == w.k.now + 1
      && TaskOk(w.k.tasks[i], w.k.now) && !TickTask(w.k.tasks[i], w.k.now + 1).exhausted
      && (var t := TickTask(w.k.tasks[i], w.k.now + 1).task;
          o.k.tasks[i] == t || (t.state.Running? && o.k.tasks[i] == t.(state := Ready)))
      && TaskOk(TickTask(w.k.tasks[i], w.k.now + 1).task, w.k.now + 1)
  {
    hide TaskOk, TickTask, SelectionBatch, Select, Outranks, StacksOk, HeapOk, PhaseOk, FirstOk, CadenceOk;
    TickKeepsTask(w.k.tasks[i], w.k.now);
  }

  // ---- Deadlines ----

  /** Between handlers an active job is latched missed exactly when the clock
      has reached its deadline, and the job number exceeds the completed count
      by one exactly while a job is active. */
  lemma DeadlineAccountingIsExact(w: World, i: nat)
    requires Reachable(w) && 1 <= i < |w.k.tasks|
    ensures var t := w.k.tasks[i];
      && (t.jobActive ==> (t.missLatched <==> w.k.now >= t.absoluteDeadline))
      && (t.jobActive ==> t.absoluteDeadline == t.releaseOrder + t.relativeDeadline)
      && (t.jobSequence < U32_MAX ==> t.jobSequence == t.completedJobs + if t.jobActive then 1 else 0)
  {
    hide Leads;
    ReachableIsGood(w);
    assert TaskOk(w.k.tasks[i], w.k.now);
  }

  // ---- Heap ownership ----

  /** No allocation outlives the occupant of its slot, so a new task starts
      with no blocks even when its id has been used before. */
  lemma NoBlockIsInherited(w: World, c: TimingConfig, size: nat)
    requires Reachable(w) && Formed(w.k)
    ensures HeapModel.HeapInv(w.k.heap)
    ensures forall b :: b in Live(w.k.heap.chain) ==>
              1 <= b.owner < TASK_COUNT && !w.k.tasks[b.owner].state.Dormant?
    ensures var o := Create(w.k, c, size);
      o.Go? && o.result != 0 ==> forall b :: b in Live(o.k.heap.chain) ==> b.owner != o.result
  {
    hide Leads, StacksOk, PhaseOk, FirstOk, CadenceOk, Live, SelectionBatch, Outranks, TaskOk, HeapModel.HeapInv;
    hide Configure, StateVerified, LayoutValid, Reset;
    ReachableIsGood(w);
  }
}
