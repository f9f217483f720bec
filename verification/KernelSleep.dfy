/** A sleep of n ticks ends at exactly the n-th tick, in every run. */
module KernelSleep {
  import opened Words
  import opened Scheduler
  import opened TraceSelection
  import opened KernelModel
  import opened KernelTasks
  import opened KernelInvariant
  import opened KernelSteps
  import opened KernelRuns
  import HeapModel
  import KernelTiming

  /** Task i sleeps until this instant, on this job. */
  predicate SleepsUntil(k: Kernel, i: int, wake: u64, job: u32)
    requires Formed(k) && 1 <= i < TASK_COUNT
  {
    k.tasks[i].state.Sleeping? && k.tasks[i].wakeOrder == wake && k.tasks[i].jobSequence == job
  }

  lemma TickTaskSleeps(t: Task, now: u64)
    requires now < U64_MAX && TaskOk(t, now) && t.state.Sleeping? && !TickTask(t, now + 1).exhausted
    ensures var u := TickTask(t, now + 1).task;
      && u.wakeOrder == t.wakeOrder && u.jobSequence == t.jobSequence
      && (if t.wakeOrder == now + 1 then u.state.Ready? else u.state.Sleeping?)
  {
    hide DeadlineInput, Low32, High32, Reset;
  }

  lemma TickSleeps(w: World, i: int)
    requires Inv(w) && Formed(w.k) && 1 <= i < TASK_COUNT && w.k.tasks[i].state.Sleeping? && Tick(w.k).Go?
             && w.k.running
    ensures var o := Tick(w.k);
      && |o.k.tasks| == TASK_COUNT && o.k.now == w.k.now + 1
      && o.k.tasks[i].wakeOrder == w.k.tasks[i].wakeOrder && o.k.tasks[i].jobSequence == w.k.tasks[i].jobSequence
      && (if w.k.tasks[i].wakeOrder == o.k.now then o.k.tasks[i].state.Ready? else o.k.tasks[i].state.Sleeping?)
  {
    hide Inv, Tick, TickTask, TaskOk;
    TickedTask(w, i);
    TickTaskSleeps(w.k.tasks[i], w.k.now);
  }

  lemma CreateSleeps(w: World, c: TimingConfig, size: nat, i: int)
    requires Inv(w) && Formed(w.k) && 1 <= i < TASK_COUNT && w.k.tasks[i].state.Sleeping? && Create(w.k, c, size).Go?
    ensures var k' := Create(w.k, c, size).k; Formed(k') && k'.tasks[i] == w.k.tasks[i] && k'.now == w.k.now
  {
    hide Inv, Configure, StateVerified, ConfigValid, LayoutValid, Reset, Announced, Challenged, FreeSlot;
    if !CreationRefused(w.k, c, size) && FreeSlot(w.k, 1) != INVALID {
      var id := FreeSlot(w.k, 1);
      var (t, ok) := Configure(w.k.tasks[id], c, w.k.now);
      if ok {
        ChallengedKeepsTasks(Announced(Installed(w.k, id, t, size), id), id);
      }
    }
  }

  lemma ChallengedKeepsTasks(k: Kernel, id: u8)
    requires Formed(k) && id < TASK_COUNT && (k.running ==> k.current < TASK_COUNT) && Challenged(k, id).Go?
    ensures Challenged(k, id).k.tasks == k.tasks && Challenged(k, id).k.tcbs == k.tcbs
            && Challenged(k, id).k.now == k.now
  {
    hide SelectionBatch, Outranks;
  }

  lemma ServiceSleeps(w: World, e: Event, i: int)
    requires Formed(w.k) && HeapModel.HasCursor(w.k.heap) && Enabled(w.k, e) && Do(w.k, e).Go?
    requires !e.PendSvEvent? && !e.CreateEvent? && !e.TickEvent?
    requires 1 <= i < TASK_COUNT && w.k.tasks[i].state.Sleeping?
    ensures var k' := Do(w.k, e).k; |k'.tasks| == TASK_COUNT && k'.tasks[i] == w.k.tasks[i] && k'.now == w.k.now
  {
    hide HeapModel.Alloc, HeapModel.FreeBlock, PointerOffset, Low32, High32, SleepJob, CompleteJob, WaitNextPeriod,
         TaskWord;
  }

  lemma SwitchSleeps(w: World, psp: nat, i: int)
    requires Inv(w) && Formed(w.k) && Enabled(w.k, PendSvEvent(psp)) && 1 <= i < TASK_COUNT
             && w.k.tasks[i].state.Sleeping?
    ensures var o := PendSv(w.k, psp);
      o.Go? && |o.k.tasks| == TASK_COUNT && o.k.tasks[i] == w.k.tasks[i] && o.k.now == w.k.now
  {
    hide Inv, PendSv, Select, PspValid, Enabled;
    PendSvHolds(w, psp);
    SwitchKeepsClock(w.k, psp);
  }

  /** A sleeping task sleeps on until the tick of its wake-up instant. */
  lemma StepSleeps(w: World, e: Event, i: int)
    requires Inv(w) && Formed(w.k) && HeapModel.HasCursor(w.k.heap) && Enabled(w.k, e) && Do(w.k, e).Go?
    requires 1 <= i < TASK_COUNT && w.k.tasks[i].state.Sleeping?
    ensures var k' := Do(w.k, e).k; var t := w.k.tasks[i];
      && Formed(k') && w.k.now <= k'.now
      && (k'.now < t.wakeOrder ==> SleepsUntil(k', i, t.wakeOrder, t.jobSequence))
      && (k'.now >= t.wakeOrder ==>
            k'.now == t.wakeOrder && k'.tasks[i].state.Ready? && k'.tasks[i].jobSequence == t.jobSequence)
  {
    hide Inv, Create, Start, StartSvc, Yield, Sleep, WaitPeriod, Exit, MemoryAlloc, MemoryFree, Tick, PendSv, TaskOk;
    StepSafe(w, e);
    InvIsFormed(Next(w, e, Do(w.k, e).k, Do(w.k, e).result));
    NextKernel(w, e, Do(w.k, e).k, Do(w.k, e).result);
    NotYetAwake(w, i);
    match e
    case TickEvent =>
      if w.k.running { TickSleeps(w, i); } else { IdleTick(w.k); }
    case CreateEvent(c, size) => CreateSleeps(w, c, size, i);
    case PendSvEvent(psp) => SwitchSleeps(w, psp, i);
    case _ => ServiceSleeps(w, e, i);
  }

  lemma IdleTick(k: Kernel)
    requires Formed(k) && !k.running
    ensures Tick(k) == Go(k, 0)
  {
  }

  lemma NotYetAwake(w: World, i: int)
    requires Inv(w) && Formed(w.k) && 1 <= i < TASK_COUNT && w.k.tasks[i].state.Sleeping?
    ensures w.k.now < w.k.tasks[i].wakeOrder
  {
    assert TaskOk(w.k.tasks[i], w.k.now);
  }

  lemma {:induction false} SleepsOn(w: World, es: seq<Event>, v: World, i: int)
    requires Inv(w) && Formed(w.k) && Leads(w, es, v) && 1 <= i < TASK_COUNT && w.k.tasks[i].state.Sleeping?
    requires v.k.now < w.k.tasks[i].wakeOrder
    ensures Formed(v.k) && SleepsUntil(v.k, i, w.k.tasks[i].wakeOrder, w.k.tasks[i].jobSequence)
    decreases |es|
  {
    hide Inv, Do, Enabled;
    if es != [] {
      StepSafe(w, es[0]);
      StepSleeps(w, es[0], i);
      var o := Do(w.k, es[0]);
      NextKernel(w, es[0], o.k, o.result);
      var w1 := Next(w, es[0], o.k, o.result);
      ClockNeverBack(w1, es[1..], v);
      SleepsOn(w1, es[1..], v, i);
    }
  }

  lemma {:induction false} ClockNeverBack(w: World, es: seq<Event>, v: World)
    requires Leads(w, es, v)
    ensures w.k.now <= v.k.now
    decreases |es|
  {
    hide Do, Enabled;
    if es != [] {
      var o := Do(w.k, es[0]);
      StepKeepsClock(w.k, es[0]);
      NextKernel(w, es[0], o.k, o.result);
      ClockNeverBack(Next(w, es[0], o.k, o.result), es[1..], v);
    }
  }

  lemma StepKeepsClock(k: Kernel, e: Event)
    requires Formed(k) && HeapModel.HasCursor(k.heap) && Enabled(k, e) && Do(k, e).Go?
    ensures k.now <= Do(k, e).k.now
  {
    KernelTiming.StepGrows(k, e);
  }

  /** The whole contract of os_sleep, over any run that follows: the caller
      sleeps, on the same job, at every instant before the n-th tick, and at
      that tick it is no longer asleep. */
  lemma SleepLastsExactly(w: World, ticks: u32, es: seq<Event>, v: World)
    requires Reachable(w) && Formed(w.k) && InService(w.k) && 0 < ticks <= I32_MAX && w.k.now + ticks <= U64_MAX
    requires Sleep(w.k, ticks).Go? && Leads(World(Sleep(w.k, ticks).k, w.first, w.lastExcluded), es, v)
    ensures Formed(v.k) && w.k.current < TASK_COUNT && w.k.now <= v.k.now
    ensures v.k.now < w.k.now + ticks ==>
      SleepsUntil(v.k, w.k.current, w.k.now + ticks, w.k.tasks[w.k.current].jobSequence)
    ensures v.k.now >= w.k.now + ticks ==>
      !SleepsUntil(v.k, w.k.current, w.k.now + ticks, w.k.tasks[w.k.current].jobSequence)
  {
    hide Inv, Leads, Sleep;
    ReachableIsGood(w);
    SleepHolds(w, ticks);
    SleepStarts(w, ticks);
    var w1 := World(Sleep(w.k, ticks).k, w.first, w.lastExcluded);
    InvIsFormed(w1);
    RunsKeepInv(w1, es, v);
    InvIsFormed(v);
    ClockNeverBack(w1, es, v);
    if v.k.now < w.k.now + ticks {
      SleepsOn(w1, es, v, w.k.current);
    } else if v.k.tasks[w.k.current].state.Sleeping? {
      NotYetAwake(v, w.k.current);
    }
  }

  lemma SleepStarts(w: World, ticks: u32)
    requires Inv(w) && Formed(w.k) && InService(w.k) && 0 < ticks <= I32_MAX && w.k.now + ticks <= U64_MAX
             && Sleep(w.k, ticks).Go?
    ensures var k' := Sleep(w.k, ticks).k;
      && k'.now == w.k.now && |k'.tasks| == TASK_COUNT && w.k.current < TASK_COUNT
      && k'.tasks[w.k.current] == w.k.tasks[w.k.current].(wakeOrder := w.k.now + ticks, state := Sleeping)
  {
    hide Inv, Low32, High32;
  }
}
