/** The kernel's log only grows, and its batches carry the clock readings of the
    steps that emitted them, in order. */
module KernelTiming {
  import opened Words
  import opened Scheduler
  import opened TraceTypes
  import opened TraceRules
  import opened TraceSelection
  import opened KernelModel
  import opened KernelTasks
  import opened KernelInvariant
  import opened KernelSteps
  import opened KernelRuns
  import HeapModel

  /** A batch the ring can take: not too long, known events, no flags. */
  predicate Fit(b: Batch) {
    && 1 <= |b.inputs| <= MAX_BATCH
    && forall i :: 0 <= i < |b.inputs| ==> EventValid(b.inputs[i].event) && b.inputs[i].flags == 0
  }

  predicate InputFits(i: Input) {
    EventValid(i.event) && i.flags == 0
  }

  predicate AllFit(inputs: seq<Input>) {
    forall i :: 0 <= i < |inputs| ==> InputFits(inputs[i])
  }

  /** after is before with fit batches added at this tick. */
  ghost predicate Grows(before: seq<Batch>, after: seq<Batch>, tick: u64) {
    && |before| <= |after|
    && (forall i :: 0 <= i < |before| ==> after[i] == before[i])
    && (forall i :: |before| <= i < |after| ==> after[i].tick == tick && Fit(after[i]))
  }

  lemma {:induction false} GrowsNot(a: seq<Batch>, tick: u64)
    ensures Grows(a, a, tick)
  {
  }

  lemma {:induction false} GrowsOn(a: seq<Batch>, b: seq<Batch>, c: seq<Batch>, tick: u64)
    requires Grows(a, b, tick) && Grows(b, c, tick)
    ensures Grows(a, c, tick)
  {
  }

  lemma {:induction false} GrowsByOne(a: seq<Batch>, b: Batch)
    ensures Fit(b) ==> Grows(a, a + [b], b.tick)
    ensures Grows(a, a, b.tick)
  {
  }

  lemma {:induction false} GrowsByEvent(a: seq<Batch>, tick: u64, i: Input)
    requires InputFits(i)
    ensures Grows(a, a + [Batch(tick, [i])], tick)
  {
  }

  lemma {:induction false} CandidatesFit(c: Choice, k: nat)
    requires Shaped(c) && 1 <= k <= TASK_COUNT
    ensures AllFit(CandidatesFrom(c, k))
    decreases TASK_COUNT - k
  {
    hide Low32, High32, Meta;
    if k < TASK_COUNT {
      CandidatesFit(c, k + 1);
    }
  }

  lemma SelectionFits(c: Choice, tick: u64)
    requires Shaped(c)
    ensures Fit(Batch(tick, SelectionBatch(c)))
  {
    hide CandidatesFrom, SelectionReason, ReadyMask;
    CandidatesFit(c, 1);
    var cs := CandidatesFrom(c, 1);
    forall i | 0 <= i < |SelectionBatch(c)| ensures InputFits(SelectionBatch(c)[i]) {
      if i > 0 { assert SelectionBatch(c)[i] == cs[i - 1]; }
    }
  }

  lemma {:induction false} GrowsBySingles(a: seq<Batch>, tick: u64, inputs: seq<Input>)
    requires AllFit(inputs)
    ensures Grows(a, a + Singles(tick, inputs), tick)
  {
  }

  /** Ticks never go back along the log, nor past the clock, and the ring can
      take every batch. */
  ghost predicate Timed(k: Kernel) {
    && (forall i :: 0 <= i < |k.log| ==> Fit(k.log[i]))
    && (forall i, j :: 0 <= i < j < |k.log| ==> k.log[i].tick <= k.log[j].tick)
    && (forall i :: 0 <= i < |k.log| ==> k.log[i].tick <= k.now)
  }

  lemma {:induction false} GrowthIsTimed(k: Kernel, k': Kernel)
    requires Timed(k) && Grows(k.log, k'.log, k'.now) && k.now <= k'.now
    ensures Timed(k')
  {
  }

  // ---- Every step ----

  lemma CreateGrows(k: Kernel, c: TimingConfig, size: nat)
    requires Formed(k) && Create(k, c, size).Go?
    ensures Grows(k.log, Create(k, c, size).k.log, k.now) && Create(k, c, size).k.now == k.now
  {
    hide Grows, Configure, SelectionBatch, Outranks, StateVerified, ConfigValid, LayoutValid, Reset, Low32, High32;
    GrowsNot(k.log, k.now);
    if !CreationRefused(k, c, size) && FreeSlot(k, 1) != INVALID && Configure(k.tasks[FreeSlot(k, 1)], c, k.now).1 {
      var id := FreeSlot(k, 1);
      var k0 := Installed(k, id, Configure(k.tasks[id], c, k.now).0, size);
      AnnouncedGrows(k0, id);
      ChallengedGrows(Announced(k0, id), id);
      GrowsOn(k.log, Announced(k0, id).log, Challenged(Announced(k0, id), id).k.log, k.now);
    }
  }

  lemma AnnouncedGrows(k: Kernel, id: u8)
    requires Formed(k) && id < TASK_COUNT
    ensures Grows(k.log, Announced(k, id).log, k.now)
  {
    hide Grows, Low32, High32;
    var t := k.tasks[id];
    var creator := if k.running then k.current else INVALID;
    var create := Input(TASK_CREATE, 0, id, TaskWord(creator), KindNumber(t.kind), t.priority, StateNumber(t.state));
    var created := k.log + [Batch(k.now, [create])];
    GrowsByEvent(k.log, k.now, create);
    GrowsByEvent(created, k.now, DeadlineInput(TASK_RELEASE, t));
    GrowsOn(k.log, created, created + [Batch(k.now, [DeadlineInput(TASK_RELEASE, t)])], k.now);
  }

  lemma ChallengedGrows(k: Kernel, id: u8)
    requires Formed(k) && id < TASK_COUNT && (k.running ==> k.current < TASK_COUNT) && Challenged(k, id).Go?
    ensures Grows(k.log, Challenged(k, id).k.log, k.now) && Challenged(k, id).k.now == k.now
  {
    hide Grows, SelectionBatch, Outranks;
    var c := Choice(k.tasks, id, k.current, INVALID, CREATE_PROBE);
    SelectionFits(c, k.now);
    GrowsByOne(k.log, Batch(k.now, SelectionBatch(c)));
  }

  lemma ServiceGrows(k: Kernel, e: Event)
    requires Formed(k) && HeapModel.HasCursor(k.heap) && Enabled(k, e) && Do(k, e).Go?
    requires !e.PendSvEvent? && !e.CreateEvent? && !e.TickEvent?
    ensures Grows(k.log, Do(k, e).k.log, k.now) && Do(k, e).k.now == k.now
  {
    hide HeapModel.Alloc, HeapModel.FreeBlock, PointerOffset, Low32, High32, SleepJob, CompleteJob, WaitNextPeriod,
         TaskWord;
  }

  lemma TickGrows(k: Kernel)
    requires Formed(k) && Tick(k).Go?
    ensures Grows(k.log, Tick(k).k.log, Tick(k).k.now) && k.now <= Tick(k).k.now
  {
    hide Grows, TickTask, SomeReady, SomeExhausted, Probed, TickInputs, Singles, TickTable;
    GrowsNot(k.log, k.now);
    if k.running {
      TickInputsFit(k.tasks, TASK_COUNT, k.now + 1);
      GrowsBySingles(k.log, k.now + 1, TickInputs(k.tasks, TASK_COUNT, k.now + 1));
      var k1 := Ticked(k);
      if SomeReady(k.tasks, k.now + 1) && k.current < TASK_COUNT && k1.tasks[k.current].state == Running {
        ProbedGrows(k1);
        GrowsOn(k.log, k1.log, Probed(k1).k.log, k1.now);
      }
    }
  }

  lemma PartsFit(t: Task, now: u64)
    ensures AllFit(MissPart(t, now).inputs)
    ensures AllFit(SkipPart(t, now).inputs)
    ensures AllFit(ReleasePart(t, now).inputs)
    ensures AllFit(WakePart(t, now).inputs)
  {
    hide Low32, High32;
  }

  lemma TickTaskFits(t: Task, now: u64)
    ensures AllFit(TickTask(t, now).inputs)
  {
    hide MissPart, SkipPart, ReleasePart, WakePart, AccountRunningTick, InputFits;
    var t1 := AccountRunningTick(t);
    PartsFit(t1, now);
    PartsFit(MissPart(t1, now).task, now);
    var u := SkipPart(MissPart(t1, now).task, now).task;
    PartsFit(u, now);
    PartsFit(ReleasePart(u, now).task, now);
  }

  lemma {:induction false} TickInputsFit(tasks: seq<Task>, n: nat, now: u64)
    requires n <= |tasks|
    ensures AllFit(TickInputs(tasks, n, now))
  {
    hide TickTask, InputFits;
    if n > 1 {
      TickInputsFit(tasks, n - 1, now);
      TickTaskFits(tasks[n - 1], now);
    }
  }

  lemma SwitchInputsFit(sources: u8, cause: u8, next: u8, outgoing: u8, outgoingState: State)
    ensures AllFit(SwitchInputs(sources, cause, next, outgoing, outgoingState))
  {
    hide TaskWord, StateNumber;
  }

  lemma ProbedGrows(k: Kernel)
    requires Formed(k) && k.current < TASK_COUNT && k.tasks[k.current].state == Running && Probed(k).Go?
    ensures Grows(k.log, Probed(k).k.log, k.now) && Probed(k).k.now == k.now
  {
    hide Grows, Select, Outranks, SelectionBatch;
    var candidate := Select(k.tasks, INVALID);
    GrowsNot(k.log, k.now);
    if candidate != INVALID && candidate != IDLE && Outranks(k.tasks[candidate], k.tasks[k.current]) {
      var c := Choice(k.tasks, candidate, k.current, INVALID, SYSTICK_PROBE);
      SelectionFits(c, k.now);
      GrowsByOne(k.log, Batch(k.now, SelectionBatch(c)));
    }
  }

  lemma RetiredGrows(k: Kernel)
    requires Formed(k) && Retired(k).Go?
    ensures Grows(k.log, Retired(k).k.log, k.now) && Retired(k).k.now == k.now
  {
    hide HeapModel.ReleaseOwner, Reset;
  }

  lemma DispatchedGrows(k: Kernel, next: u8, outgoing: u8, outgoingState: State)
    requires Formed(k) && next < TASK_COUNT && Dispatched(k, next, outgoing, outgoingState).Go?
    ensures Grows(k.log, Dispatched(k, next, outgoing, outgoingState).k.log, k.now)
    ensures Dispatched(k, next, outgoing, outgoingState).k.now == k.now
  {
    hide Grows, SelectionBatch, Singles, SwitchInputs, StateVerified, PspValid, Low32, High32;
    var c := Choice(k.tasks, next, outgoing, k.excluded, DISPATCH);
    var l1 := k.log + [Batch(k.now, SelectionBatch(c))];
    SelectionFits(c, k.now);
    GrowsByOne(k.log, Batch(k.now, SelectionBatch(c)));
    var inputs := SwitchInputs(k.sources, k.cause, next, outgoing, outgoingState);
    SwitchInputsFit(k.sources, k.cause, next, outgoing, outgoingState);
    GrowsBySingles(l1, k.now, inputs);
    var l2 := l1 + Singles(k.now, inputs);
    GrowsOn(k.log, l1, l2, k.now);
    var begun := DeadlineInput(TASK_START, k.tasks[next].(state := Running));
    GrowsByEvent(l2, k.now, begun);
    GrowsOn(k.log, l2, l2 + [Batch(k.now, [begun])], k.now);
  }

  lemma PendSvGrows(k: Kernel, psp: nat)
    requires Formed(k) && PendSv(k, psp).Go?
    ensures Grows(k.log, PendSv(k, psp).k.log, k.now) && PendSv(k, psp).k.now == k.now
  {
    hide Grows, Retired, Dispatched, PspValid, Select;
    var k1 := Saved(k, psp).k;
    RetiredGrows(k1);
    var k2 := Retired(k1).k;
    var outgoingState := if k.current < TASK_COUNT then k.tasks[k.current].state else Dormant;
    DispatchedGrows(k2, Chosen(k2), k.current, outgoingState);
    GrowsOn(k.log, k2.log, PendSv(k, psp).k.log, k.now);
  }

  lemma StepGrows(k: Kernel, e: Event)
    requires Formed(k) && HeapModel.HasCursor(k.heap) && Enabled(k, e) && Do(k, e).Go?
    ensures Grows(k.log, Do(k, e).k.log, Do(k, e).k.now) && k.now <= Do(k, e).k.now
  {
    hide Grows, Create, Start, StartSvc, Yield, Sleep, WaitPeriod, Exit, MemoryAlloc, MemoryFree, Tick, PendSv;
    match e
    case CreateEvent(config, size) => CreateGrows(k, config, size);
    case TickEvent => TickGrows(k);
    case PendSvEvent(psp) => PendSvGrows(k, psp);
    case _ => ServiceGrows(k, e);
  }

  /** The earlier log is still there after any run. */
  ghost predicate Extends(before: seq<Batch>, after: seq<Batch>) {
    |before| <= |after| && forall i :: 0 <= i < |before| ==> after[i] == before[i]
  }

  lemma {:induction false} RunsExtend(w: World, es: seq<Event>, v: World)
    requires Leads(w, es, v)
    ensures Extends(w.k.log, v.k.log)
    decreases |es|
  {
    hide Do, Enabled, Fit;
    if es != [] {
      StepGrows(w.k, es[0]);
      var o := Do(w.k, es[0]);
      NextKernel(w, es[0], o.k, o.result);
      RunsExtend(Next(w, es[0], o.k, o.result), es[1..], v);
    }
  }

  lemma {:induction false} RunsAreTimed(w: World, es: seq<Event>, v: World)
    requires Leads(w, es, v) && Timed(w.k)
    ensures Timed(v.k)
    decreases |es|
  {
    hide Do, Enabled, Timed, Grows;
    if es != [] {
      StepGrows(w.k, es[0]);
      var o := Do(w.k, es[0]);
      GrowthIsTimed(w.k, o.k);
      NextKernel(w, es[0], o.k, o.result);
      RunsAreTimed(Next(w, es[0], o.k, o.result), es[1..], v);
    }
  }
}
