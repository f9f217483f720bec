/** What a creator asks for is what its task gets: kind, period, deadline,
    budget, priority and stack over every run, and every release and deadline
    counted from the instant of the request. */
module KernelRequests {
  import opened Words
  import opened Scheduler
  import opened TraceSelection
  import opened KernelModel
  import opened KernelTasks
  import opened KernelInvariant
  import opened KernelSteps
  import opened KernelRuns
  import HeapModel

  /** A creation that succeeded: what was asked for, and when. */
  datatype Request = Request(config: TimingConfig, size: nat, at: u64)

  /** The requests outstanding after a step: a successful creation is the
      request of its slot from now on. */
  function Asked(requests: seq<Option<Request>>, k: Kernel, e: Event, result: nat): (r: seq<Option<Request>>)
    ensures |r| == |requests|
  {
    if e.CreateEvent? && 0 < result < |requests| then
      requests[result := Some(Request(e.config, e.stackSize, k.now))]
    else requests
  }

  const NOBODY: seq<Option<Request>> := [None, None, None, None, None]

  /** The latest request of every slot, read off the events of a run. */
  ghost function Requests(w: World, es: seq<Event>, v: World, before: seq<Option<Request>>): (r: seq<Option<Request>>)
    requires Leads(w, es, v)
    ensures |r| == |before|
    decreases |es|
  {
    if es == [] then before
    else
      var o := Do(w.k, es[0]);
      Requests(Next(w, es[0], o.k, o.result), es[1..], v, Asked(before, w.k, es[0], o.result))
  }

  // ---- What a request fixes ----

  /** Release instant number n of a request. */
  function Boundary(q: Request, n: nat): int {
    q.at + q.config.initialReleaseDelay + n * q.config.period
  }

  /** The entry has the parameters that were asked for. */
  predicate AsAsked(t: Task, c: TimingConfig) {
    && t.kind == c.kind && t.period == c.period && t.relativeDeadline == c.relativeDeadline
    && t.budget == c.budget && t.priority == c.priority
  }

  ghost predicate OnGrid(instant: int, q: Request) {
    exists n: nat :: instant == Boundary(q, n)
  }

  /** Every release, past or announced, is an instant of the request, and an
      active job is due the requested time after its release. */
  ghost predicate Honoured(t: Task, q: Request) {
    && AsAsked(t, q.config)
    && (t.jobActive ==> OnGrid(t.releaseOrder, q)
                        && t.absoluteDeadline == t.releaseOrder + q.config.relativeDeadline)
    && (t.state.WaitingRelease? || Recurring(t) ==> OnGrid(t.nextReleaseOrder, q))
  }

  /** The request of every occupant is honoured, also in its stack and in the
      release history that the cadence is counted from. */
  ghost predicate AllHonoured(w: World, requests: seq<Option<Request>>) {
    && |w.k.tasks| == TASK_COUNT && |w.k.tcbs| == TASK_COUNT && |w.first| == TASK_COUNT && |requests| == TASK_COUNT
    && forall i :: 1 <= i < TASK_COUNT && !w.k.tasks[i].state.Dormant? ==>
         && requests[i].Some? && Honoured(w.k.tasks[i], requests[i].value)
         && w.k.tcbs[i].high - w.k.tcbs[i].low == requests[i].value.size
         && w.first[i] == Boundary(requests[i].value, 0)
  }

  // ---- One entry, one step ----

  /** The entry goes on: same parameters; an active job was active before or
      starts at the announced release; the announced release stays or moves on
      by one period. */
  ghost predicate Continues(t: Task, u: Task) {
    && u.kind == t.kind && u.period == t.period && u.relativeDeadline == t.relativeDeadline
    && u.budget == t.budget && u.priority == t.priority
    && (u.jobActive ==>
          if t.jobActive then u.releaseOrder == t.releaseOrder && u.absoluteDeadline == t.absoluteDeadline
          else t.state.WaitingRelease? && u.releaseOrder == t.nextReleaseOrder
               && u.absoluteDeadline == u.releaseOrder + u.relativeDeadline)
    && (u.state.WaitingRelease? || Recurring(u) ==>
          && (t.state.WaitingRelease? || Recurring(t))
          && (u.nextReleaseOrder == t.nextReleaseOrder || u.nextReleaseOrder == t.nextReleaseOrder + t.period))
  }

  lemma NextBoundary(q: Request, n: nat)
    ensures Boundary(q, n + 1) == Boundary(q, n) + q.config.period
    ensures Boundary(q, 0) == q.at + q.config.initialReleaseDelay
  {
  }

  lemma ContinuesHonoured(t: Task, u: Task, q: Request)
    requires Honoured(t, q) && Continues(t, u)
    ensures Honoured(u, q)
  {
    hide Boundary;
    if u.state.WaitingRelease? || Recurring(u) {
      var n: nat :| t.nextReleaseOrder == Boundary(q, n);
      NextBoundary(q, n);
      assert u.nextReleaseOrder == Boundary(q, n) || u.nextReleaseOrder == Boundary(q, n + 1);
    }
  }

  lemma TickContinues(t: Task, now: u64)
    requires now < U64_MAX && TaskOk(t, now) && !TickTask(t, now + 1).exhausted
    ensures Continues(t, TickTask(t, now + 1).task)
  {
    hide Accounted, Low32, High32;
    AccountedCounts(t, now);
  }

  lemma ConfigureHonours(id: u8, c: TimingConfig, now: u64, size: nat)
    requires Configure(Reset(id), c, now).1
    ensures now + c.initialReleaseDelay <= U64_MAX
    ensures Honoured(Configure(Reset(id), c, now).0, Request(c, size, now))
  {
    hide Boundary;
    var q := Request(c, size, now);
    var t := Configure(Reset(id), c, now).0;
    NextBoundary(q, 0);
    assert t.jobActive ==> t.releaseOrder == Boundary(q, 0);
    if t.state.WaitingRelease? || Recurring(t) {
      assert t.nextReleaseOrder == Boundary(q, 0) || t.nextReleaseOrder == Boundary(q, 0 + 1);
    }
  }

  // ---- Steps ----

  /** What a step other than creation does to the slots: each occupant goes on
      in the stack it has, or leaves. */
  ghost predicate Carries(k: Kernel, k': Kernel) {
    && Formed(k) && Formed(k')
    && forall i :: 1 <= i < TASK_COUNT && !k'.tasks[i].state.Dormant? ==>
         && !k.tasks[i].state.Dormant? && Continues(k.tasks[i], k'.tasks[i])
         && k'.tcbs[i].low == k.tcbs[i].low && k'.tcbs[i].high == k.tcbs[i].high
  }

  lemma CarriedHonoured(w: World, v: World, requests: seq<Option<Request>>)
    requires AllHonoured(w, requests) && Carries(w.k, v.k) && v.first == w.first
    ensures AllHonoured(v, requests)
  {
    hide Honoured, Continues, Boundary;
    forall i | 1 <= i < TASK_COUNT && !v.k.tasks[i].state.Dormant?
      ensures requests[i].Some? && Honoured(v.k.tasks[i], requests[i].value)
    {
      ContinuesHonoured(w.k.tasks[i], v.k.tasks[i], requests[i].value);
    }
  }

  lemma TickCarries(w: World)
    requires Inv(w) && Formed(w.k) && Tick(w.k).Go?
    ensures Carries(w.k, Tick(w.k).k)
  {
    hide Inv, Tick, TickTask, TaskOk, Continues;
    if w.k.running {
      TickHolds(w);
      InvIsFormed(World(Tick(w.k).k, w.first, w.lastExcluded));
      TickTcbs(w.k);
      forall i | 1 <= i < TASK_COUNT && !Tick(w.k).k.tasks[i].state.Dormant?
        ensures !w.k.tasks[i].state.Dormant? && Continues(w.k.tasks[i], Tick(w.k).k.tasks[i])
      {
        TickedTask(w, i);
        TickContinues(w.k.tasks[i], w.k.now);
        if w.k.tasks[i].state.Dormant? { EmptyStays(w.k.tasks[i], w.k.now); }
        PausedContinues(w.k.tasks[i], TickTask(w.k.tasks[i], w.k.now + 1).task);
      }
    } else {
      StillTick(w.k);
    }
  }

  lemma StillTick(k: Kernel)
    requires Formed(k) && !k.running
    ensures Tick(k).k == k && Carries(k, k)
  {
  }

  lemma TickTcbs(k: Kernel)
    requires Formed(k) && Tick(k).Go?
    ensures Tick(k).k.tcbs == k.tcbs
  {
    hide SelectionBatch, Outranks, Select, TickTable, TickInputs, Singles, SomeReady, SomeExhausted;
  }

  lemma EmptyStays(t: Task, now: u64)
    requires now < U64_MAX && TaskOk(t, now) && t.state.Dormant?
    ensures TickTask(t, now + 1).task.state.Dormant?
  {
  }

  lemma PausedContinues(t: Task, u: Task)
    requires Continues(t, u)
    ensures u.state.Running? ==> Continues(t, u.(state := Ready))
  {
  }

  lemma SameContinues(t: Task)
    ensures t.jobActive ==> Continues(t, t)
    ensures Continues(t, t)
  {
  }

  /** A service touches no entry but the caller's. */
  lemma CallerCarries(k: Kernel, k': Kernel, t: Task)
    requires Formed(k) && k.current < TASK_COUNT && t.id == k.current && !k.tasks[k.current].state.Dormant?
    requires k'.tasks == k.tasks[k.current := t] && k'.tcbs == k.tcbs && Continues(k.tasks[k.current], t)
    ensures Carries(k, k')
  {
    forall i | 1 <= i < TASK_COUNT && i != k.current ensures Continues(k.tasks[i], k'.tasks[i]) {
      SameContinues(k.tasks[i]);
    }
  }

  lemma JobContinues(t: Task, now: u64, ticks: u32)
    requires t.state.Running?
    ensures SleepJob(t, now, ticks).1 ==>
              Continues(t, SleepJob(t, now, ticks).0) && SleepJob(t, now, ticks).0.id == t.id
    ensures CompleteJob(t, now).1 ==>
              Continues(t, CompleteJob(t, now).0.(state := Exiting)) && CompleteJob(t, now).0.id == t.id
    ensures WaitNextPeriod(t, now).1 ==>
              Continues(t, WaitNextPeriod(t, now).0) && WaitNextPeriod(t, now).0.id == t.id
    ensures Continues(t, t.(state := Ready))
  {
  }

  lemma ServiceCarries(w: World, e: Event)
    requires Inv(w) && Formed(w.k) && HeapModel.HasCursor(w.k.heap) && Enabled(w.k, e) && Do(w.k, e).Go?
    requires !e.PendSvEvent? && !e.CreateEvent? && !e.TickEvent?
    ensures Carries(w.k, Do(w.k, e).k)
  {
    hide Inv, HeapModel.Alloc, HeapModel.FreeBlock, PointerOffset, Low32, High32, TaskWord, SleepJob, CompleteJob,
         WaitNextPeriod, EmitOutcome, Continues, Carries;
    var k, k' := w.k, Do(w.k, e).k;
    if k'.tasks == k.tasks && k'.tcbs == k.tcbs {
      NothingMoves(k, k');
    } else {
      var t := k.tasks[k.current];
      match e
      case SleepEvent(ticks) =>
        JobContinues(t, k.now, ticks);
        CallerCarries(k, k', SleepJob(t, k.now, ticks).0);
      case YieldEvent =>
        JobContinues(t, k.now, 0);
        CallerCarries(k, k', t.(state := Ready));
      case ExitEvent =>
        JobContinues(t, k.now, 0);
        var u := CompleteJob(t, k.now).0;
        OutcomeTouches(WithTask(k, k.current, u.(state := Exiting)), t, u);
        CallerCarries(k, k', u.(state := Exiting));
      case WaitPeriodEvent =>
        JobContinues(t, k.now, 0);
        var u := WaitNextPeriod(t, k.now).0;
        OutcomeTouches(WithTask(k, k.current, u), t, u);
        CallerCarries(k, k', u);
    }
  }

  lemma NothingMoves(k: Kernel, k': Kernel)
    requires Formed(k) && k'.tasks == k.tasks && k'.tcbs == k.tcbs
    ensures Carries(k, k')
  {
    forall i | 1 <= i < TASK_COUNT ensures Continues(k.tasks[i], k'.tasks[i]) {
      SameContinues(k.tasks[i]);
    }
  }

  lemma OutcomeTouches(k: Kernel, before: Task, after: Task)
    ensures EmitOutcome(k, before, after).tasks == k.tasks && EmitOutcome(k, before, after).tcbs == k.tcbs
  {
  }

  // ---- PendSV ----

  lemma SavedBounds(k: Kernel, psp: nat)
    requires Formed(k) && Saved(k, psp).Go?
    ensures var r := Saved(k, psp).k;
      && r == k.(tcbs := r.tcbs) && |r.tcbs| == TASK_COUNT
      && forall i :: 0 <= i < TASK_COUNT ==> r.tcbs[i].low == k.tcbs[i].low && r.tcbs[i].high == k.tcbs[i].high
  {
    hide PspValid;
  }

  lemma RetiredBounds(k: Kernel)
    requires Formed(k) && Retired(k).Go?
    ensures var r := Retired(k).k;
      forall i :: 1 <= i < TASK_COUNT && !r.tasks[i].state.Dormant? ==> r.tcbs[i] == k.tcbs[i]
  {
    hide HeapModel.ReleaseOwner;
  }

  lemma DispatchedBounds(k: Kernel, next: u8, outgoing: u8, outgoingState: State)
    requires Formed(k) && next < TASK_COUNT && Dispatched(k, next, outgoing, outgoingState).Go?
    ensures var r := Dispatched(k, next, outgoing, outgoingState).k;
      && |r.tcbs| == TASK_COUNT && r.tasks == k.tasks[next := k.tasks[next].(state := Running)]
      && k.tasks[next].state.Ready?
      && forall i :: 0 <= i < TASK_COUNT ==> r.tcbs[i].low == k.tcbs[i].low && r.tcbs[i].high == k.tcbs[i].high
  {
    hide PspValid, SelectionBatch, Singles, SwitchInputs, StateVerified, Low32, High32;
  }

  lemma PendSvBounds(k: Kernel, psp: nat)
    requires Formed(k) && PendSv(k, psp).Go?
    ensures var r := PendSv(k, psp).k;
      && |r.tcbs| == TASK_COUNT && |r.tasks| == TASK_COUNT
      && forall i :: 1 <= i < TASK_COUNT && !r.tasks[i].state.Dormant? ==>
           r.tcbs[i].low == k.tcbs[i].low && r.tcbs[i].high == k.tcbs[i].high
  {
    hide Saved, Retired, Dispatched, Select;
    SavedBounds(k, psp);
    var k1 := Saved(k, psp).k;
    RetiredBounds(k1);
    var k2 := Retired(k1).k;
    DispatchedBounds(k2, Chosen(k2), k.current, if k.current < TASK_COUNT then k.tasks[k.current].state else Dormant);
  }

  lemma SwitchCarries(w: World, psp: nat)
    requires Inv(w) && Formed(w.k) && Enabled(w.k, PendSvEvent(psp))
    ensures PendSv(w.k, psp).Go? && Carries(w.k, PendSv(w.k, psp).k)
  {
    hide Inv, PendSv, Select, PspValid, Enabled;
    PendSvHolds(w, psp);
    PendSvBounds(w.k, psp);
    InvIsFormed(World(PendSv(w.k, psp).k, w.first, w.k.excluded));
  }

  // ---- Creation ----

  /** What a successful creation puts into the slot it takes. */
  ghost predicate Installs(k: Kernel, c: TimingConfig, size: nat, k': Kernel, id: int) {
    && Formed(k) && Formed(k') && 1 <= id < TASK_COUNT && k.tasks[id] == Reset(id)
    && Configure(k.tasks[id], c, k.now) == (k'.tasks[id], true)
    && k'.tcbs[id].low == k.stackPool + 1024 * id && k'.tcbs[id].high == k'.tcbs[id].low + size
    && k'.tcbs[id].savedPsp == k'.tcbs[id].high - 64
    && forall i :: 0 <= i < TASK_COUNT && i != id ==> k'.tasks[i] == k.tasks[i] && k'.tcbs[i] == k.tcbs[i]
  }

  lemma CreationInstalls(w: World, c: TimingConfig, size: nat)
    requires Inv(w) && Formed(w.k)
    ensures var o := Create(w.k, c, size);
      && o.Go? && (o.result == 0 || o.result == FreeSlot(w.k, 1))
      && (o.result == 0 ==> o.k == w.k)
      && (o.result != 0 ==> Installs(w.k, c, size, o.k, o.result))
      && (o.result != 0 <==>
            !CreationRefused(w.k, c, size) && FreeSlot(w.k, 1) != INVALID && Configure(Reset(1), c, w.k.now).1)
  {
    hide TaskOk, OnCadence, HeapOk, StackOk, Configure, Outranks, StateVerified, PhaseOk, FirstOk, Reset,
         Challenged, Announced, LayoutValid, ConfigValid;
    CreateHolds(w, c, size);
    if !CreationRefused(w.k, c, size) && FreeSlot(w.k, 1) != INVALID {
      var id := FreeSlot(w.k, 1);
      DormantIsReset(w.k.tasks[id], w.k.now);
      AnySlotAccepts(id, c, w.k.now);
      if Configure(w.k.tasks[id], c, w.k.now).1 {
        var t := Configure(w.k.tasks[id], c, w.k.now).0;
        LayoutHolds(w.k, id, size);
        ChallengedTouches(Announced(Installed(w.k, id, t, size), id), id);
      } else {
        EmptySlot(w, id);
      }
    }
  }

  lemma AnySlotAccepts(id: u8, c: TimingConfig, now: u64)
    ensures Configure(Reset(id), c, now).1 <==> Configure(Reset(1), c, now).1
  {
  }

  lemma ChallengedTouches(k: Kernel, id: u8)
    requires Formed(k) && id < TASK_COUNT && (k.running ==> k.current < TASK_COUNT) && Challenged(k, id).Go?
    ensures Challenged(k, id).k.tasks == k.tasks && Challenged(k, id).k.tcbs == k.tcbs
  {
    hide SelectionBatch, Outranks;
  }

  /** The request in plain numbers: a stack of 256 to 1024 bytes in whole
      doublewords, a deadline, and intervals of at most 2^31 - 1 ticks. */
  predicate WellFormedRequest(c: TimingConfig, size: nat) {
    && 256 <= size <= 1024 && size % 8 == 0
    && 1 <= c.relativeDeadline <= 2147483647 && c.initialReleaseDelay + c.relativeDeadline <= 2147483647
    && c.period <= 2147483647 && c.budget <= 2147483647
    && (c.kind.OneShot? ==> c.period == 0) && (c.kind.Periodic? ==> c.relativeDeadline <= c.period)
  }

  /** The first deadline and the second release still fit the 64-bit clock. */
  predicate FitsTheClock(c: TimingConfig, now: u64) {
    && now + c.initialReleaseDelay + c.relativeDeadline <= 0xFFFF_FFFF_FFFF_FFFF
    && now + c.initialReleaseDelay + c.period <= 0xFFFF_FFFF_FFFF_FFFF
  }

  lemma AcceptedExactly(c: TimingConfig, size: nat, now: u64)
    ensures 256 <= size <= 1024 && size % 8 == 0 && ConfigValid(c) <==> WellFormedRequest(c, size)
    ensures Configure(Reset(1), c, now).1 <==> ConfigValid(c) && FitsTheClock(c, now)
  {
  }

  /** Creation succeeds exactly when the request is well formed and fits the
      clock, the caller is a running user task or the kernel has not started,
      and a slot is empty; it takes the lowest empty slot, and a refusal changes
      nothing. */
  lemma CreationSucceedsExactly(w: World, c: TimingConfig, size: nat)
    requires Reachable(w) && Formed(w.k)
    ensures var o := Create(w.k, c, size);
      && o.Go?
      && (o.result != 0 <==>
            && WellFormedRequest(c, size) && FitsTheClock(c, w.k.now)
            && (w.k.running ==> w.k.active && 1 <= w.k.current < TASK_COUNT
                                && w.k.tasks[w.k.current].state.Running?)
            && exists i :: 1 <= i < TASK_COUNT && w.k.tasks[i].state.Dormant?)
      && (o.result == 0 ==> o.k == w.k)
      && (o.result != 0 ==>
            && o.result < TASK_COUNT && w.k.tasks[o.result].state.Dormant?
            && forall i :: 1 <= i < o.result ==> !w.k.tasks[i].state.Dormant?)
  {
    hide Inv, Leads, Configure, ConfigValid, Reset, Create;
    ReachableIsGood(w);
    CreationInstalls(w, c, size);
    AcceptedExactly(c, size, w.k.now);
    EmptyIsUnclaimed(w);
  }

  lemma EmptyIsUnclaimed(w: World)
    requires Inv(w) && Formed(w.k)
    ensures forall i :: 1 <= i < TASK_COUNT && w.k.tasks[i].state.Dormant? ==> !w.k.tcbs[i].claimed
  {
    hide TaskOk, HeapOk, CadenceOk, FirstOk, PhaseOk, PspValid;
    forall i | 1 <= i < TASK_COUNT && w.k.tasks[i].state.Dormant? ensures !w.k.tcbs[i].claimed {
      assert StackOk(w.k, i);
    }
  }

  // ---- Whole runs ----

  lemma CreateHonours(w: World, e: Event, requests: seq<Option<Request>>)
    requires Inv(w) && Formed(w.k) && e.CreateEvent? && AllHonoured(w, requests)
    ensures var o := Create(w.k, e.config, e.stackSize);
      o.Go? && AllHonoured(Next(w, e, o.k, o.result), Asked(requests, w.k, e, o.result))
  {
    hide Inv, Create, Configure, Reset, Honoured;
    var c, size := e.config, e.stackSize;
    CreationInstalls(w, c, size);
    var o := Create(w.k, c, size);
    if o.result != 0 {
      ConfigureHonours(o.result, c, w.k.now, size);
      NextBoundary(Request(c, size, w.k.now), 0);
      InvIsFormed(w);
    }
  }

  lemma StepHonours(w: World, e: Event, requests: seq<Option<Request>>)
    requires Inv(w) && Formed(w.k) && HeapModel.HasCursor(w.k.heap) && Enabled(w.k, e) && Do(w.k, e).Go?
    requires AllHonoured(w, requests)
    ensures var o := Do(w.k, e);
      AllHonoured(Next(w, e, o.k, o.result), Asked(requests, w.k, e, o.result))
  {
    hide Inv, AllHonoured, Carries, Create, Tick, PendSv, Start, StartSvc, Yield, Sleep, WaitPeriod, Exit,
         MemoryAlloc, MemoryFree;
    var o := Do(w.k, e);
    match e
    case CreateEvent(_, _) => CreateHonours(w, e, requests);
    case TickEvent =>
      TickCarries(w);
      CarriedHonoured(w, Next(w, e, o.k, o.result), requests);
    case PendSvEvent(psp) =>
      SwitchCarries(w, psp);
      CarriedHonoured(w, Next(w, e, o.k, o.result), requests);
    case _ =>
      ServiceCarries(w, e);
      CarriedHonoured(w, Next(w, e, o.k, o.result), requests);
  }

  lemma {:induction false} RunsHonour(w: World, es: seq<Event>, v: World, requests: seq<Option<Request>>)
    requires Inv(w) && Leads(w, es, v) && AllHonoured(w, requests)
    ensures AllHonoured(v, Requests(w, es, v, requests))
    decreases |es|
  {
    hide Inv, Do, Enabled, AllHonoured;
    if es != [] {
      var o := Do(w.k, es[0]);
      StepSafe(w, es[0]);
      StepHonours(w, es[0], requests);
      RunsHonour(Next(w, es[0], o.k, o.result), es[1..], v, Asked(requests, w.k, es[0], o.result));
    }
  }

  lemma BootHonours(w: World)
    requires Booted(w)
    ensures AllHonoured(w, NOBODY)
  {
    hide HeapModel.Init, LayoutValid, StateVerified;
  }

  /** In every run every occupant is what its creator asked for: kind, period,
      relative deadline, budget, priority and stack; its active job was released
      at an instant of the request and is due the requested time later. */
  lemma EveryTaskIsAsRequested(w0: World, es: seq<Event>, w: World, i: int)
    requires Booted(w0) && Leads(w0, es, w) && 1 <= i < |w.k.tasks| && !w.k.tasks[i].state.Dormant?
    ensures |w.k.tcbs| == |w.k.tasks| == TASK_COUNT
    ensures var q := Requests(w0, es, w, NOBODY)[i];
      var t := w.k.tasks[i];
      && q.Some? && AsAsked(t, q.value.config)
      && w.k.tcbs[i].high - w.k.tcbs[i].low == q.value.size
      && (t.jobActive ==> exists n: nat ::
            && t.releaseOrder == Boundary(q.value, n) <= w.k.now
            && t.absoluteDeadline == Boundary(q.value, n) + q.value.config.relativeDeadline)
      && (t.state.WaitingRelease? ==> exists n: nat :: t.nextReleaseOrder == Boundary(q.value, n) > w.k.now)
      && (t.state.WaitingRelease? && t.kind.OneShot? ==> t.nextReleaseOrder == Boundary(q.value, 0))
  {
    hide Inv, Leads, Requests, Boundary;
    BootedIsInv(w0);
    BootHonours(w0);
    RunsHonour(w0, es, w, NOBODY);
    assert Reachable(w);
    ReachableIsGood(w);
    var q := Requests(w0, es, w, NOBODY)[i].value;
    var t := w.k.tasks[i];
    EntryIsOk(w, i);
    if t.jobActive {
      var n: nat :| t.releaseOrder == Boundary(q, n);
      assert t.absoluteDeadline == Boundary(q, n) + q.config.relativeDeadline;
    }
    if t.state.WaitingRelease? {
      var n: nat :| t.nextReleaseOrder == Boundary(q, n);
      if t.kind.OneShot? { StillFirst(q, n); }
    }
  }

  lemma StillFirst(q: Request, n: nat)
    requires q.config.period == 0
    ensures Boundary(q, n) == Boundary(q, 0)
  {
  }

  lemma EntryIsOk(w: World, i: int)
    requires Inv(w) && 1 <= i < TASK_COUNT
    ensures TaskOk(w.k.tasks[i], w.k.now)
  {
    hide TaskOk, StacksOk, HeapOk, CadenceOk, FirstOk, PhaseOk;
  }

  lemma BootedIsInv(w: World)
    requires Booted(w)
    ensures Inv(w)
  {
    hide Inv, Boot;
    EmptyRun(w);
    assert Reachable(w);
    ReachableIsGood(w);
  }

  /** The whole cadence from the request: the jobs a periodic task has been given
      and the releases it skipped number exactly the instants
      at + delay + n * period that have passed, and the next one is announced. */
  lemma CadenceIsAsRequested(w0: World, es: seq<Event>, w: World, i: int)
    requires Booted(w0) && Leads(w0, es, w) && 1 <= i < |w.k.tasks| && Recurring(w.k.tasks[i])
    requires w.k.tasks[i].jobSequence < U32_MAX && w.k.tasks[i].missedReleases < U32_MAX
    ensures |w.k.tasks| == TASK_COUNT
    ensures var q := Requests(w0, es, w, NOBODY)[i];
      var t := w.k.tasks[i];
      var count := t.jobSequence + t.missedReleases;
      && q.Some?
      && t.nextReleaseOrder == q.value.at + q.value.config.initialReleaseDelay + count * q.value.config.period
      && forall n: nat ::
           q.value.at + q.value.config.initialReleaseDelay + n * q.value.config.period <= w.k.now <==> n < count
  {
    hide Inv, Leads, Requests, Honoured, Boundary, ReleaseAt;
    BootedIsInv(w0);
    BootHonours(w0);
    RunsHonour(w0, es, w, NOBODY);
    assert Reachable(w);
    ReachableIsGood(w);
    InvIsFormed(w);
    CadenceLosesNothing(w, i);
    var q := Requests(w0, es, w, NOBODY)[i].value;
    HonouredPeriod(w.k.tasks[i], q);
    var t := w.k.tasks[i];
    var count := t.jobSequence + t.missedReleases;
    InstantIsReleaseAt(q, w.first[i], count);
    forall n: nat
      ensures q.at + q.config.initialReleaseDelay + n * q.config.period <= w.k.now <==> n < count
    {
      InstantIsReleaseAt(q, w.first[i], n);
    }
  }

  lemma InstantIsReleaseAt(q: Request, first: u64, n: nat)
    requires first == Boundary(q, 0)
    ensures q.at + q.config.initialReleaseDelay + n * q.config.period == ReleaseAt(first, q.config.period, n)
  {
  }

  lemma HonouredPeriod(t: Task, q: Request)
    requires Honoured(t, q)
    ensures t.period == q.config.period
  {
  }
}
