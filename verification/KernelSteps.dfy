/** SysTick and PendSV keep the kernel invariant, and so does every step: the
    kernel never panics except when its clock is exhausted. */
module KernelSteps {
  import opened Words
  import opened Scheduler
  import opened TraceTypes
  import opened TraceSelection
  import opened KernelModel
  import opened KernelTasks
  import opened KernelInvariant
  import opened HeapChain
  import HeapModel
  import HeapLaws

  // ---- SysTick ----

  /** A job that was active keeps its place in the deadline order. */
  predicate KeepsRank(t: Task, u: Task) {
    && u.id == t.id && (t.state == u.state || (u.state.Ready? && (t.state.WaitingRelease? || t.state.Sleeping?)))
    && (t.jobActive ==> u.jobActive && u.absoluteDeadline == t.absoluteDeadline && u.priority == t.priority)
    && (!t.jobActive && u.state == t.state ==> !u.jobActive)
  }

  lemma RankKept(t: Task, t': Task, u: Task, u': Task)
    requires KeepsRank(t, t') && KeepsRank(u, u') && u'.state == u.state
    ensures Outranks(t, u) ==> Outranks(t', u')
    ensures t.state == t'.state && Outranks(t', u') ==> Outranks(t, u)
  {
  }

  predicate SomeOverruns(tasks: seq<Task>, now: u64) {
    exists i :: 1 <= i < |tasks| && Overruns(tasks[i], now)
  }

  /** What the per-task loop does to the table. */
  ghost predicate TableTicks(tasks: seq<Task>, after: seq<Task>, now: u64) {
    && |after| == |tasks|
    && (forall i :: 0 <= i < |tasks| ==> KeepsRank(tasks[i], after[i]))
    && (!SomeReady(tasks, now) ==> forall i :: 0 <= i < |tasks| ==> after[i].state == tasks[i].state)
  }

  lemma TickTableHolds(tasks: seq<Task>, now: u64)
    requires now < U64_MAX && TableOk(tasks, now)
    ensures SomeExhausted(tasks, now + 1) <==> SomeOverruns(tasks, now + 1)
    ensures !SomeExhausted(tasks, now + 1) ==>
              var after := TickTable(tasks, now + 1);
              TableOk(after, now + 1) && TableTicks(tasks, after, now + 1)
  {
    hide TaskOk, TickTask, Overruns;
    var after := TickTable(tasks, now + 1);
    forall i | 1 <= i < TASK_COUNT
      ensures var r := TickTask(tasks[i], now + 1);
        && (r.exhausted <==> Overruns(tasks[i], now + 1))
        && (!r.exhausted ==> TaskOk(r.task, now + 1) && KeepsRank(tasks[i], r.task)
                             && (!r.ready ==> r.task.state == tasks[i].state))
    {
      TickKeepsTask(tasks[i], now);
      InactiveStates(tasks[i], now);
    }
  }

  lemma InactiveStates(t: Task, now: u64)
    requires TaskOk(t, now)
    ensures t.jobActive <==> Active(t.state)
    ensures t.state.WaitingRelease? || t.state.Sleeping? ==> !t.state.Running?
  {
  }

  lemma TickKeepsCadences(tasks: seq<Task>, now: u64, first: seq<u64>)
    requires now < U64_MAX && TableOk(tasks, now) && CadenceOk(tasks, first) && !SomeExhausted(tasks, now + 1)
    ensures CadenceOk(TickTable(tasks, now + 1), first)
  {
    hide TaskOk, OnCadence, TickTask;
    forall i | 1 <= i < |tasks| ensures OnCadence(TickTask(tasks[i], now + 1).task, first[i]) {
      TickKeepsCadence(tasks[i], now, first[i]);
    }
  }

  /** Ticking the table neither moves the phase nor lets anybody new outrank
      the current task, unless somebody became ready. */
  lemma TickedPhase(k: Kernel, k': Kernel, lastExcluded: u8)
    requires Formed(k) && Formed(k') && PhaseOk(k) && FirstOk(k, lastExcluded) && k.now < U64_MAX
    requires TableTicks(k.tasks, k'.tasks, k.now + 1)
    requires k' == k.(now := k.now + 1, tasks := k'.tasks, log := k'.log)
    ensures PhaseOk(k') && (!SomeReady(k.tasks, k.now + 1) ==> FirstOk(k', lastExcluded))
    ensures k.active ==> (k'.tasks[k.current].state.Running? <==> k.tasks[k.current].state.Running?)
  {
    hide TickTask, Outranks, SomeReady;
    if k.active {
      forall j | 1 <= j < TASK_COUNT && k'.tasks[k.current].state == k.tasks[k.current].state
        ensures Outranks(k.tasks[j], k.tasks[k.current]) ==> Outranks(k'.tasks[j], k'.tasks[k.current])
        ensures k.tasks[j].state == k'.tasks[j].state && Outranks(k'.tasks[j], k'.tasks[k.current])
                ==> Outranks(k.tasks[j], k.tasks[k.current])
      {
        RankKept(k.tasks[j], k'.tasks[j], k.tasks[k.current], k'.tasks[k.current]);
      }
      if Outranked(k.tasks, k.current) && k'.tasks[k.current].state == k.tasks[k.current].state {
        var j :| 1 <= j < TASK_COUNT && j != k.current && Outranks(k.tasks[j], k.tasks[k.current]);
        assert Outranked(k'.tasks, k'.current);
      }
    }
  }

  /** The loop keeps every clause; only a probe is left to do when something
      became ready. */
  lemma TickedHolds(w: World)
    requires Inv(w) && w.k.now < U64_MAX && w.k.running && !SomeExhausted(w.k.tasks, w.k.now + 1)
    ensures var k1 := Ticked(w.k);
      && TableOk(k1.tasks, k1.now) && StacksOk(k1) && HeapOk(k1) && CadenceOk(k1.tasks, w.first) && PhaseOk(k1)
      && (!SomeReady(w.k.tasks, w.k.now + 1) ==> FirstOk(k1, w.lastExcluded))
  {
    hide TaskOk, OnCadence, TickTask, HeapModel.HeapInv, Live, StackOk, SomeReady, SomeExhausted, TickTable;
    hide TickInputs, Singles, PhaseOk, FirstOk;
    var k1 := Ticked(w.k);
    TickTableHolds(w.k.tasks, w.k.now);
    TickKeepsCadences(w.k.tasks, w.k.now, w.first);
    StacksSame(w.k, k1);
    TickedPhase(w.k, k1, w.lastExcluded);
  }

  /** The probe's candidate is the best ready task, so when it does not outrank
      the running task nobody does. */
  lemma CandidateDecides(tasks: seq<Task>, current: u8)
    requires Indexed(tasks) && |tasks| == TASK_COUNT && current < TASK_COUNT && tasks[current].state.Running?
    requires current != IDLE ==> tasks[current].jobActive
    ensures var c := Select(tasks, INVALID);
      var asks := c != INVALID && c != IDLE && c < TASK_COUNT && Outranks(tasks[c], tasks[current]);
      && (c < TASK_COUNT || c == INVALID)
      && (asks <==> Outranked(tasks, current))
      && (!asks ==> forall j :: 1 <= j < TASK_COUNT ==> !Outranks(tasks[j], tasks[current]))
  {
    hide Select;
    SelectChoosesMinimum(tasks, INVALID);
    var c := Select(tasks, INVALID);
    forall j | 1 <= j < TASK_COUNT && Outranks(tasks[j], tasks[current])
      ensures c != INVALID && c != IDLE && c < TASK_COUNT && Outranks(tasks[c], tasks[current])
      ensures j != current
    {
      assert Eligible(tasks, INVALID, j);
      BeforeIsStrictTotalOrder(tasks[c], tasks[j], tasks[current]);
    }
  }

  lemma PausedTable(tasks: seq<Task>, now: u64, current: u8)
    requires TableOk(tasks, now) && current < TASK_COUNT && tasks[current].state.Running?
    ensures Indexed(tasks) && |tasks| == TASK_COUNT
    ensures current != IDLE ==> tasks[current].jobActive
    ensures TableOk(tasks[current := tasks[current].(state := Ready)], now)
  {
    assert current != IDLE ==> TaskOk(tasks[current], now);
  }

  lemma PausedCadence(tasks: seq<Task>, first: seq<u64>, current: u8)
    requires CadenceOk(tasks, first) && current < |tasks| && tasks[current].state.Running?
    ensures CadenceOk(tasks[current := tasks[current].(state := Ready)], first)
  {
    hide ReleaseAt;
    assert OnCadence(tasks[current], first[current]);
  }

  lemma ProbedHolds(k: Kernel, lastExcluded: u8)
    requires Formed(k) && TableOk(k.tasks, k.now) && PhaseOk(k) && k.active
    requires k.tasks[k.current].state.Running?
    ensures var o := Probed(k);
      && o.Go? && Formed(o.k) && PhaseOk(o.k) && FirstOk(o.k, lastExcluded) && TableOk(o.k.tasks, o.k.now)
      && o.k == k.(tasks := o.k.tasks, sources := o.k.sources, cause := o.k.cause, pending := o.k.pending,
                   log := o.k.log)
      && (o.k.tasks == k.tasks || o.k.tasks == k.tasks[k.current := k.tasks[k.current].(state := Ready)])
  {
    hide Select, SelectionBatch, Outranks, TableOk;
    var t := k.tasks[k.current];
    PausedTable(k.tasks, k.now, k.current);
    CandidateDecides(k.tasks, k.current);
    var o := Probed(k);
    if Outranked(k.tasks, k.current) {
      var j :| 1 <= j < TASK_COUNT && j != k.current && Outranks(k.tasks[j], t);
      PausedStillOutranked(k.tasks[j], t);
      assert o.k.tasks[j] == k.tasks[j];
      assert Outranked(o.k.tasks, k.current);
    }
  }

  lemma PausedStillOutranked(u: Task, t: Task)
    requires Outranks(u, t) && t.state.Running?
    ensures Outranks(u, t.(state := Ready))
  {
  }

  predicate ClockOverruns(k: Kernel) {
    k.running && (k.now == U64_MAX || SomeOverruns(k.tasks, k.now + 1))
  }

  /** SysTick panics exactly when the clock, or the next period of some task,
      no longer fits; otherwise it keeps every clause of the invariant. */
  lemma TickHolds(w: World)
    requires Inv(w)
    ensures var o := Tick(w.k);
      && (o.Panic? <==> ClockOverruns(w.k))
      && (o.Go? ==> Inv(World(o.k, w.first, w.lastExcluded)))
  {
    hide TaskOk, OnCadence, TickTask, HeapModel.HeapInv, Live, StackOk, SomeReady, SomeExhausted, TickTable,
         SomeOverruns;
    hide TickInputs, Singles, Probed, PendingOk, OnlyMayRun, Outranks;
    if w.k.running && w.k.now < U64_MAX {
      TickTableHolds(w.k.tasks, w.k.now);
      if !SomeExhausted(w.k.tasks, w.k.now + 1) {
        TickedHolds(w);
        var k1 := Ticked(w.k);
        if SomeReady(w.k.tasks, w.k.now + 1) && k1.current < TASK_COUNT && k1.tasks[k1.current].state.Running? {
          ProbedHolds(k1, w.lastExcluded);
          StacksSame(k1, Probed(k1).k);
          HeapSame(k1, Probed(k1).k);
          PausedCadence(k1.tasks, w.first, k1.current);
        }
      }
    }
  }

  // ---- PendSV ----

  lemma SavedHolds(k: Kernel, psp: nat)
    requires Formed(k) && PhaseOk(k) && StacksOk(k) && Enabled(k, PendSvEvent(psp))
    ensures var o := Saved(k, psp);
      && o.Go? && o.k == k.(tcbs := o.k.tcbs) && Formed(o.k) && StacksOk(o.k)
      && (k.active ==> o.k.tcbs == k.tcbs[k.current := k.tcbs[k.current].(savedPsp := psp)])
      && (!k.active ==> o.k == k)
  {
    hide PspValid, Outranked;
    if k.active {
      var k' := Saved(k, psp).k;
      assert PspValid(k, k.current, psp);
      forall i | 0 <= i < TASK_COUNT ensures StackOk(k', i) {
        assert StackOk(k, i);
        assert i == k.current ==> k'.tcbs[i].savedPsp == psp;
        PspSame(k, k', i);
      }
    }
  }

  /** The table the dispatcher chooses from: a preempted task is ready again,
      and the slot of an exiting task is empty. */
  function SettledTasks(k: Kernel): (r: seq<Task>)
    requires Formed(k)
    ensures |r| == TASK_COUNT && forall i :: 0 <= i < TASK_COUNT ==> r[i].id == i
  {
    if k.current >= TASK_COUNT then k.tasks
    else
      var t := k.tasks[k.current];
      k.tasks[k.current := match t.state
                           case Running => t.(state := Ready)
                           case Exiting => Reset(k.current)
                           case _ => t]
  }

  /** After the outgoing task has been dealt with nobody runs, and its slot has
      either kept its occupant or been vacated together with its heap blocks. */
  ghost predicate Settles(k: Kernel, k': Kernel) {
    && Formed(k') && TableOk(k'.tasks, k'.now) && StacksOk(k') && HeapOk(k') && OnlyMayRun(k'.tasks, INVALID)
    && k' == k.(tasks := k'.tasks, tcbs := k'.tcbs, heap := k'.heap, log := k'.log,
                reclaims := k'.reclaims, lastReclaimed := k'.lastReclaimed)
    && Formed(k) && k'.tasks == SettledTasks(k)
  }

  lemma {:induction false} OthersOwners(s: seq<Block>, owner: u16)
    ensures forall b :: b in HeapLaws.Others(s, owner) ==> b in s && b.owner != owner
  {
    if s != [] {
      OthersOwners(s[1..], owner);
    }
  }

  lemma VacatedStacks(k: Kernel, id: u8)
    requires Formed(k) && StacksOk(k) && 1 <= id < TASK_COUNT
    ensures StacksOk(ResetSlot(k, id))
  {
    hide PspValid, Reset;
    ResetAtAnyTime(id, 0);
    forall i | 0 <= i < TASK_COUNT ensures StackOk(ResetSlot(k, id), i) {
      assert StackOk(k, i);
      if i != id { PspSame(k, ResetSlot(k, id), i); }
    }
  }

  lemma VacatedHeap(k: Kernel, k': Kernel, id: u8)
    requires Formed(k) && HeapOk(k) && 1 <= id < TASK_COUNT
    requires k'.heap == HeapModel.ReleaseOwner(k.heap, id).0 && k'.tasks == k.tasks[id := Reset(id)]
    requires k'.heapStart == k.heapStart && k'.heapStop == k.heapStop
    ensures HeapOk(k')
  {
    hide HeapModel.HeapInv, Live, HeapModel.ReleaseOwner, Reset;
    HeapLaws.ReleaseKeepsInvAndOthers(k.heap, id);
    OthersOwners(Live(k.heap.chain), id);
  }

  lemma ReclaimedHolds(k: Kernel, id: u8)
    requires Formed(k) && TableOk(k.tasks, k.now) && StacksOk(k) && HeapOk(k) && OnlyMayRun(k.tasks, id)
    requires id < TASK_COUNT && k.tasks[id].state.Exiting? && id == k.current
    ensures Reclaimed(k, id).Go? && Settles(k, Reclaimed(k, id).k)
  {
    hide TaskOk, HeapOk, HeapModel.ReleaseOwner, PspValid, Reset, StacksOk;
    ResetAtAnyTime(id, k.now);
    assert k.tcbs[id].claimed by { OccupiedSlot(k, id); }
    var k' := Reclaimed(k, id).k;
    VacatedHeap(k, k', id);
    VacatedStacks(k, id);
    StacksSame(ResetSlot(k, id), k');
  }

  lemma OccupiedSlot(k: Kernel, id: u8)
    requires Formed(k) && StacksOk(k) && id < TASK_COUNT && (id == IDLE || !k.tasks[id].state.Dormant?)
    ensures k.tcbs[id].claimed && PspValid(k, id, k.tcbs[id].savedPsp)
  {
    hide PspValid;
    assert StackOk(k, id);
  }

  lemma ResetAtAnyTime(id: u8, now: u64)
    ensures Reset(id).id == id && Reset(id).state.Dormant? && TaskOk(Reset(id), now)
  {
  }

  lemma RetiredHolds(k: Kernel)
    requires Formed(k) && TableOk(k.tasks, k.now) && StacksOk(k) && HeapOk(k) && OnlyMayRun(k.tasks, k.current)
    ensures Retired(k).Go? && Settles(k, Retired(k).k)
  {
    hide TableOk, HeapOk, PspValid, Reset, StacksOk, Reclaimed;
    if k.current < TASK_COUNT {
      if k.tasks[k.current].state.Running? {
        PausedTable(k.tasks, k.now, k.current);
        StacksSame(k, Retired(k).k);
        HeapSame(k, Retired(k).k);
      } else if k.tasks[k.current].state.Exiting? {
        ReclaimedHolds(k, k.current);
      }
    }
  }

  lemma SettledCadence(k: Kernel, k': Kernel, first: seq<u64>)
    requires Formed(k) && CadenceOk(k.tasks, first) && Settles(k, k')
    ensures CadenceOk(k'.tasks, first)
  {
    hide ReleaseAt, TableOk, HeapOk, StacksOk;
    forall i | 0 <= i < TASK_COUNT ensures OnCadence(k'.tasks[i], first[i]) {
      assert OnCadence(k.tasks[i], first[i]);
    }
  }

  /** With nobody running, a task can always be chosen: it is ready, nobody
      else eligible comes before it, and it is not a task that another ready
      task outranks unless it was excluded. */
  lemma NextIsBest(tasks: seq<Task>, excluded: u8, now: u64)
    requires TableOk(tasks, now) && OnlyMayRun(tasks, INVALID)
    ensures var r := Select(tasks, excluded);
      && r < TASK_COUNT && tasks[r].state.Ready?
      && (forall j :: 1 <= j < TASK_COUNT && j != excluded ==> !Outranks(tasks[j], tasks[r].(state := Running)))
      && (forall j :: 1 <= j < TASK_COUNT && j != excluded ==> !Outranks(tasks[j], tasks[r]))
  {
    hide Select;
    SelectChoosesMinimum(tasks, excluded);
    var r := Select(tasks, excluded);
    forall j | 1 <= j < TASK_COUNT && j != excluded && tasks[j].state.Ready?
      ensures !Outranks(tasks[j], tasks[r]) && !Outranks(tasks[j], tasks[r].(state := Running))
    {
      assert TaskOk(tasks[j], now);
      assert Eligible(tasks, excluded, j);
    }
  }

  /** The pending preemption still has somebody to switch to. */
  lemma PreemptionStands(k: Kernel, k2: Kernel)
    requires Formed(k) && TableOk(k.tasks, k.now) && PhaseOk(k) && Settles(k, k2) && k.sources != 0
    ensures Select(k2.tasks, k2.excluded) != k.current && k.current != INVALID
  {
    hide Select, Outranks, TaskOk, StacksOk, HeapOk;
    NextIsBest(k2.tasks, k2.excluded, k2.now);
    var j :| 1 <= j < TASK_COUNT && j != k.current && Outranks(k.tasks[j], k.tasks[k.current]);
    assert k2.tasks[j] == k.tasks[j];
    assert Outranks(k2.tasks[j], k2.tasks[k.current]) by {
      if k.tasks[k.current].state.Running? { PausedStillOutranked(k.tasks[j], k.tasks[k.current]); }
    }
  }

  lemma StartedTable(tasks: seq<Task>, now: u64, first: seq<u64>, next: u8)
    requires TableOk(tasks, now) && CadenceOk(tasks, first) && next < TASK_COUNT && tasks[next].state.Ready?
    ensures TableOk(tasks[next := tasks[next].(state := Running)], now)
    ensures CadenceOk(tasks[next := tasks[next].(state := Running)], first)
  {
    hide ReleaseAt;
    assert OnCadence(tasks[next], first[next]);
    assert next != IDLE ==> TaskOk(tasks[next], now);
  }

  /** Recording the switch clears the requests and touches no more than the log
      and the task's started mark. */
  lemma SwitchedShape(k: Kernel, next: u8, outgoing: u8, outgoingState: State)
    requires Formed(k) && next < TASK_COUNT && (k.sources != 0 ==> outgoing != INVALID && outgoing != next)
    requires k.running && k.active && ExactlyRunning(k.tasks, k.current)
    ensures var o := Switched(k, next, outgoing, outgoingState);
      && o.Go? && o.result == k.tcbs[next].savedPsp
      && o.k == k.(tcbs := o.k.tcbs, log := o.k.log, cause := 0, sources := 0, pending := false)
      && o.k.tcbs == k.tcbs[next := k.tcbs[next].(started := o.k.tcbs[next].started)]
  {
    hide SwitchInputs, Singles, Low32, High32;
  }

  lemma DispatchedHolds(k: Kernel, next: u8, outgoing: u8, outgoingState: State, first: seq<u64>)
    requires Formed(k) && TableOk(k.tasks, k.now) && StacksOk(k) && HeapOk(k) && CadenceOk(k.tasks, first)
    requires OnlyMayRun(k.tasks, INVALID) && k.running && next == Chosen(k) && next < TASK_COUNT
    requires k.sources != 0 ==> outgoing != INVALID && outgoing != next
    ensures var o := Dispatched(k, next, outgoing, outgoingState);
      && o.Go? && Inv(World(o.k, first, k.excluded)) && o.k.current == next
      && o.k.tasks == k.tasks[next := k.tasks[next].(state := Running)] && o.result == k.tcbs[next].savedPsp
      && o.k.tcbs == k.tcbs[next := k.tcbs[next].(started := o.k.tcbs[next].started)]
      && !o.k.pending && o.k.active && o.k.stackPool == k.stackPool
  {
    hide TableOk, CadenceOk, HeapOk, StacksOk, Select, Outranks, SelectionBatch, PspValid, Switched;
    InvisibleIds(k.tasks, k.now);
    NextIsBest(k.tasks, k.excluded, k.now);
    OccupiedSlot(k, next);
    StartedTable(k.tasks, k.now, first, next);
    SwitchedShape(Entered(k, next, outgoing), next, outgoing, outgoingState);
    var k' := Dispatched(k, next, outgoing, outgoingState).k;
    DispatchedStacks(k, k');
    HeapSame(k, k');
    var running := k.tasks[next].(state := Running);
    if Outranks(running, running) { OutranksNeedsReady(running, running); }
  }

  lemma InvisibleIds(tasks: seq<Task>, now: u64)
    requires TableOk(tasks, now)
    ensures Indexed(tasks) && |tasks| == TASK_COUNT
  {
  }

  lemma DispatchedStacks(k: Kernel, k': Kernel)
    requires Formed(k) && Formed(k') && StacksOk(k) && k'.stackPool == k.stackPool
    requires forall i :: 0 <= i < TASK_COUNT ==> (k'.tasks[i].state.Dormant? <==> k.tasks[i].state.Dormant?)
    requires forall i :: 0 <= i < TASK_COUNT && k'.tasks[i].state.Dormant? ==> k'.tcbs[i] == k.tcbs[i]
    requires forall i :: 0 <= i < TASK_COUNT ==> k'.tcbs[i] == k.tcbs[i].(started := k'.tcbs[i].started)
    ensures StacksOk(k')
  {
    hide PspValid;
    forall i | 0 <= i < TASK_COUNT ensures StackOk(k', i) {
      assert StackOk(k, i);
      PspSame(k, k', i);
    }
  }

  /** PendSV never panics: it commits the switch, and remembers whom the
      choice had to pass over. */
  lemma PendSvHolds(w: World, psp: nat)
    requires Inv(w) && Enabled(w.k, PendSvEvent(psp))
    ensures var o := PendSv(w.k, psp);
      && o.Go? && Inv(World(o.k, w.first, w.k.excluded))
      && Formed(w.k) && o.k.current == Select(SettledTasks(w.k), w.k.excluded) && o.k.current < TASK_COUNT
      && o.k.tasks == SettledTasks(w.k)[o.k.current := SettledTasks(w.k)[o.k.current].(state := Running)]
      && SettledTasks(w.k)[o.k.current].state.Ready? && !o.k.pending && o.k.active
  {
    hide TableOk, CadenceOk, HeapOk, StacksOk, Select, Dispatched, PspValid, Saved, Retired;
    var outgoing := w.k.current;
    InvIsFormed(w);
    SavedHolds(w.k, psp);
    var k1 := Saved(w.k, psp).k;
    HeapSame(w.k, k1);
    RetiredHolds(k1);
    var k2 := Retired(k1).k;
    SettledCadence(k1, k2, w.first);
    if k2.sources != 0 { PreemptionStands(k1, k2); }
    NextIsBest(k2.tasks, k2.excluded, k2.now);
    var outgoingState := if outgoing < TASK_COUNT then w.k.tasks[outgoing].state else Dormant;
    DispatchedHolds(k2, Chosen(k2), outgoing, outgoingState, w.first);
  }

  lemma SwitchKeepsClock(k: Kernel, psp: nat)
    requires Formed(k) && PendSv(k, psp).Go?
    ensures PendSv(k, psp).k.now == k.now
  {
    hide PspValid, Select, SelectionBatch, Singles, SwitchInputs, StateVerified, HeapModel.ReleaseOwner, Reset, Low32,
         High32;
  }
}
