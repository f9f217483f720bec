/** Concrete runs from initialisation, every step honest, after which the next
    step misleads: each of the three refused kinds of record really occurs. */
module KernelWitness {
  import opened Words
  import opened Scheduler
  import opened TraceTypes
  import opened TraceSelection
  import opened KernelModel
  import opened KernelTasks
  import opened KernelInvariant
  import opened KernelSteps
  import opened KernelRuns
  import opened KernelTrace
  import opened KernelHonesty
  import HeapModel

  // ---- Runs, one step at a time ----

  /** An honest run leads here from initialisation. */
  ghost predicate Arrived(w0: World, es: seq<Event>, w: World) {
    Booted(w0) && Leads(w0, es, w) && Honest(w0, es) && Inv(w) && Formed(w.k) && HeapModel.HasCursor(w.k.heap)
  }

  lemma {:induction false} RunGrows(w: World, es: seq<Event>, v: World, e: Event)
    requires Leads(w, es, v) && Honest(w, es)
    requires Formed(v.k) && HeapModel.HasCursor(v.k.heap) && Enabled(v.k, e) && Do(v.k, e).Go? && !Misleads(v.k, e)
    ensures Leads(w, es + [e], Next(v, e, Do(v.k, e).k, Do(v.k, e).result)) && Honest(w, es + [e])
    decreases |es|
  {
    hide Do, Enabled, Misleads, Next;
    var more := es + [e];
    var end := Next(v, e, Do(v.k, e).k, Do(v.k, e).result);
    if es == [] {
      assert more[0] == e && more[1..] == [];
      NothingFollows(end);
    } else {
      var o := Do(w.k, es[0]);
      assert more[0] == es[0] && more[1..] == es[1..] + [e];
      RunGrows(Next(w, es[0], o.k, o.result), es[1..], v, e);
    }
  }

  lemma NothingFollows(w: World)
    ensures Leads(w, [], w) && Honest(w, [])
  {
  }

  /** One more honest step. */
  lemma Onward(w0: World, es: seq<Event>, w: World, e: Event) returns (es': seq<Event>, w': World)
    requires Arrived(w0, es, w) && Enabled(w.k, e) && !Misleads(w.k, e) && !TimeRunsOut(w.k, e)
    ensures es' == es + [e] && Do(w.k, e).Go? && w'.k == Do(w.k, e).k && Arrived(w0, es', w')
  {
    hide Inv, Booted, Leads, Honest, Do, Enabled, Misleads, TimeRunsOut;
    StepSafe(w, e);
    RunGrows(w0, es, w, e);
    var o := Do(w.k, e);
    NextKernel(w, e, o.k, o.result);
    es', w' := es + [e], Next(w, e, o.k, o.result);
    InvIsFormed(w');
  }

  // ---- The first steps ----

  /** A one-shot task due this many ticks after its creation. */
  function DueIn(ticks: u32): TimingConfig {
    TimingConfig(OneShot, 0, 0, ticks, 0, 1)
  }

  lemma DueInIsAccepted(id: u8, ticks: u32)
    requires 1 <= ticks <= 100
    ensures ConfigValid(DueIn(ticks))
    ensures var (t, ok) := Configure(Reset(id), DueIn(ticks), 0);
      ok && t.id == id && t.state.Ready? && t.jobActive && t.absoluteDeadline == ticks
  {
  }

  lemma Initialised() returns (w: World)
    ensures Arrived(w, [], w) && !w.k.running && !w.k.active && w.k.now == 0 && !w.k.pending && w.k.current == INVALID
    ensures forall i :: 1 <= i < TASK_COUNT ==> w.k.tasks[i] == Reset(i)
  {
    hide Inv, HeapModel.Init;
    HeapModel.InitHolds(0x2000_4000, 0x1000);
    var o := Boot(0x2000_0000, 0x2000_4000, 0x2000_5000);
    assert o.Go? by { BootGoes(0x2000_0000, 0x2000_4000, 0x2000_5000); }
    w := World(o.k, [0, 0, 0, 0, 0], INVALID);
    BootHolds(0x2000_0000, 0x2000_4000, 0x2000_5000);
    InvIsFormed(w);
    NothingFollows(w);
  }

  lemma BootGoes(stackPool: nat, heapStart: u32, heapStop: u32)
    requires LayoutValid(stackPool, stackPool + MAX_STACK) && heapStart < heapStop
    requires HeapModel.Init(heapStart, heapStop - heapStart).Some?
    ensures Boot(stackPool, heapStart, heapStop).Go?
  {
    hide HeapModel.Init, LayoutValid;
  }

  /** The free slot is the first empty one. */
  lemma FirstEmpty(w: World, id: u8)
    requires Inv(w) && Formed(w.k) && 1 <= id < TASK_COUNT && w.k.tasks[id].state.Dormant?
    requires forall j :: 1 <= j < id ==> !w.k.tasks[j].state.Dormant?
    ensures FreeSlot(w.k, 1) == id
  {
    hide TaskOk, HeapOk, CadenceOk, FirstOk, PhaseOk, FreeSlot;
    assert StackOk(w.k, id);
  }

  /** Before the kernel runs, a creation fills the first empty slot. */
  lemma Created(w0: World, es: seq<Event>, w: World, id: u8, ticks: u32) returns (es': seq<Event>, w': World)
    requires Arrived(w0, es, w) && !w.k.running && w.k.now == 0 && 1 <= id < TASK_COUNT && 1 <= ticks <= 100
    requires w.k.tasks[id] == Reset(id) && forall j :: 1 <= j < id ==> !w.k.tasks[j].state.Dormant?
    ensures Arrived(w0, es', w') && !w'.k.running && w'.k.now == 0
    ensures w'.k.tasks == w.k.tasks[id := Configure(Reset(id), DueIn(ticks), 0).0]
  {
    hide Inv, Booted, Leads, Honest, Configure, Reset, LayoutValid, StateVerified, ConfigValid, FreeSlot;
    var e := CreateEvent(DueIn(ticks), 256);
    DueInIsAccepted(id, ticks);
    ResetIsEmpty(id);
    FirstEmpty(w, id);
    es', w' := Onward(w0, es, w, e);
  }

  lemma ResetIsEmpty(id: u8)
    ensures Reset(id).state.Dormant?
  {
  }

  /** Two tasks are created, with deadlines 10 and 30, and the kernel starts: the
      first one runs. */
  lemma FirstTaskRuns() returns (w0: World, es: seq<Event>, w: World)
    ensures Arrived(w0, es, w) && InService(w.k) && w.k.current == 1 && w.k.now == 0
    ensures w.k.tasks[1].absoluteDeadline == 10 && w.k.tasks[2].absoluteDeadline == 30
    ensures w.k.tasks[2].state.Ready? && w.k.tasks[3] == Reset(3)
    ensures forall j :: 3 <= j < TASK_COUNT ==> w.k.tasks[j].state.Dormant?
  {
    hide Inv, Booted, Leads, Honest, Configure, Reset, Select, Before, PendSv;
    w0 := Initialised();
    w, es := w0, [];
    DueInIsAccepted(1, 10);
    DueInIsAccepted(2, 30);
    ResetIsEmpty(2);
    ResetIsEmpty(3);
    ResetIsEmpty(4);
    es, w := Created(w0, es, w, 1, 10);
    es, w := Created(w0, es, w, 2, 30);
    ghost var table := w.k.tasks;
    es, w := Started(w0, es, w);
    es, w := FirstSwitch(w0, es, w, table);
  }

  /** The kernel is started and asks for its first switch. */
  lemma Started(w0: World, es: seq<Event>, w: World) returns (es': seq<Event>, w': World)
    requires Arrived(w0, es, w) && !w.k.running && w.k.now == 0
    ensures Arrived(w0, es', w') && w'.k.tasks == w.k.tasks && w'.k.pending && !w'.k.active && w'.k.now == 0
  {
    hide Booted, Leads, Honest, TableOk, StacksOk, HeapOk, CadenceOk, FirstOk;
    es', w' := Onward(w0, es, w, StartEvent);
    es', w' := Onward(w0, es', w', StartSvcEvent);
  }

  /** The first switch picks the earlier deadline. */
  lemma FirstSwitch(w0: World, es: seq<Event>, w: World, table: seq<Task>) returns (es': seq<Event>, w': World)
    requires Arrived(w0, es, w) && w.k.pending && !w.k.active && w.k.now == 0 && table == w.k.tasks
    requires Runnable(table[1]) && Runnable(table[2]) && table[1].absoluteDeadline == 10
             && table[2].absoluteDeadline == 30
    requires forall j :: 3 <= j < TASK_COUNT ==> table[j].state.Dormant?
    ensures Arrived(w0, es', w') && InService(w'.k) && w'.k.current == 1 && w'.k.now == 0
    ensures w'.k.tasks == table[1 := table[1].(state := Running)]
  {
    hide Inv, Booted, Leads, Honest, PendSv, Select;
    Undispatched(w);
    SelectChoosesMinimum(table, INVALID);
    assert Eligible(table, INVALID, 1);
    PendSvHolds(w, 0);
    SwitchKeepsClock(w.k, 0);
    es', w' := Onward(w0, es, w, PendSvEvent(0));
    RunsWhenActive(w');
  }

  lemma Undispatched(w: World)
    requires Inv(w) && Formed(w.k) && !w.k.active
    ensures w.k.current == INVALID && w.k.excluded == INVALID
  {
    hide TaskOk, StacksOk, HeapOk, CadenceOk, FirstOk;
  }

  lemma RunsWhenActive(w: World)
    requires Inv(w) && Formed(w.k) && w.k.active
    ensures w.k.running
  {
    hide TaskOk, StacksOk, HeapOk, CadenceOk, FirstOk;
  }

  // ---- The three kinds ----

  /** After an honest run a zero-size allocation is refused by the decoder, and
      so is a free of the null pointer. */
  lemma ZeroAllocationAndNullFreeOccur() returns (w0: World, es: seq<Event>, w: World)
    ensures Arrived(w0, es, w)
    ensures forall e :: e == AllocEvent(0) || e == FreeEvent(0) ==>
      Enabled(w.k, e) && Misleads(w.k, e) && Do(w.k, e).Go? && EndsRefused(Do(w.k, e).k.log)
  {
    hide Inv, Booted, Leads, Honest, Do, EndsRefused;
    w0, es, w := FirstTaskRuns();
    ArrivedIsWellTraced(w0, es, w);
    forall e | e == AllocEvent(0) || e == FreeEvent(0)
      ensures Enabled(w.k, e) && Misleads(w.k, e) && Do(w.k, e).Go? && EndsRefused(Do(w.k, e).k.log)
    {
      StepSafe(w, e);
      MisleadingStepIsRefused(w, e);
    }
  }

  /** The log of an honest run is well traced. */
  lemma ArrivedIsWellTraced(w0: World, es: seq<Event>, w: World)
    requires Arrived(w0, es, w)
    ensures LogOk(w.k.log)
  {
    hide Inv, LogOk, Boot;
    EmptyRun(w0);
    assert Reachable(w0);
    ReachableIsGood(w0);
    BootedLogIsEmpty(w0);
    HonestRunsAreWellTraced(w0, es, w);
  }

  /** The task with deadline 10 yields to the one with deadline 30. */
  lemma SecondTaskRuns() returns (w0: World, es: seq<Event>, w: World)
    ensures Arrived(w0, es, w) && InService(w.k) && w.k.current == 2 && w.k.now == 0
    ensures w.k.tasks[1].absoluteDeadline == 10 && w.k.tasks[2].absoluteDeadline == 30
    ensures w.k.tasks[1].state.Ready? && w.k.tasks[3] == Reset(3)
  {
    hide Inv, Booted, Leads, Honest, PendSv, Select, PspValid, Reset;
    w0, es, w := FirstTaskRuns();
    var psp := w.k.tcbs[1].savedPsp;
    SavedPspIsValid(w, 1);
    YieldIsAChoice(w, psp);
    var table := w.k.tasks[1 := w.k.tasks[1].(state := Ready)];
    ReadyIsRunnable(w, 2);
    SelectChoosesMinimum(table, 1);
    assert Eligible(table, 1, 2);
    var k1 := Yield(w.k).k;
    PspSame(w.k, k1, 1);
    es, w := Onward(w0, es, w, YieldEvent);
    PendSvHolds(w, psp);
    SwitchKeepsClock(w.k, psp);
    es, w := Onward(w0, es, w, PendSvEvent(psp));
    RunsWhenActive(w);
  }

  /** So the global deadline-first order does break: the task with deadline 30
      runs although the one with deadline 10 is ready. */
  lemma OrderBreaksAfterAYield() returns (w0: World, es: seq<Event>, w: World)
    ensures Arrived(w0, es, w) && w.k.active && !w.k.pending && !First(w.k.tasks, w.k.current, INVALID)
  {
    hide Inv, Booted, Leads, Honest;
    w0, es, w := SecondTaskRuns();
    assert !Before(w.k.tasks[2], w.k.tasks[1]);
  }

  lemma SavedPspIsValid(w: World, id: u8)
    requires Inv(w) && Formed(w.k) && 1 <= id < TASK_COUNT && !w.k.tasks[id].state.Dormant?
    ensures PspValid(w.k, id, w.k.tcbs[id].savedPsp)
  {
    hide TaskOk, HeapOk, CadenceOk, FirstOk, PhaseOk, PspValid;
    assert StackOk(w.k, id);
  }

  /** After an honest run a creation asks for a switch to a task that is not the
      best of the ready ones, and the decoder refuses its probe: the task with
      deadline 10 has yielded to the one with deadline 30, which creates one with
      deadline 20. */
  lemma ProbeBehindAYielderOccurs() returns (w0: World, es: seq<Event>, w: World, e: Event)
    ensures Arrived(w0, es, w) && e == CreateEvent(DueIn(20), 256)
    ensures Enabled(w.k, e) && Misleads(w.k, e) && Do(w.k, e).Go? && EndsRefused(Do(w.k, e).k.log)
  {
    hide Inv, Booted, Leads, Honest, Do, EndsRefused, Configure, Reset, FreeSlot, ConfigValid;
    w0, es, w := SecondTaskRuns();
    e := CreateEvent(DueIn(20), 256);
    ResetIsEmpty(3);
    FirstEmpty(w, 3);
    DueInIsAccepted(3, 20);
    ActiveStates(w);
    assert !Before(Newcomer(w.k, DueIn(20)), w.k.tasks[1]);
    ArrivedIsWellTraced(w0, es, w);
    StepSafe(w, e);
    MisleadingStepIsRefused(w, e);
  }
}
