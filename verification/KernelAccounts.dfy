/** Bookkeeping over whole runs, read off the trace: every job is released once,
    completed at most once, and given exactly one deadline outcome; every task
    created once exits at most once; every sleep ends in at most one wake-up. */
module KernelAccounts {
  import opened Words
  import opened Scheduler
  import opened TraceTypes
  import opened TraceRules
  import opened TraceSelection
  import opened KernelModel
  import opened KernelTasks
  import opened KernelInvariant
  import opened KernelSteps
  import opened KernelRuns
  import HeapModel

  /** How often each kind of event has been emitted for one slot. */
  datatype Tally = Tally(created: nat, released: nat, met: nat, missed: nat, exited: nat, waited: nat, slept: nat,
                         woken: nat)

  const NONE := Tally(0, 0, 0, 0, 0, 0, 0, 0)

  function Add(a: Tally, b: Tally): Tally {
    Tally(a.created + b.created, a.released + b.released, a.met + b.met, a.missed + b.missed,
          a.exited + b.exited, a.waited + b.waited, a.slept + b.slept, a.woken + b.woken)
  }

  function One(i: Input, id: u8): Tally {
    if i.task != id then NONE
    else if i.event == TASK_CREATE then NONE.(created := 1)
    else if i.event == TASK_RELEASE then NONE.(released := 1)
    else if i.event == DEADLINE_MET then NONE.(met := 1)
    else if i.event == DEADLINE_MISS then NONE.(missed := 1)
    else if i.event == TASK_EXIT then NONE.(exited := 1)
    else if i.event == TASK_WAIT_PERIOD then NONE.(waited := 1)
    else if i.event == TASK_SLEEP then NONE.(slept := 1)
    else if i.event == TASK_WAKE then NONE.(woken := 1)
    else NONE
  }

  function OfInputs(inputs: seq<Input>, id: u8): Tally {
    if inputs == [] then NONE else Add(One(inputs[0], id), OfInputs(inputs[1..], id))
  }

  function Count(log: seq<Batch>, id: u8): Tally {
    if log == [] then NONE else Add(OfInputs(log[0].inputs, id), Count(log[1..], id))
  }

  lemma AddLaws(a: Tally, b: Tally, c: Tally)
    ensures Add(a, Add(b, c)) == Add(Add(a, b), c) && Add(NONE, a) == a && Add(a, NONE) == a
  {
  }

  lemma {:induction false} InputsConcat(a: seq<Input>, b: seq<Input>, id: u8)
    ensures OfInputs(a + b, id) == Add(OfInputs(a, id), OfInputs(b, id))
  {
    hide One, Add;
    AddLaws(OfInputs(b, id), NONE, NONE);
    if a == [] {
      assert a + b == b;
    } else {
      InputsConcat(a[1..], b, id);
      assert (a + b)[0] == a[0] && (a + b)[1..] == a[1..] + b;
      AddLaws(One(a[0], id), OfInputs(a[1..], id), OfInputs(b, id));
    }
  }

  lemma {:induction false} CountConcat(a: seq<Batch>, b: seq<Batch>, id: u8)
    ensures Count(a + b, id) == Add(Count(a, id), Count(b, id))
  {
    hide OfInputs, Add;
    AddLaws(Count(b, id), NONE, NONE);
    if a == [] {
      assert a + b == b;
    } else {
      CountConcat(a[1..], b, id);
      assert (a + b)[0] == a[0] && (a + b)[1..] == a[1..] + b;
      AddLaws(OfInputs(a[0].inputs, id), Count(a[1..], id), Count(b, id));
    }
  }

  lemma OneInput(i: Input, id: u8)
    ensures OfInputs([i], id) == One(i, id)
  {
    hide One;
    assert [i][1..] == [];
    AddLaws(One(i, id), NONE, NONE);
  }

  lemma OneBatch(log: seq<Batch>, b: Batch, id: u8)
    ensures Count(log + [b], id) == Add(Count(log, id), OfInputs(b.inputs, id))
  {
    hide OfInputs, Add;
    CountConcat(log, [b], id);
    assert [b][1..] == [];
    AddLaws(OfInputs(b.inputs, id), NONE, NONE);
  }

  lemma EmitCounts(k: Kernel, i: Input, id: u8)
    ensures Count(Emit(k, i).log, id) == Add(Count(k.log, id), One(i, id))
  {
    hide One, Add;
    OneBatch(k.log, Batch(k.now, [i]), id);
    OneInput(i, id);
  }

  lemma {:induction false} SinglesCount(tick: u64, inputs: seq<Input>, id: u8)
    ensures Count(Singles(tick, inputs), id) == OfInputs(inputs, id)
  {
    hide One, Add;
    if inputs != [] {
      var s := Singles(tick, inputs);
      assert s[1..] == Singles(tick, inputs[1..]);
      SinglesCount(tick, inputs[1..], id);
      OneInput(inputs[0], id);
    }
  }

  /** Events that no tally counts. */
  predicate Uncounted(inputs: seq<Input>) {
    forall i :: 0 <= i < |inputs| ==>
      inputs[i].event !in {TASK_CREATE, TASK_RELEASE, DEADLINE_MET, DEADLINE_MISS, TASK_EXIT, TASK_WAIT_PERIOD,
          TASK_SLEEP, TASK_WAKE}
  }

  lemma {:induction false} UncountedIsNone(inputs: seq<Input>, id: u8)
    requires Uncounted(inputs)
    ensures OfInputs(inputs, id) == NONE
  {
    hide One;
    if inputs != [] {
      UncountedOne(inputs[0], id);
      UncountedIsNone(inputs[1..], id);
      AddLaws(NONE, NONE, NONE);
    }
  }

  lemma UncountedOne(i: Input, id: u8)
    requires Uncounted([i])
    ensures One(i, id) == NONE
  {
    assert [i][0] == i;
  }

  lemma {:induction false} CandidatesUncounted(c: Choice, k: nat)
    requires Shaped(c) && 1 <= k <= TASK_COUNT
    ensures Uncounted(CandidatesFrom(c, k))
    decreases TASK_COUNT - k
  {
    if k < TASK_COUNT {
      CandidatesUncounted(c, k + 1);
    }
  }

  lemma SelectionCounts(k: Kernel, c: Choice, id: u8)
    requires Shaped(c)
    ensures Count(EmitSelection(k, c).log, id) == Count(k.log, id)
  {
    hide CandidatesFrom, Add, OfInputs;
    CandidatesUncounted(c, 1);
    UncountedIsNone(SelectionBatch(c), id);
    OneBatch(k.log, Batch(k.now, SelectionBatch(c)), id);
    AddLaws(Count(k.log, id), NONE, NONE);
  }

  // ---- The balance ----

  /** The tally agrees with the slot: an active job is released but not done, a
      latched miss is an outcome ahead of its completion, an occupant that has
      not exited is created but not exited, a sleeper slept but not woken. */
  predicate Balanced(a: Tally, t: Task) {
    && a.released == a.exited + a.waited + Bit(t.jobActive)
    && a.met + a.missed == a.exited + a.waited + Bit(t.jobActive && t.missLatched)
    && a.created == a.exited + Bit(!t.state.Dormant? && !t.state.Exiting?)
    && a.slept == a.woken + Bit(t.state.Sleeping?)
  }

  ghost predicate Accounts(k: Kernel)
    requires Formed(k)
  {
    forall id: u8 :: 1 <= id < TASK_COUNT ==> Balanced(Count(k.log, id), k.tasks[id])
  }

  // ---- SysTick ----

  lemma PartCounts(inputs: seq<Input>, id: u8)
    requires |inputs| <= 1
    ensures OfInputs(inputs, id) == if inputs == [] then NONE else One(inputs[0], id)
  {
    hide One, Add;
    if inputs != [] {
      assert inputs == [inputs[0]];
      OneInput(inputs[0], id);
    }
  }

  lemma MissBalance(t: Task, now: u64, a: Tally)
    requires Balanced(a, t)
    ensures Balanced(Add(a, OfInputs(MissPart(t, now).inputs, t.id)), MissPart(t, now).task)
  {
    hide OfInputs, Low32, High32;
    PartCounts(MissPart(t, now).inputs, t.id);
  }

  lemma SkipBalance(t: Task, now: u64, a: Tally)
    requires Balanced(a, t)
    ensures Balanced(Add(a, OfInputs(SkipPart(t, now).inputs, t.id)), SkipPart(t, now).task)
  {
    hide OfInputs, Low32, High32;
    PartCounts(SkipPart(t, now).inputs, t.id);
  }

  lemma ReleaseBalance(t: Task, now: u64, a: Tally)
    requires Balanced(a, t) && !ReleasePart(t, now).exhausted
    ensures Balanced(Add(a, OfInputs(ReleasePart(t, now).inputs, t.id)), ReleasePart(t, now).task)
  {
    hide OfInputs, Low32, High32;
    PartCounts(ReleasePart(t, now).inputs, t.id);
  }

  lemma WakeBalance(t: Task, now: u64, a: Tally)
    requires Balanced(a, t)
    ensures Balanced(Add(a, OfInputs(WakePart(t, now).inputs, t.id)), WakePart(t, now).task)
  {
    hide OfInputs, Low32, High32;
    PartCounts(WakePart(t, now).inputs, t.id);
  }

  lemma PartsKeepId(t: Task, now: u64)
    ensures AccountRunningTick(t).id == t.id && MissPart(t, now).task.id == t.id && SkipPart(t, now).task.id == t.id
    ensures ReleasePart(t, now).task.id == t.id
  {
  }

  lemma RunningTimeBalance(t: Task, a: Tally)
    requires Balanced(a, t)
    ensures Balanced(a, AccountRunningTick(t))
  {
  }

  /** One part of a tick after another. */
  lemma ThenCounts(x: TickOut, y: TickOut, a: Tally, id: u8)
    ensures Add(Add(a, OfInputs(x.inputs, id)), OfInputs(y.inputs, id)) == Add(a, OfInputs(Then(x, y).inputs, id))
  {
    hide OfInputs, Add;
    InputsConcat(x.inputs, y.inputs, id);
    AddLaws(a, OfInputs(x.inputs, id), OfInputs(y.inputs, id));
  }

  lemma TickTaskBalance(t: Task, now: u64, a: Tally)
    requires Balanced(a, t) && !TickTask(t, now).exhausted
    ensures Balanced(Add(a, OfInputs(TickTask(t, now).inputs, t.id)), TickTask(t, now).task)
  {
    hide MissPart, SkipPart, ReleasePart, WakePart, AccountRunningTick, Balanced, OfInputs, Add;
    var t1 := AccountRunningTick(t);
    var m := MissPart(t1, now);
    var s := SkipPart(m.task, now);
    var r := ReleasePart(s.task, now);
    var w := WakePart(r.task, now);
    PartsKeepId(t, now);
    PartsKeepId(t1, now);
    PartsKeepId(m.task, now);
    PartsKeepId(s.task, now);
    RunningTimeBalance(t, a);
    MissBalance(t1, now, a);
    var a1 := Add(a, OfInputs(m.inputs, t.id));
    SkipBalance(m.task, now, a1);
    ThenCounts(m, s, a, t.id);
    var a2 := Add(a1, OfInputs(s.inputs, t.id));
    ReleaseBalance(s.task, now, a2);
    var a3 := Add(a2, OfInputs(r.inputs, t.id));
    WakeBalance(r.task, now, a3);
    ThenCounts(r, w, a2, t.id);
    ThenCounts(Then(m, s), Then(r, w), a, t.id);
  }

  /** The events one slot's turn emits are all about that slot. */
  lemma TickTaskForeign(t: Task, now: u64, id: u8)
    requires t.id != id
    ensures OfInputs(TickTask(t, now).inputs, id) == NONE
  {
    hide OfInputs, Low32, High32, Add, AccountRunningTick;
    var t1 := AccountRunningTick(t);
    var m := MissPart(t1, now);
    var s := SkipPart(m.task, now);
    var r := ReleasePart(s.task, now);
    var w := WakePart(r.task, now);
    PartsKeepId(t, now);
    ForeignParts(t1, now, id);
    ForeignParts(m.task, now, id);
    ForeignParts(s.task, now, id);
    ForeignParts(r.task, now, id);
    AddLaws(NONE, NONE, NONE);
    ThenCounts(m, s, NONE, id);
    ThenCounts(r, w, NONE, id);
    ThenCounts(Then(m, s), Then(r, w), NONE, id);
    ThenCounts(Then(m, s), r, NONE, id);
    AddLaws(OfInputs(m.inputs + s.inputs, id), NONE, NONE);
    AddLaws(OfInputs(r.inputs + w.inputs, id), NONE, NONE);
    AddLaws(OfInputs(TickTask(t, now).inputs, id), NONE, NONE);
  }

  lemma ForeignParts(t: Task, now: u64, id: u8)
    requires t.id != id
    ensures OfInputs(MissPart(t, now).inputs, id) == NONE && OfInputs(SkipPart(t, now).inputs, id) == NONE
    ensures OfInputs(ReleasePart(t, now).inputs, id) == NONE && OfInputs(WakePart(t, now).inputs, id) == NONE
    ensures MissPart(t, now).task.id == t.id && SkipPart(t, now).task.id == t.id && ReleasePart(t, now).task.id == t.id
  {
    hide OfInputs, Low32, High32;
    PartCounts(MissPart(t, now).inputs, id);
    PartCounts(SkipPart(t, now).inputs, id);
    PartCounts(ReleasePart(t, now).inputs, id);
    PartCounts(WakePart(t, now).inputs, id);
  }

  lemma {:induction false} TickInputsCount(tasks: seq<Task>, n: nat, now: u64, id: u8)
    requires |tasks| == TASK_COUNT && (forall i :: 0 <= i < TASK_COUNT ==> tasks[i].id == i) && n <= TASK_COUNT
             && 1 <= id < TASK_COUNT
    ensures OfInputs(TickInputs(tasks, n, now), id) == if id < n then OfInputs(TickTask(tasks[id], now).inputs, id)
            else NONE
  {
    hide OfInputs, Add, TickTask;
    if n > 1 {
      TickInputsCount(tasks, n - 1, now, id);
      InputsConcat(TickInputs(tasks, n - 1, now), TickTask(tasks[n - 1], now).inputs, id);
      if n - 1 != id {
        TickTaskForeign(tasks[n - 1], now, id);
      }
      AddLaws(OfInputs(TickTask(tasks[id], now).inputs, id), NONE, NONE);
      AddLaws(NONE, NONE, NONE);
    } else {
      PartCounts([], id);
    }
  }

  lemma TickedAccounts(k: Kernel)
    requires Formed(k) && Accounts(k) && k.now < U64_MAX && !SomeExhausted(k.tasks, k.now + 1)
    ensures Accounts(Ticked(k))
  {
    hide TickTask, Balanced, Count, Add, OfInputs;
    var inputs := TickInputs(k.tasks, TASK_COUNT, k.now + 1);
    forall id: u8 | 1 <= id < TASK_COUNT ensures Balanced(Count(Ticked(k).log, id), Ticked(k).tasks[id]) {
      assert Balanced(Count(k.log, id), k.tasks[id]);
      TickTaskBalance(k.tasks[id], k.now + 1, Count(k.log, id));
      CountConcat(k.log, Singles(k.now + 1, inputs), id);
      SinglesCount(k.now + 1, inputs, id);
      TickInputsCount(k.tasks, TASK_COUNT, k.now + 1, id);
    }
  }

  lemma TickAccounts(w: World)
    requires Formed(w.k) && Accounts(w.k) && Tick(w.k).Go?
    ensures Formed(Tick(w.k).k) && Accounts(Tick(w.k).k)
  {
    hide TickTask, Accounts, Probed, SomeReady, SomeExhausted, TickTable, TickInputs, Singles;
    if w.k.running {
      TickedAccounts(w.k);
      var k1 := Ticked(w.k);
      if SomeReady(w.k.tasks, w.k.now + 1) && w.k.current < TASK_COUNT && k1.tasks[w.k.current].state.Running? {
        ProbedAccounts(k1);
      }
    }
  }

  lemma ProbedAccounts(k: Kernel)
    requires Formed(k) && Accounts(k) && k.current < TASK_COUNT && k.tasks[k.current].state.Running? && Probed(k).Go?
    ensures Formed(Probed(k).k) && Accounts(Probed(k).k)
  {
    hide Select, Outranks, SelectionBatch, Count;
    var candidate := Select(k.tasks, INVALID);
    if candidate != INVALID && candidate != IDLE && Outranks(k.tasks[candidate], k.tasks[k.current]) {
      var c := Choice(k.tasks, candidate, k.current, INVALID, SYSTICK_PROBE);
      forall id: u8 | 1 <= id < TASK_COUNT ensures Balanced(Count(Probed(k).k.log, id), Probed(k).k.tasks[id]) {
        SelectionCounts(k, c, id);
        assert Balanced(Count(k.log, id), k.tasks[id]);
      }
    }
  }

  /** One slot's entry and tally change together; the others stay. */
  lemma OneSlotAccounts(k: Kernel, k': Kernel, slot: u8)
    requires Formed(k) && Formed(k') && Accounts(k) && slot < TASK_COUNT
    requires forall i :: 0 <= i < TASK_COUNT && i != slot ==> k'.tasks[i] == k.tasks[i]
    requires forall id: u8 :: 1 <= id < TASK_COUNT && id != slot ==> Count(k'.log, id) == Count(k.log, id)
    requires slot != IDLE ==> Balanced(Count(k'.log, slot), k'.tasks[slot])
    ensures Accounts(k')
  {
    hide Balanced, Count;
  }

  lemma YieldAccounts(w: World)
    requires Inv(w) && Formed(w.k) && Accounts(w.k) && InService(w.k)
    ensures Yield(w.k).Go? ==> Accounts(Yield(w.k).k)
  {
    hide Inv, Count, One, Add, Balanced;
    var i := Input(TASK_YIELD, 0, TaskWord(w.k.current), NO_TASK, 0, 0, 0);
    forall id: u8 | 1 <= id < TASK_COUNT ensures Count(Yield(w.k).k.log, id) == Count(w.k.log, id) {
      EmitCounts(w.k, i, id);
      UncountedOne(i, id);
      AddLaws(Count(w.k.log, id), NONE, NONE);
    }
    PausedBalance(Count(w.k.log, w.k.current), w.k.tasks[w.k.current]);
    OneSlotAccounts(w.k, Yield(w.k).k, w.k.current);
  }

  lemma PausedBalance(a: Tally, t: Task)
    requires t.state.Running?
    ensures Balanced(a, t) <==> Balanced(a, t.(state := Ready))
  {
  }

  lemma SleepAccounts(w: World, ticks: u32)
    requires Inv(w) && Formed(w.k) && Accounts(w.k) && InService(w.k) && Sleep(w.k, ticks).Go?
    ensures Formed(Sleep(w.k, ticks).k) && Accounts(Sleep(w.k, ticks).k)
  {
    hide Inv, Count, Low32, High32;
    if 0 < ticks <= I32_MAX {
      var t := SleepJob(w.k.tasks[w.k.current], w.k.now, ticks).0;
      var i := Input(TASK_SLEEP, 0, TaskWord(w.k.current), NO_TASK, Low32(t.wakeOrder), High32(t.wakeOrder), ticks);
      forall id: u8 | 1 <= id < TASK_COUNT
        ensures Count(Sleep(w.k, ticks).k.log, id) == Add(Count(w.k.log, id), One(i, id))
      {
        EmitCounts(w.k, i, id);
        AddLaws(Count(w.k.log, id), NONE, NONE);
      }
      assert Balanced(Count(w.k.log, w.k.current), w.k.tasks[w.k.current]);
      OneSlotAccounts(w.k, Sleep(w.k, ticks).k, w.k.current);
    }
  }

  /** What a completion adds to the tally of its slot: the outcome, unless the
      miss was already recorded, and the completion itself. */
  lemma CompletionCounts(k: Kernel, before: Task, after: Task, done: Input, id: u8)
    requires after.id == before.id && before.missLatched == after.missLatched
    requires done.task == after.id && (done.event == TASK_EXIT || done.event == TASK_WAIT_PERIOD)
    ensures var a, b := Count(k.log, id), Count(Emit(EmitOutcome(k, before, after), done).log, id);
      if id != after.id then b == a
      else b == if done.event == TASK_EXIT then a.(exited := a.exited + 1, met := a.met + Bit(!after.missLatched))
                else a.(waited := a.waited + 1, met := a.met + Bit(!after.missLatched))
  {
    hide Count, Low32, High32;
    var k1 := EmitOutcome(k, before, after);
    EmitCounts(k, DeadlineInput(DEADLINE_MET, after), id);
    EmitCounts(k1, done, id);
  }

  lemma ExitAccounts(w: World)
    requires Inv(w) && Formed(w.k) && Accounts(w.k) && InService(w.k) && Exit(w.k).Go?
    ensures Formed(Exit(w.k).k) && Accounts(Exit(w.k).k)
  {
    hide TaskOk, StacksOk, HeapOk, CadenceOk, FirstOk, PhaseOk, Count, CompleteJob, EmitOutcome;
    var before := w.k.tasks[w.k.current];
    CompletionHolds(before, w.k.now);
    CompletionShape(before, w.k.now);
    var t := CompleteJob(before, w.k.now).0;
    var k1 := WithTask(w.k, w.k.current, t.(state := Exiting));
    var done := Input(TASK_EXIT, 0, TaskWord(w.k.current), NO_TASK, t.completedJobs, t.deadlineMisses, 0);
    forall id: u8 | 1 <= id < TASK_COUNT && id != w.k.current ensures Count(Exit(w.k).k.log, id) == Count(w.k.log, id) {
      CompletionCounts(k1, before, t, done, id);
    }
    CompletionCounts(k1, before, t, done, w.k.current);
    OutcomeKeepsRest(k1, before, t);
    assert Balanced(Count(w.k.log, w.k.current), before);
    OneSlotAccounts(w.k, Exit(w.k).k, w.k.current);
  }

  lemma WaitAccounts(w: World)
    requires Inv(w) && Formed(w.k) && Accounts(w.k) && InService(w.k) && WaitPeriod(w.k).Go?
    ensures Formed(WaitPeriod(w.k).k) && Accounts(WaitPeriod(w.k).k)
  {
    hide TaskOk, StacksOk, HeapOk, CadenceOk, FirstOk, PhaseOk, Count, CompleteJob, EmitOutcome, Low32, High32;
    var before := w.k.tasks[w.k.current];
    if before.kind.Periodic? {
      CompletionHolds(before, w.k.now);
      CompletionShape(before, w.k.now);
      var t := WaitNextPeriod(before, w.k.now).0;
      var k1 := WithTask(w.k, w.k.current, t);
      var done := Input(TASK_WAIT_PERIOD, 0, TaskWord(w.k.current), NO_TASK, Low32(t.nextReleaseOrder),
                        High32(t.nextReleaseOrder), 0);
      forall id: u8 | 1 <= id < TASK_COUNT && id != w.k.current ensures Count(WaitPeriod(w.k).k.log, id)
          == Count(w.k.log, id) {
        CompletionCounts(k1, before, t, done, id);
      }
      CompletionCounts(k1, before, t, done, w.k.current);
      OutcomeKeepsRest(k1, before, t);
      assert Balanced(Count(w.k.log, w.k.current), before);
      OneSlotAccounts(w.k, WaitPeriod(w.k).k, w.k.current);
    }
  }

  lemma OutcomeKeepsRest(k: Kernel, before: Task, after: Task)
    ensures EmitOutcome(k, before, after) == k.(log := EmitOutcome(k, before, after).log)
  {
  }

  lemma CompletionShape(t: Task, now: u64)
    requires TaskOk(t, now) && t.state.Running?
    ensures var d := CompleteJob(t, now).0; d.id == t.id && !d.jobActive && t.jobActive && d.state.Running?
  {
  }

  // ---- Creation ----

  /** What announcing a creation adds to each tally. */
  lemma AnnouncedCounts(k: Kernel, id: u8, j: u8)
    requires Formed(k) && 1 <= id < TASK_COUNT
    ensures var a, b, t := Count(k.log, j), Count(Announced(k, id).log, j), k.tasks[id];
      b == if j != id then a else a.(created := a.created + 1, released := a.released + Bit(t.state.Ready?))
  {
    hide Count, Low32, High32, TaskWord, KindNumber, StateNumber;
    var t := k.tasks[id];
    var creator := if k.running then k.current else INVALID;
    var created := Input(TASK_CREATE, 0, id, TaskWord(creator), KindNumber(t.kind), t.priority, StateNumber(t.state));
    EmitCounts(k, created, j);
    EmitCounts(Emit(k, created), DeadlineInput(TASK_RELEASE, t), j);
  }

  lemma NewcomerBalance(id: u8, a: Tally, t: Task)
    requires Balanced(a, Reset(id)) && !t.missLatched
    requires (t.state.Ready? || t.state.WaitingRelease?) && t.jobActive == t.state.Ready?
    ensures Balanced(a.(created := a.created + 1, released := a.released + Bit(t.state.Ready?)), t)
  {
  }

  lemma AnnouncedAccounts(k: Kernel, k0: Kernel, id: u8)
    requires Formed(k) && Formed(k0) && Accounts(k) && 1 <= id < TASK_COUNT
    requires k.tasks[id] == Reset(id) && k0.log == k.log
    requires forall i :: 0 <= i < TASK_COUNT && i != id ==> k0.tasks[i] == k.tasks[i]
    requires var t := k0.tasks[id];
      (t.state.Ready? || t.state.WaitingRelease?) && t.jobActive == t.state.Ready? && !t.missLatched
    ensures Accounts(Announced(k0, id))
  {
    hide Count, Balanced, Announced, Reset;
    forall j: u8 | 1 <= j < TASK_COUNT && j != id ensures Count(Announced(k0, id).log, j) == Count(k.log, j) {
      AnnouncedCounts(k0, id, j);
    }
    AnnouncedCounts(k0, id, id);
    assert Balanced(Count(k.log, id), k.tasks[id]);
    NewcomerBalance(id, Count(k.log, id), k0.tasks[id]);
    OneSlotAccounts(k, Announced(k0, id), id);
  }

  lemma ChallengedAccounts(k: Kernel, id: u8)
    requires Formed(k) && Accounts(k) && id < TASK_COUNT && (k.running ==> k.current < TASK_COUNT)
             && Challenged(k, id).Go?
    ensures Formed(Challenged(k, id).k) && Accounts(Challenged(k, id).k)
  {
    hide Outranks, SelectionBatch, Count, Balanced;
    var c := Choice(k.tasks, id, k.current, INVALID, CREATE_PROBE);
    forall j: u8 | 1 <= j < TASK_COUNT ensures Count(Challenged(k, id).k.log, j) == Count(k.log, j) {
      SelectionCounts(k, c, j);
    }
  }

  lemma CreateAccounts(w: World, c: TimingConfig, size: nat)
    requires Inv(w) && Formed(w.k) && Accounts(w.k) && Create(w.k, c, size).Go?
    ensures Formed(Create(w.k, c, size).k) && Accounts(Create(w.k, c, size).k)
  {
    hide TaskOk, StackOk, HeapOk, CadenceOk, FirstOk, PhaseOk, Accounts, Configure, Reset, Announced, Challenged,
         StateVerified, ConfigValid,
         LayoutValid, Installed;
    if !CreationRefused(w.k, c, size) && FreeSlot(w.k, 1) != INVALID {
      var id := FreeSlot(w.k, 1);
      DormantIsReset(w.k.tasks[id], w.k.now);
      if Configure(w.k.tasks[id], c, w.k.now).1 {
        CreateInAccounts(w.k, id, c, size);
      } else {
        EmptySlot(w, id);
      }
    }
  }

  lemma CreateInAccounts(k: Kernel, id: u8, c: TimingConfig, size: nat)
    requires Formed(k) && Accounts(k) && 1 <= id < TASK_COUNT && size >= FRAME_BYTES && k.tasks[id] == Reset(id)
    requires (k.running ==> k.current < TASK_COUNT) && Configure(k.tasks[id], c, k.now).1
             && CreateIn(k, id, c, size).Go?
    ensures Formed(CreateIn(k, id, c, size).k) && Accounts(CreateIn(k, id, c, size).k)
  {
    hide Accounts, Configure, Reset, Announced, Challenged, StateVerified, LayoutValid;
    var t := Configure(k.tasks[id], c, k.now).0;
    ConfiguredEntry(id, c, k.now);
    var k0 := Installed(k, id, t, size);
    AnnouncedAccounts(k, k0, id);
    ChallengedAccounts(Announced(k0, id), id);
  }

  lemma ConfiguredEntry(id: u8, c: TimingConfig, now: u64)
    requires Configure(Reset(id), c, now).1
    ensures var t := Configure(Reset(id), c, now).0;
      t.id == id && (t.state.Ready? || t.state.WaitingRelease?) && t.jobActive == t.state.Ready? && !t.missLatched
  {
  }

  // ---- PendSV ----

  /** Extra events that no tally counts. */
  lemma UncountedBatches(log: seq<Batch>, tick: u64, inputs: seq<Input>, id: u8)
    requires Uncounted(inputs)
    ensures Count(log + Singles(tick, inputs), id) == Count(log, id)
  {
    hide Count, Add, OfInputs;
    CountConcat(log, Singles(tick, inputs), id);
    SinglesCount(tick, inputs, id);
    UncountedIsNone(inputs, id);
    AddLaws(Count(log, id), NONE, NONE);
  }

  lemma SweptCounts(k: Kernel, id: u8, j: u8)
    ensures Count(HeapSwept(k, id).log, j) == Count(k.log, j)
  {
    hide Count, Add, One, HeapModel.ReleaseOwner;
    var (h, n) := HeapModel.ReleaseOwner(k.heap, id);
    var i := Input(OWNER_RELEASE, 0, id, NO_TASK, if n <= U32_MAX then n else U32_MAX, id, 1);
    EmitCounts(k.(heap := h), i, j);
    UncountedOne(i, j);
    AddLaws(Count(k.log, j), NONE, NONE);
  }

  lemma RetiredAccounts(k: Kernel)
    requires Formed(k) && Accounts(k) && Retired(k).Go?
    requires k.current < TASK_COUNT && k.tasks[k.current].state.Exiting? ==> !k.tasks[k.current].jobActive
    ensures Formed(Retired(k).k) && Accounts(Retired(k).k)
  {
    hide Count, HeapSwept;
    if k.current < TASK_COUNT {
      var t := k.tasks[k.current];
      forall j: u8 | 1 <= j < TASK_COUNT ensures Count(Retired(k).k.log, j) == Count(k.log, j) {
        SweptCounts(k, k.current, j);
      }
      if k.current != IDLE { assert Balanced(Count(k.log, k.current), t); }
      OneSlotAccounts(k, Retired(k).k, k.current);
    }
  }

  lemma SwitchUncounted(sources: u8, cause: u8, next: u8, outgoing: u8, outgoingState: State)
    ensures Uncounted(SwitchInputs(sources, cause, next, outgoing, outgoingState))
  {
    hide TaskWord, StateNumber;
  }

  lemma BegunCounts(k: Kernel, next: u8, t: Task, id: u8)
    requires next < |k.tcbs|
    ensures Count(Begun(k, next, t).log, id) == Count(k.log, id) && Begun(k, next, t).tasks == k.tasks
    ensures |Begun(k, next, t).tcbs| == |k.tcbs|
  {
    hide Count, Add, One, Low32, High32;
    var i := DeadlineInput(TASK_START, t);
    EmitCounts(k, i, id);
    UncountedOne(i, id);
    AddLaws(Count(k.log, id), NONE, NONE);
  }

  lemma DispatchedAccounts(k: Kernel, next: u8, outgoing: u8, outgoingState: State)
    requires Formed(k) && Accounts(k) && next < TASK_COUNT && Dispatched(k, next, outgoing, outgoingState).Go?
    ensures Formed(Dispatched(k, next, outgoing, outgoingState).k)
            && Accounts(Dispatched(k, next, outgoing, outgoingState).k)
  {
    hide Count, SelectionBatch, Singles, SwitchInputs, Begun, StateVerified, PspValid;
    var c := Choice(k.tasks, next, outgoing, k.excluded, DISPATCH);
    var k1 := EmitSelection(k, c);
    var k2 := WithTask(k1, next, k.tasks[next].(state := Running)).(current := next, active := true,
                                                                    excluded := INVALID);
    var inputs := SwitchInputs(k2.sources, k2.cause, next, outgoing, outgoingState);
    var k3 := k2.(log := k2.log + Singles(k2.now, inputs), cause := 0, sources := 0, pending := false);
    SwitchUncounted(k2.sources, k2.cause, next, outgoing, outgoingState);
    forall j: u8 | 1 <= j < TASK_COUNT
      ensures Count(Dispatched(k, next, outgoing, outgoingState).k.log, j) == Count(k.log, j)
    {
      SelectionCounts(k, c, j);
      UncountedBatches(k2.log, k2.now, inputs, j);
      BegunCounts(k3, next, k2.tasks[next], j);
    }
    BegunCounts(k3, next, k2.tasks[next], 1);
    if next != IDLE { assert Balanced(Count(k.log, next), k.tasks[next]); }
    OneSlotAccounts(k, Dispatched(k, next, outgoing, outgoingState).k, next);
  }

  lemma PendSvAccounts(w: World, psp: nat)
    requires Inv(w) && Formed(w.k) && Accounts(w.k) && PendSv(w.k, psp).Go?
    ensures Formed(PendSv(w.k, psp).k) && Accounts(PendSv(w.k, psp).k)
  {
    hide TaskOk, StacksOk, HeapOk, CadenceOk, FirstOk, PhaseOk, Balanced, Count, Retired, Dispatched, PspValid;
    var k1 := Saved(w.k, psp).k;
    var outgoing := w.k.current;
    assert Accounts(k1);
    ExitingIsDone(w);
    RetiredAccounts(k1);
    var k2 := Retired(k1).k;
    DispatchedAccounts(k2, Chosen(k2), outgoing, if outgoing < TASK_COUNT then w.k.tasks[outgoing].state else Dormant);
  }

  lemma ExitingIsDone(w: World)
    requires Inv(w) && Formed(w.k)
    ensures forall i :: 0 <= i < TASK_COUNT && w.k.tasks[i].state.Exiting? ==> !w.k.tasks[i].jobActive
  {
    forall i | 1 <= i < TASK_COUNT ensures w.k.tasks[i].state.Exiting? ==> !w.k.tasks[i].jobActive {
      assert TaskOk(w.k.tasks[i], w.k.now);
    }
  }

  // ---- Whole runs ----

  lemma PlainAccounts(k: Kernel, i: Input)
    requires Formed(k) && Accounts(k) && Uncounted([i])
    ensures forall k' :: Formed(k') && k'.tasks == k.tasks && k'.log == Emit(k, i).log ==> Accounts(k')
  {
    hide Count, One, Add, Balanced;
    forall id: u8 | 1 <= id < TASK_COUNT ensures Count(Emit(k, i).log, id) == Count(k.log, id) {
      EmitCounts(k, i, id);
      UncountedOne(i, id);
      AddLaws(Count(k.log, id), NONE, NONE);
    }
  }

  lemma SmallSteps(w: World)
    requires Formed(w.k) && HeapModel.HasCursor(w.k.heap) && Accounts(w.k)
    ensures Start(w.k).Go? ==> Accounts(Start(w.k).k)
    ensures StartSvc(w.k).Go? ==> Accounts(StartSvc(w.k).k)
    ensures forall size :: MemoryAlloc(w.k, size).Go? ==> Accounts(MemoryAlloc(w.k, size).k)
    ensures forall pointer :: MemoryFree(w.k, pointer).Go? ==> Accounts(MemoryFree(w.k, pointer).k)
  {
    hide Count, Balanced, HeapModel.Alloc, HeapModel.FreeBlock, Uncounted, PointerOffset;
    var start := Input(KERNEL_START, 0, NO_TASK, NO_TASK, 0, TASK_COUNT, 0);
    UncountedEvent(start);
    PlainAccounts(w.k, start);
    forall size: u32 ensures MemoryAlloc(w.k, size).Go? ==> Accounts(MemoryAlloc(w.k, size).k) {
      if MayUseHeap(w.k) {
        var p := HeapModel.Alloc(w.k.heap, size, w.k.current).1;
        var i := Input(ALLOC, 0, TaskWord(w.k.current), NO_TASK, size, PointerOffset(w.k.heapStart, w.k.heapStop, p),
                       if p != 0 then 1 else 0);
        UncountedEvent(i);
        PlainAccounts(w.k, i);
      }
    }
    forall pointer: u32 ensures MemoryFree(w.k, pointer).Go? ==> Accounts(MemoryFree(w.k, pointer).k) {
      if MayUseHeap(w.k) {
        var ok := HeapModel.FreeBlock(w.k.heap, pointer, w.k.current).1;
        var i := Input(FREE, 0, TaskWord(w.k.current), NO_TASK, PointerOffset(w.k.heapStart, w.k.heapStop, pointer), 1,
                       if ok then 1 else 0);
        UncountedEvent(i);
        PlainAccounts(w.k, i);
      }
    }
  }

  lemma UncountedEvent(i: Input)
    requires i.event in {KERNEL_START, ALLOC, FREE}
    ensures Uncounted([i])
  {
  }

  lemma StepAccounts(w: World, e: Event)
    requires Inv(w) && Formed(w.k) && HeapModel.HasCursor(w.k.heap) && Accounts(w.k) && Enabled(w.k, e)
             && Do(w.k, e).Go?
    ensures Formed(Do(w.k, e).k) && Accounts(Do(w.k, e).k)
  {
    hide Inv, Accounts, Create, Start, StartSvc, Yield, Sleep, WaitPeriod, Exit, MemoryAlloc, MemoryFree, Tick, PendSv;
    StepSafe(w, e);
    InvIsFormed(Next(w, e, Do(w.k, e).k, Do(w.k, e).result));
    NextKernel(w, e, Do(w.k, e).k, Do(w.k, e).result);
    match e
    case CreateEvent(config, size) => CreateAccounts(w, config, size);
    case YieldEvent => YieldAccounts(w);
    case SleepEvent(ticks) => SleepAccounts(w, ticks);
    case WaitPeriodEvent => WaitAccounts(w);
    case ExitEvent => ExitAccounts(w);
    case TickEvent => TickAccounts(w);
    case PendSvEvent(psp) => PendSvAccounts(w, psp);
    case _ => SmallSteps(w);
  }

  lemma {:induction false} RunsBalance(w: World, es: seq<Event>, v: World)
    requires Inv(w) && Formed(w.k) && Accounts(w.k) && Leads(w, es, v)
    ensures Formed(v.k) && Accounts(v.k)
    decreases |es|
  {
    hide Inv, Accounts, Do, Enabled;
    if es != [] {
      StepSafe(w, es[0]);
      StepAccounts(w, es[0]);
      var o := Do(w.k, es[0]);
      NextKernel(w, es[0], o.k, o.result);
      RunsBalance(Next(w, es[0], o.k, o.result), es[1..], v);
    }
  }

  lemma BootAccounts(w: World)
    requires Booted(w)
    ensures Formed(w.k) && Accounts(w.k)
  {
    hide HeapModel.Init, LayoutValid, StateVerified;
  }

  /** In every reachable state, for every slot: each release has been completed
      or is the active job's; each completed job has had exactly one deadline
      outcome, and only an active job's latched miss comes before its
      completion; each created task has exited or still occupies the slot; and
      each sleep has ended or is going on. */
  lemma TraceAccountsBalance(w: World, id: u8)
    requires Reachable(w) && 1 <= id < TASK_COUNT && id < |w.k.tasks|
    ensures var a, t := Count(w.k.log, id), w.k.tasks[id];
      && a.released == a.exited + a.waited + (if t.jobActive then 1 else 0)
      && a.met + a.missed == a.exited + a.waited + (if t.jobActive && t.missLatched then 1 else 0)
      && a.created == a.exited + (if t.state.Dormant? || t.state.Exiting? then 0 else 1)
      && a.slept == a.woken + (if t.state.Sleeping? then 1 else 0)
  {
    hide Inv, Boot;
    var w0: World, es :| Booted(w0) && Leads(w0, es, w);
    EmptyRun(w0);
    assert Reachable(w0);
    ReachableIsGood(w0);
    BootAccounts(w0);
    RunsBalance(w0, es, w);
    assert Balanced(Count(w.k.log, id), w.k.tasks[id]);
  }
}
