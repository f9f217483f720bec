/** The kernel in the source's own form: handlers that update the static task
    and schedule tables, the allocator, the trace and the scheduling variables
    in place. Every handler is proved to compute the step of KernelModel. */
module KernelMachine {
  import opened Words
  import opened Scheduler
  import opened TraceTypes
  import opened TraceRules
  import opened TraceSelection
  import opened KernelModel
  import SchedulerTable
  import HeapImage
  import HeapChain
  import HeapModel
  import AllocatorMachine
  import TraceRing
  import TraceEncoder
  import TraceRingMachine

  /** A handler's return, or its panic, is what the model says. */
  predicate Agrees(o: Outcome, k: Kernel, panic: Option<PanicReason>, result: nat) {
    match o
    case Go(k', r) => panic == None && k == k' && result == r
    case Panic(reason) => panic == Some(reason)
  }

  /** The ring after every batch of a log has been produced into it. */
  function Recorded(ring: TraceRing.Ring, log: seq<Batch>): TraceRing.Ring {
    if log == [] then ring
    else
      var last := log[|log| - 1];
      TraceRing.Produce(Recorded(ring, log[..|log| - 1]), last.tick, last.inputs)
  }

  lemma RecordedNothing(ring: TraceRing.Ring)
    ensures Recorded(ring, []) == ring
  {
  }

  lemma ResetIsDormant()
    ensures Reset(IDLE).state.Dormant?
  {
  }

  lemma IdleKeepsId()
    ensures IdleTask().id == IDLE
  {
  }

  lemma RecordedOneMore(ring: TraceRing.Ring, log: seq<Batch>, b: Batch)
    ensures Recorded(ring, log + [b]) == TraceRing.Produce(Recorded(ring, log), b.tick, b.inputs)
  {
    hide TraceRing.Produce;
    assert (log + [b])[..|log|] == log;
  }

  lemma {:induction false} SinglesConcat(tick: u64, a: seq<Input>, b: seq<Input>)
    ensures Singles(tick, a + b) == Singles(tick, a) + Singles(tick, b)
  {
  }

  lemma SinglesOne(tick: u64, i: Input)
    ensures Singles(tick, [i]) == [Batch(tick, [i])]
  {
  }

  lemma NoSingles(tick: u64)
    ensures Singles(tick, []) == []
  {
  }

  lemma EmitChangesLog(k: Kernel, i: Input)
    ensures Emit(k, i).tasks == k.tasks && Emit(k, i).running == k.running && Emit(k, i).current == k.current
  {
  }

  lemma SleepKeepsId(t: Task, now: u64, ticks: u32)
    ensures SleepJob(t, now, ticks).0.id == t.id
  {
  }

  lemma CompletionKeeps(t: Task, now: u64)
    ensures CompleteJob(t, now).0.id == t.id && CompleteJob(t, now).0.state == t.state
  {
  }

  lemma WaitKeepsId(t: Task, now: u64)
    ensures WaitNextPeriod(t, now).0.id == t.id
  {
  }

  /** The outcome record does not depend on what else happens to the entry. */
  lemma OutcomeCommutes(k: Kernel, before: Task, after: Task, id: u8, later: Task)
    requires id < |k.tasks|
    ensures var k1 := EmitOutcome(WithTask(k, id, after), before, after);
      k1 == WithTask(k, id, after).(log := k1.log)
      && WithTask(k1, id, later) == EmitOutcome(WithTask(k, id, later), before, after)
  {
  }

  lemma UpdatesKeepId(t: Task, now: u64)
    ensures AccountRunningTick(t).id == t.id && RecordDeadlineMiss(t, now).0.id == t.id
    ensures RecordActiveRelease(t, now).0.id == t.id && ReleaseDue(t, now).0.id == t.id && WakeDue(t, now).0.id == t.id
  {
  }

  /** A skipped release lies one whole period before the next one. */
  lemma SkipMovesOn(t: Task, now: u64)
    ensures var (t', ok) := RecordActiveRelease(t, now); ok ==> t'.nextReleaseOrder >= t'.period
  {
  }

  /** The state after part of a tick has been done to one entry. */
  function Stepped(k: Kernel, id: u8, r: TickOut): Kernel
    requires id < |k.tasks|
  {
    WithTask(k, id, r.task).(log := k.log + Singles(k.now, r.inputs))
  }

  /** Which part can ready the task, and that each shows the range flag. */
  lemma PartsShow(t: Task, now: u64)
    ensures !MissPart(t, now).ready && !SkipPart(t, now).ready
    ensures SkipPart(t, now).exhausted == SkipPart(t, now).task.timeRangeExhausted
    ensures ReleasePart(t, now).exhausted == ReleasePart(t, now).task.timeRangeExhausted
    ensures WakePart(t, now).exhausted == t.timeRangeExhausted
  {
  }

  /** Recording one more input after some others. */
  lemma RecordedAlso(k: Kernel, inputs: seq<Input>, i: Input)
    ensures Emit(k.(log := k.log + Singles(k.now, inputs)), i) == k.(log := k.log + Singles(k.now, inputs + [i]))
  {
    SinglesConcat(k.now, inputs, [i]);
    SinglesOne(k.now, i);
    assert k.log + Singles(k.now, inputs) + [Batch(k.now, [i])] == k.log
           + (Singles(k.now, inputs) + [Batch(k.now, [i])]);
  }

  lemma SteppedTask(k: Kernel, id: u8, t: Task, r: TickOut)
    requires id < |k.tasks|
    ensures Stepped(WithTask(k, id, t), id, r) == Stepped(k, id, r)
  {
  }

  lemma ThenIsAssociative(a: TickOut, b: TickOut, c: TickOut)
    ensures Then(Then(a, b), c) == Then(a, Then(b, c))
  {
    assert a.inputs + b.inputs + c.inputs == a.inputs + (b.inputs + c.inputs);
  }

  /** The table and log after slots 1..n-1 have had their turn. */
  function TickedTo(k: Kernel, n: nat): Kernel
    requires Formed(k) && 1 <= n <= TASK_COUNT
  {
    k.(tasks := TickTable(k.tasks, k.now)[..n] + k.tasks[n..],
       log := k.log + Singles(k.now, TickInputs(k.tasks, n, k.now)))
  }

  lemma TickedToStart(k: Kernel)
    requires Formed(k)
    ensures TickedTo(k, 1) == k
  {
    NoSingles(k.now);
    assert TickTable(k.tasks, k.now)[..1] + k.tasks[1..] == k.tasks;
  }

  lemma TickedToNext(k: Kernel, n: nat)
    requires Formed(k) && 1 <= n < TASK_COUNT
    ensures TickedTo(k, n).tasks[n] == k.tasks[n]
    ensures Stepped(TickedTo(k, n), n, TickTask(k.tasks[n], k.now)) == TickedTo(k, n + 1)
  {
    hide TickTask;
    var r := TickTask(k.tasks[n], k.now);
    SinglesConcat(k.now, TickInputs(k.tasks, n, k.now), r.inputs);
    assert TickInputs(k.tasks, n + 1, k.now) == TickInputs(k.tasks, n, k.now) + r.inputs;
    assert k.log + Singles(k.now, TickInputs(k.tasks, n, k.now)) + Singles(k.now, r.inputs)
           == k.log + Singles(k.now, TickInputs(k.tasks, n, k.now) + r.inputs);
    var table := TickTable(k.tasks, k.now);
    assert (table[..n] + k.tasks[n..])[n := r.task] == table[..n + 1] + k.tasks[n + 1..];
  }

  lemma TickedToEnd(k: Kernel)
    requires Formed(k) && k.now < U64_MAX
    ensures TickedTo(k.(now := k.now + 1), TASK_COUNT) == Ticked(k)
  {
    hide TickTask, Singles, TickInputs;
    var table := TickTable(k.tasks, k.now + 1);
    assert table[..TASK_COUNT] + k.tasks[TASK_COUNT..] == table;
  }

  lemma SteppedShows(k: Kernel, id: u8, r: TickOut)
    requires id < |k.tasks|
    ensures Stepped(k, id, r).tasks == k.tasks[id := r.task] && Stepped(k, id, r).now == k.now
  {
  }

  lemma SteppedTwice(k: Kernel, id: u8, a: TickOut, b: TickOut)
    requires id < |k.tasks|
    ensures Stepped(k, id, a).tasks == k.tasks[id := a.task] && Stepped(k, id, a).now == k.now
    ensures Stepped(Stepped(k, id, a), id, b) == Stepped(k, id, Then(a, b))
  {
    SinglesConcat(k.now, a.inputs, b.inputs);
    assert k.log + Singles(k.now, a.inputs) + Singles(k.now, b.inputs) == k.log + Singles(k.now, a.inputs + b.inputs);
  }

  class System {
    const schedules: array<Task>
    const tcbs: array<Tcb>
    const heap: AllocatorMachine.Allocator
    const trace: TraceEncoder.TraceRuntime
    const stackPool: nat
    const heapStart: u32
    const heapStop: u32
    var current: u8
    var excluded: u8
    var cause: u8
    var sources: u8
    var now: u64
    var reclaims: u32
    var lastReclaimed: u8
    var running: bool
    var active: bool
    var pending: bool
    var initialized: bool
    ghost var log: seq<Batch>
    ghost const emptyRing: TraceRing.Ring

    ghost function Repr(): set<object>
      reads this, trace, trace.ring
    {
      {this, schedules, tcbs, heap, trace, trace.ring, trace.ring.records}
    }

    ghost predicate Valid()
      reads Repr()
    {
      && initialized && schedules.Length == TASK_COUNT && tcbs.Length == TASK_COUNT && Indexed(schedules[..])
      && heap.Valid() && trace.Valid()
      && trace.ring.Abs() == Recorded(emptyRing, log)
    }

    /** The model state this object stands for. */
    ghost function State(): (k: Kernel)
      requires Valid()
      reads Repr()
      ensures Formed(k)
    {
      Kernel(schedules[..], tcbs[..], current, excluded, cause, sources, now, reclaims, lastReclaimed,
             running, active, pending, heap.Abs(), stackPool, heapStart, heapStop, log)
    }

    /** The fields as the model state shows them. */
    lemma Fields()
      requires Valid()
      ensures schedules.Length == TASK_COUNT && tcbs.Length == TASK_COUNT
      ensures State().tasks == schedules[..] && State().tcbs == tcbs[..]
      ensures forall i :: 0 <= i < TASK_COUNT ==> schedules[i] == State().tasks[i] && tcbs[i] == State().tcbs[i]
      ensures State().current == current && State().excluded == excluded && State().cause == cause
      ensures State().sources == sources && State().now == now && State().running == running
      ensures State().active == active && State().pending == pending && State().log == log
      ensures State().stackPool == stackPool && State().heapStart == heapStart && State().heapStop == heapStop
    {
    }

    constructor (stackPool: nat, heapStart: u32, heapStop: u32, trace: TraceEncoder.TraceRuntime)
      requires trace.Valid()
      ensures !initialized && this.stackPool == stackPool && this.heapStart == heapStart && this.heapStop == heapStop
      ensures this.trace == trace && schedules.Length == TASK_COUNT && tcbs.Length == TASK_COUNT
      ensures fresh(schedules) && fresh(tcbs) && fresh(heap) && log == [] && emptyRing == trace.ring.Abs() && !running
    {
      this.stackPool, this.heapStart, this.heapStop, this.trace := stackPool, heapStart, heapStop, trace;
      schedules := new Task[TASK_COUNT](_ => Reset(0));
      tcbs := new Tcb[TASK_COUNT](_ => UNCLAIMED);
      heap := new AllocatorMachine.Allocator();
      current, excluded, cause, sources, now, reclaims, lastReclaimed := INVALID, INVALID, 0, 0, 0, 0, INVALID;
      running, active, pending, initialized := false, false, false, false;
      log := [];
      emptyRing := trace.ring.Abs();
    }

    /** Everything but the initialised flag and the heap is as declared. */
    ghost predicate Declared()
      reads Repr()
    {
      && schedules.Length == TASK_COUNT && tcbs.Length == TASK_COUNT && trace.Valid()
      && log == [] && trace.ring.Abs() == emptyRing
    }

    method ResetTables()
      requires schedules.Length == TASK_COUNT && tcbs.Length == TASK_COUNT
      modifies schedules, tcbs
      ensures forall i :: 0 <= i < TASK_COUNT ==> schedules[i] == Reset(i) && tcbs[i] == UNCLAIMED
    {
      hide Reset;
      for id := 0 to TASK_COUNT
        invariant forall i :: 0 <= i < id ==> schedules[i] == Reset(i) && tcbs[i] == UNCLAIMED
      {
        tcbs[id] := UNCLAIMED;
        SchedulerTable.ResetEntry(schedules, id, id);
        assert forall i :: 0 <= i < TASK_COUNT ==> schedules[..][i] == schedules[i];
      }
    }

    method ClearVariables()
      modifies this`current, this`excluded, this`cause, this`sources, this`now, this`reclaims, this`lastReclaimed,
          this`active, this`pending
      ensures current == INVALID && excluded == INVALID && cause == 0 && sources == 0 && now == 0 && reclaims == 0
      ensures lastReclaimed == INVALID && !active && !pending
    {
      now, reclaims, lastReclaimed := 0, 0, INVALID;
      current, excluded, cause, sources := INVALID, INVALID, 0, 0;
      active, pending := false, false;
    }

    /** Every slot empty but idle's, whose task is ready on a fresh frame. */
    method PrepareTables() returns (panic: Option<PanicReason>)
      requires schedules.Length == TASK_COUNT && tcbs.Length == TASK_COUNT
      modifies schedules, tcbs
      ensures panic == if LayoutValid(stackPool, stackPool + MAX_STACK) then None else Some(StackLayout)
      ensures panic == None ==>
                && schedules[..] == [IdleTask(), Reset(1), Reset(2), Reset(3), Reset(4)]
                && tcbs[..] == [Tcb(stackPool + MAX_STACK - FRAME_BYTES, stackPool, stackPool + MAX_STACK, true, false),
                                UNCLAIMED, UNCLAIMED, UNCLAIMED, UNCLAIMED]
    {
      hide Reset;
      ResetTables();
      var ok := SchedulerTable.TransitionEntry(schedules, IDLE, Dormant, Ready);
      ResetIsDormant();
      assert schedules[IDLE] == IdleTask();
      tcbs[IDLE] := tcbs[IDLE].(claimed := true);
      tcbs[IDLE] := tcbs[IDLE].(low := stackPool);
      tcbs[IDLE] := tcbs[IDLE].(high := stackPool + MAX_STACK);
      if !LayoutValid(tcbs[IDLE].low, tcbs[IDLE].high) { return Some(StackLayout); }
      tcbs[IDLE] := tcbs[IDLE].(savedPsp := tcbs[IDLE].high - FRAME_BYTES);
      return None;
    }

    /** Bring the kernel up, once: the memory of the heap reads as contents. */
    method Init(contents: HeapImage.Memory) returns (panic: Option<PanicReason>, result: nat)
      requires if initialized then Valid() else Declared() && !running
      requires forall a :: heapStart <= a && a + HeapChain.HEADER <= heapStop && a % HeapChain.ALIGNMENT == 0 ==>
                 a in contents
      modifies this, schedules, tcbs, heap
      ensures old(initialized) ==> Valid() && State() == old(State()) && panic == None && result == 0
      ensures !old(initialized) ==>
                match Boot(stackPool, heapStart, heapStop)
                case Go(k, r) => panic == None && result == r && Valid() && State() == k
                case Panic(reason) => panic == Some(reason)
    {
      hide Recorded, Reset, HeapModel.Init, HeapModel.HeapInv, HeapImage.Represents, StateVerified, IdleTask;
      if initialized || running { return None, 0; }
      panic := PrepareTables();
      if panic.Some? { return panic, 0; }
      ClearVariables();
      if heapStop <= heapStart { return Some(HeapInit), 0; }
      var ok := heap.Init(heapStart, heapStop - heapStart, contents);
      if !ok { return Some(HeapInit), 0; }
      initialized := true;
      IdleKeepsId();
      RecordedNothing(emptyRing);
      var verified := VerifyState();
      if !verified { return Some(InitState), 0; }
      result := 1;
    }

    // ---- Small steps ----

    method Record(input: Input)
      requires Valid()
      modifies trace.ring, trace.ring.records, this`log
      ensures Valid() && State() == Emit(old(State()), input) && trace.ring.records == old(trace.ring.records)
    {
      hide Recorded, TraceRing.Produce;
      RecordedOneMore(emptyRing, log, Batch(now, [input]));
      trace.Emit(now, input);
      log := log + [Batch(now, [input])];
    }

    method RecordSelection(selected: u8, incumbent: u8, excluded: u8, purpose: u8)
      requires Valid() && selected < TASK_COUNT
      modifies trace.ring, trace.ring.records, this`log
      ensures Valid() && trace.ring.records == old(trace.ring.records)
      ensures State() == EmitSelection(old(State()), Choice(old(schedules[..]), selected, incumbent, excluded, purpose))
    {
      hide Recorded, TraceRing.Produce, SelectionBatch;
      ghost var c := Choice(schedules[..], selected, incumbent, excluded, purpose);
      RecordedOneMore(emptyRing, log, Batch(now, SelectionBatch(c)));
      trace.EmitSelection(now, schedules, selected, incumbent, excluded, purpose);
      log := log + [Batch(now, SelectionBatch(c))];
    }

    /** Count the running entries and check them against the current task. */
    method VerifyState() returns (ok: bool)
      requires Valid()
      ensures Valid() && State() == old(State()) && ok == StateVerified(State())
    {
      var runningCount := 0;
      var runningId: u8 := INVALID;
      for id := 0 to TASK_COUNT
        invariant runningCount == 0 <==> forall j :: 0 <= j < id ==> schedules[j].state != Running
        invariant runningCount >= 1 ==> runningId < id && schedules[runningId].state == Running
        invariant runningCount == 1 <==> runningId < id && schedules[runningId].state == Running
                                         && forall j :: 0 <= j < id && j != runningId ==> schedules[j].state != Running
        invariant runningCount >= 0
      {
        if schedules[id].state == Running {
          runningCount := runningCount + 1;
          runningId := id;
        }
      }
      assert runningCount == 0 <==> forall j :: 0 <= j < TASK_COUNT ==> schedules[..][j].state != Running;
      assert runningCount == 1 && runningId == current <==> ExactlyRunning(schedules[..], current) by {
        if ExactlyRunning(schedules[..], current) {
          assert schedules[current].state == Running;
          assert schedules[runningId].state == Running ==> schedules[..][runningId].state == Running;
          assert forall j :: 0 <= j < TASK_COUNT && j != current ==> schedules[..][j].state != Running;
        }
      }
      ok := !((!running && runningCount != 0) || (running && active && (runningCount != 1 || runningId != current)));
    }

    method RequestPreemption(source: u8) returns (panic: Option<PanicReason>)
      requires Valid() && (source == SOURCE_SYSTICK || source == SOURCE_CREATE)
      modifies this`sources, this`cause, this`pending
      ensures Valid() && Agrees(KernelModel.RequestPreemption(old(State()), source), State(), panic, 0)
    {
      hide Recorded;
      sources := WithSource(sources, source);
      match sources {
        case 1 => cause := CAUSE_SYSTICK;
        case 2 => cause := CAUSE_CREATE;
        case 3 => cause := CAUSE_COALESCED;
        case _ => return Some(PreemptMask);
      }
      pending := true;
      return None;
    }

    method ResetTask(id: u8)
      requires Valid() && id < TASK_COUNT
      modifies schedules, tcbs
      ensures Valid() && State() == ResetSlot(old(State()), id)
    {
      hide Recorded;
      tcbs[id] := tcbs[id].(savedPsp := 0);
      tcbs[id] := tcbs[id].(low := 0);
      tcbs[id] := tcbs[id].(high := 0);
      tcbs[id] := tcbs[id].(claimed := false);
      tcbs[id] := tcbs[id].(started := false);
      SchedulerTable.ResetEntry(schedules, id, id);
    }

    // ---- Creation ----

    method FindFreeSlot() returns (id: u8)
      requires Valid()
      ensures id == FreeSlot(State(), 1)
    {
      for candidate := 1 to TASK_COUNT
        invariant FreeSlot(State(), candidate) == FreeSlot(State(), 1)
      {
        if schedules[candidate].state == Dormant && !tcbs[candidate].claimed { return candidate; }
      }
      return INVALID;
    }

    method Announce(id: u8)
      requires Valid() && id < TASK_COUNT
      modifies trace.ring, trace.ring.records, this`log
      ensures Valid() && State() == Announced(old(State()), id) && trace.ring.records == old(trace.ring.records)
    {
      hide Recorded, Emit, Low32, High32;
      ghost var k := State();
      var creator := if running then current else INVALID;
      Record(Input(TASK_CREATE, 0, id, TaskWord(creator), KindNumber(schedules[id].kind), schedules[id].priority,
                   StateNumber(schedules[id].state)));
      EmitChangesLog(k, Input(TASK_CREATE, 0, id, TaskWord(creator), KindNumber(k.tasks[id].kind), k.tasks[id].priority,
                              StateNumber(k.tasks[id].state)));
      assert schedules[id] == State().tasks[id];
      if schedules[id].state == Ready {
        Record(DeadlineInput(TASK_RELEASE, schedules[id]));
      }
    }

    method Challenge(id: u8) returns (panic: Option<PanicReason>)
      requires Valid() && id < TASK_COUNT && (running ==> current < TASK_COUNT)
      modifies trace.ring, trace.ring.records, this`log, this`sources, this`cause, this`pending
      ensures Valid() && trace.ring.records == old(trace.ring.records)
      ensures Agrees(Challenged(old(State()), id), State(), panic, 0)
    {
      hide Recorded, SelectionBatch, KernelModel.RequestPreemption, Outranks;
      panic := None;
      assert schedules[id] == State().tasks[id];
      assert running ==> schedules[current] == State().tasks[current];
      if running && schedules[id].state == Ready && Outranks(schedules[id], schedules[current]) {
        RecordSelection(id, current, INVALID, CREATE_PROBE);
        panic := RequestPreemption(SOURCE_CREATE);
      }
    }

    /** Claim the slot's stack and configure its entry; a refused configuration
        gives the slot back. */
    method Install(id: u8, c: TimingConfig, size: nat) returns (ok: bool)
      requires Valid() && id < TASK_COUNT && MIN_STACK <= size
      modifies schedules, tcbs
      ensures Valid()
      ensures var (t, configured) := Configure(old(schedules[id]), c, now);
        && ok == configured
        && (ok ==> && schedules[..] == old(schedules[..])[id := t]
                   && tcbs[id] == Tcb(old(tcbs[id]).savedPsp, StackLow(old(State()), id),
                                      StackLow(old(State()), id) + size, true, old(tcbs[id]).started)
                   && tcbs[..] == old(tcbs[..])[id := tcbs[id]])
        && (!ok ==> State() == ResetSlot(old(State()), id))
    {
      hide Recorded, Configure;
      ghost var k := State();
      tcbs[id] := tcbs[id].(claimed := true);
      tcbs[id] := tcbs[id].(low := stackPool + MAX_STACK * id);
      tcbs[id] := tcbs[id].(high := tcbs[id].low + size);
      ok := SchedulerTable.ConfigureEntry(schedules, id, c, now);
      if !ok {
        ResetTask(id);
      }
    }

    /** Lay the initial frame at the top of the slot's stack. */
    method BuildInitialFrame(id: u8) returns (panic: Option<PanicReason>)
      requires Valid() && id < TASK_COUNT
      modifies tcbs
      ensures Valid() && (panic == None <==> LayoutValid(old(tcbs[id]).low, old(tcbs[id]).high))
      ensures panic.Some? ==> panic == Some(StackLayout)
      ensures panic == None ==> old(tcbs[id]).high >= FRAME_BYTES
                                && var t := old(tcbs[id]);
                                   tcbs[..] == old(tcbs[..])[id := t.(savedPsp := t.high - FRAME_BYTES)]
    {
      if !LayoutValid(tcbs[id].low, tcbs[id].high) { return Some(StackLayout); }
      tcbs[id] := tcbs[id].(savedPsp := tcbs[id].high - FRAME_BYTES);
      return None;
    }

    /** Put a configured task with its initial frame into the slot. */
    method Populate(id: u8, c: TimingConfig, size: nat) returns (panic: Option<PanicReason>, ok: bool)
      requires Valid() && id < TASK_COUNT && MIN_STACK <= size
      modifies schedules, tcbs
      ensures Valid()
      ensures var k := old(State());
        var (t, configured) := Configure(k.tasks[id], c, k.now);
        && ok == configured
        && (panic == None <==> !ok || LayoutValid(StackLow(k, id), StackLow(k, id) + size))
        && (panic.Some? ==> panic == Some(StackLayout))
        && (panic == None ==> State() == if ok then Installed(k, id, t, size) else ResetSlot(k, id))
    {
      hide Recorded, Configure, LayoutValid, ResetSlot;
      assert schedules[id] == State().tasks[id];
      ok := Install(id, c, size);
      if !ok { return None, ok; }
      panic := BuildInitialFrame(id);
    }

    method CreateInSlot(id: u8, c: TimingConfig, size: nat) returns (panic: Option<PanicReason>, result: nat)
      requires Valid() && id < TASK_COUNT && MIN_STACK <= size && (running ==> current < TASK_COUNT)
      modifies Repr()
      ensures Valid() && trace.ring.records == old(trace.ring.records)
      ensures Agrees(CreateIn(old(State()), id, c, size), State(), panic, result)
    {
      hide Recorded, Configure, StateVerified, Announced, Challenged, LayoutValid, ResetSlot, Indexed;
      result := 0;
      ghost var k := State();
      var ok;
      panic, ok := Populate(id, c, size);
      if panic.Some? || !ok { return; }
      assert State() == Installed(k, id, Configure(k.tasks[id], c, k.now).0, size);
      Announce(id);
      panic := Challenge(id);
      if panic.Some? { return; }
      var verified := VerifyState();
      if !verified { return Some(CreateState), 0; }
      result := id;
    }

    method CreateTask(c: TimingConfig, size: nat) returns (panic: Option<PanicReason>, result: nat)
      requires Valid()
      modifies Repr()
      ensures Valid() && trace.ring.records == old(trace.ring.records)
      ensures Agrees(Create(old(State()), c, size), State(), panic, result)
    {
      hide Recorded, ConfigValid, FreeSlot, CreateIn;
      panic, result := None, 0;
      ghost var k := State();
      assert running && current < TASK_COUNT ==> schedules[current] == k.tasks[current];
      if size < MIN_STACK || size > MAX_STACK || size % 8 != 0 || !ConfigValid(c) { return; }
      if running && (!CallerIsRunning() || current == IDLE) { return; }
      var id := FindFreeSlot();
      if id == INVALID { return; }
      panic, result := CreateInSlot(id, c, size);
    }

    predicate CallerIsRunning()
      requires schedules.Length == TASK_COUNT
      reads this, schedules
    {
      running && current < TASK_COUNT && schedules[current].state == Running && active
    }

    // ---- Start and the SVC services ----

    method StartKernel() returns (panic: Option<PanicReason>)
      requires Valid()
      modifies this`running, this`cause, this`log, trace.ring, trace.ring.records
      ensures Valid() && trace.ring.records == old(trace.ring.records)
      ensures Agrees(Start(old(State())), State(), panic, 0)
    {
      hide Recorded;
      if running { return Some(StartState); }
      running := true;
      cause := CAUSE_START;
      Record(Input(KERNEL_START, 0, NO_TASK, NO_TASK, 0, TASK_COUNT, 0));
      return None;
    }

    method ServeStart() returns (panic: Option<PanicReason>)
      requires Valid()
      modifies this`pending
      ensures Valid() && Agrees(KernelModel.StartSvc(old(State())), State(), panic, 0)
    {
      hide Recorded;
      if current != INVALID || active { return Some(SvcStart); }
      pending := true;
      return None;
    }

    method ServeYield() returns (panic: Option<PanicReason>)
      requires Valid()
      modifies this, schedules, trace.ring, trace.ring.records
      ensures Valid() && trace.ring.records == old(trace.ring.records)
      ensures Agrees(Yield(old(State())), State(), panic, 0)
    {
      hide Recorded;
      if current >= TASK_COUNT || schedules[current].state != Running { return Some(SvcYield); }
      var ok := SchedulerTable.TransitionEntry(schedules, current, Running, Ready);
      excluded := current;
      cause := CAUSE_YIELD;
      Record(Input(TASK_YIELD, 0, TaskWord(current), NO_TASK, 0, 0, 0));
      pending := true;
      return None;
    }

    method ServeSleep(ticks: u32) returns (panic: Option<PanicReason>, result: nat)
      requires Valid()
      modifies this, schedules, trace.ring, trace.ring.records
      ensures Valid() && trace.ring.records == old(trace.ring.records)
      ensures Agrees(Sleep(old(State()), ticks), State(), panic, result)
    {
      hide Recorded, Low32, High32, SleepJob;
      if ticks == 0 || ticks > I32_MAX { return None, 0; }
      if current >= TASK_COUNT || schedules[current].state != Running { return Some(SvcSleep), 0; }
      ghost var k := State();
      assert schedules[current] == k.tasks[current];
      SleepKeepsId(schedules[current], now, ticks);
      var ok := SchedulerTable.SleepEntry(schedules, current, now, ticks);
      if !ok { return Some(TaskSleep), 0; }
      var wake := schedules[current].wakeOrder;
      Record(Input(TASK_SLEEP, 0, TaskWord(current), NO_TASK, Low32(wake), High32(wake), ticks));
      cause := CAUSE_SLEEP;
      pending := true;
      return None, 1;
    }

    /** Emit the deadline outcome of the job slot id has just completed. */
    method RecordOutcome(id: u8, missBefore: bool, ghost before: Task)
      requires Valid() && id < TASK_COUNT && missBefore == before.missLatched
      modifies trace.ring, trace.ring.records, this`log
      ensures Valid() && trace.ring.records == old(trace.ring.records)
      ensures State() == EmitOutcome(old(State()), before, old(schedules[id]))
    {
      hide Recorded, Low32, High32;
      if !missBefore && schedules[id].missLatched {
        Record(DeadlineInput(DEADLINE_MISS, schedules[id]));
      } else if !schedules[id].missLatched {
        Record(DeadlineInput(DEADLINE_MET, schedules[id]));
      }
    }

    /** Move one entry between states. */
    method Transit(id: u8, expected: State, next: State) returns (ok: bool)
      requires Valid() && id < TASK_COUNT
      modifies schedules
      ensures Valid() && ok == (old(schedules[id]).state == expected && expected != next)
      ensures State() == if ok then WithTask(old(State()), id, old(schedules[id]).(state := next)) else old(State())
    {
      hide Recorded;
      ok := SchedulerTable.TransitionEntry(schedules, id, expected, next);
    }

    method Complete(id: u8) returns (ok: bool)
      requires Valid() && id < TASK_COUNT
      modifies schedules
      ensures Valid() && ok == CompleteJob(old(schedules[id]), now).1
      ensures State() == WithTask(old(State()), id, CompleteJob(old(schedules[id]), now).0)
    {
      hide Recorded, CompleteJob;
      CompletionKeeps(schedules[id], now);
      ok := SchedulerTable.CompleteEntry(schedules, id, now);
    }

    method Await(id: u8) returns (ok: bool)
      requires Valid() && id < TASK_COUNT
      modifies schedules
      ensures Valid() && ok == WaitNextPeriod(old(schedules[id]), now).1
      ensures State() == WithTask(old(State()), id, WaitNextPeriod(old(schedules[id]), now).0)
    {
      hide Recorded, WaitNextPeriod;
      WaitKeepsId(schedules[id], now);
      ok := SchedulerTable.WaitEntry(schedules, id, now);
    }

    method Pend(reason: u8)
      requires Valid()
      modifies this`cause, this`pending
      ensures Valid() && State() == old(State()).(cause := reason, pending := true)
    {
      hide Recorded;
      cause := reason;
      pending := true;
    }

    method ServeExit() returns (panic: Option<PanicReason>)
      requires Valid()
      modifies this, schedules, trace.ring, trace.ring.records
      ensures Valid() && trace.ring.records == old(trace.ring.records)
      ensures Agrees(Exit(old(State())), State(), panic, 0)
    {
      hide Valid, State;
      hide Recorded, CompleteJob, EmitOutcome, Indexed, TraceRing.Produce;
      ghost var k := State();
      Fields();
      if current >= TASK_COUNT || current == IDLE || schedules[current].state != Running { return Some(SvcExit); }
      ghost var before := schedules[current];
      CompletionKeeps(before, now);
      var missBefore := schedules[current].missLatched;
      var ok := Complete(current);
      if !ok { return Some(ExitComplete); }
      ghost var after := CompleteJob(before, now).0;
      OutcomeCommutes(k, before, after, current, after.(state := Exiting));
      Fields();
      RecordOutcome(current, missBefore, before);
      Fields();
      ok := Transit(current, Running, Exiting);
      Fields();
      Record(Input(TASK_EXIT, 0, TaskWord(current), NO_TASK, schedules[current].completedJobs,
                   schedules[current].deadlineMisses, 0));
      Pend(CAUSE_EXIT);
      return None;
    }

    method ServeWaitPeriod() returns (panic: Option<PanicReason>, result: nat)
      requires Valid()
      modifies this, schedules, trace.ring, trace.ring.records
      ensures Valid() && trace.ring.records == old(trace.ring.records)
      ensures Agrees(WaitPeriod(old(State())), State(), panic, result)
    {
      hide Valid, State;
      hide Recorded, WaitNextPeriod, EmitOutcome, Low32, High32, Indexed, TraceRing.Produce;
      ghost var k := State();
      Fields();
      if current >= TASK_COUNT || schedules[current].kind != Periodic { return None, 0; }
      if current == IDLE || schedules[current].state != Running { return Some(SvcPeriod), 0; }
      ghost var before := schedules[current];
      var missBefore := schedules[current].missLatched;
      var ok := Await(current);
      if !ok { return Some(SvcPeriod), 0; }
      ghost var after := WaitNextPeriod(before, now).0;
      OutcomeCommutes(k, before, after, current, after);
      Fields();
      RecordOutcome(current, missBefore, before);
      Fields();
      var next := schedules[current].nextReleaseOrder;
      Record(Input(TASK_WAIT_PERIOD, 0, TaskWord(current), NO_TASK, Low32(next), High32(next), 0));
      Pend(CAUSE_WAIT_PERIOD);
      return None, 1;
    }

    // ---- Memory services ----

    method AllocMemory(size: u32) returns (p: nat)
      requires Valid() && HeapModel.HasCursor(State().heap)
      modifies Repr()
      ensures Valid() && trace.ring.records == old(trace.ring.records)
      ensures Agrees(MemoryAlloc(old(State()), size), State(), None, p)
    {
      hide Recorded, HeapModel.Alloc, HeapModel.HeapInv, HeapImage.Represents;
      if !CallerIsRunning() || current == IDLE { return 0; }
      p := heap.Alloc(size, current);
      Record(Input(ALLOC, 0, TaskWord(current), NO_TASK, size, PointerOffset(heapStart, heapStop, p),
                   if p != 0 then 1 else 0));
    }

    method FreeMemory(pointer: u32) returns (result: nat)
      requires Valid()
      modifies Repr()
      ensures Valid() && trace.ring.records == old(trace.ring.records)
      ensures Agrees(MemoryFree(old(State()), pointer), State(), None, result)
    {
      hide Recorded, HeapModel.FreeBlock, HeapModel.HeapInv, HeapImage.Represents;
      if !CallerIsRunning() || current == IDLE { return 0; }
      var offset := PointerOffset(heapStart, heapStop, pointer);
      var ok := heap.Free(pointer, current);
      Record(Input(FREE, 0, TaskWord(current), NO_TASK, offset, 1, if ok then 1 else 0));
      return if ok then 1 else 0;
    }

    // ---- SysTick ----

    method Account(id: u8)
      requires Valid() && id < TASK_COUNT
      modifies schedules
      ensures Valid()
      ensures State() == WithTask(old(State()), id, AccountRunningTick(old(schedules[id])))
    {
      hide Recorded, AccountRunningTick;
      UpdatesKeepId(schedules[id], now);
      SchedulerTable.AccountEntry(schedules, id);
    }

    method Miss(id: u8) returns (missed: bool)
      requires Valid() && id < TASK_COUNT
      modifies schedules
      ensures Valid() && missed == RecordDeadlineMiss(old(schedules[id]), now).1
      ensures State() == WithTask(old(State()), id, RecordDeadlineMiss(old(schedules[id]), now).0)
    {
      hide Recorded, RecordDeadlineMiss;
      UpdatesKeepId(schedules[id], now);
      missed := SchedulerTable.MissEntry(schedules, id, now);
    }

    method Skip(id: u8) returns (skipped: bool)
      requires Valid() && id < TASK_COUNT
      modifies schedules
      ensures Valid() && skipped == RecordActiveRelease(old(schedules[id]), now).1
      ensures State() == WithTask(old(State()), id, RecordActiveRelease(old(schedules[id]), now).0)
    {
      hide Recorded, RecordActiveRelease;
      UpdatesKeepId(schedules[id], now);
      skipped := SchedulerTable.SkipEntry(schedules, id, now);
    }

    method Release(id: u8) returns (released: bool)
      requires Valid() && id < TASK_COUNT
      modifies schedules
      ensures Valid() && released == ReleaseDue(old(schedules[id]), now).1
      ensures State() == WithTask(old(State()), id, ReleaseDue(old(schedules[id]), now).0)
    {
      hide Recorded, ReleaseDue;
      UpdatesKeepId(schedules[id], now);
      released := SchedulerTable.ReleaseEntry(schedules, id, now);
    }

    method Wake(id: u8) returns (woken: bool)
      requires Valid() && id < TASK_COUNT
      modifies schedules
      ensures Valid() && woken == WakeDue(old(schedules[id]), now).1
      ensures State() == WithTask(old(State()), id, WakeDue(old(schedules[id]), now).0)
    {
      hide Recorded, WakeDue;
      UpdatesKeepId(schedules[id], now);
      woken := SchedulerTable.WakeEntry(schedules, id, now);
    }

    method MissStep(id: u8)
      requires Valid() && id < TASK_COUNT
      modifies schedules, trace.ring, trace.ring.records, this`log
      ensures Valid() && trace.ring.records == old(trace.ring.records)
      ensures State() == Stepped(old(State()), id, MissPart(old(schedules[id]), now))
    {
      hide Valid, State, RecordDeadlineMiss, Low32, High32;
      Fields();
      var missed := Miss(id);
      Fields();
      NoSingles(now);
      SinglesOne(now, DeadlineInput(DEADLINE_MISS, schedules[id]));
      if missed {
        Record(DeadlineInput(DEADLINE_MISS, schedules[id]));
      }
    }

    method SkipStep(id: u8)
      requires Valid() && id < TASK_COUNT
      modifies schedules, trace.ring, trace.ring.records, this`log
      ensures Valid() && trace.ring.records == old(trace.ring.records)
      ensures State() == Stepped(old(State()), id, SkipPart(old(schedules[id]), now))
    {
      hide Valid, State, RecordActiveRelease, Low32, High32;
      Fields();
      UpdatesKeepId(schedules[id], now);
      SkipMovesOn(schedules[id], now);
      var skipped := Skip(id);
      Fields();
      NoSingles(now);
      if skipped {
        var release := schedules[id].nextReleaseOrder - schedules[id].period;
        var input := Input(TASK_RELEASE_SKIPPED, 0, id, NO_TASK, Low32(release), High32(release),
                           schedules[id].missedReleases);
        SinglesOne(now, input);
        Record(input);
      }
    }

    method ReleaseStep(id: u8) returns (released: bool)
      requires Valid() && id < TASK_COUNT
      modifies schedules, trace.ring, trace.ring.records, this`log
      ensures Valid() && trace.ring.records == old(trace.ring.records)
      ensures var r := ReleasePart(old(schedules[id]), now);
        released == r.ready && State() == Stepped(old(State()), id, r)
    {
      hide Valid, State, ReleaseDue, Low32, High32;
      Fields();
      released := Release(id);
      Fields();
      NoSingles(now);
      SinglesOne(now, DeadlineInput(TASK_RELEASE, schedules[id]));
      if released {
        Record(DeadlineInput(TASK_RELEASE, schedules[id]));
      }
    }

    method WakeStep(id: u8) returns (woken: bool)
      requires Valid() && id < TASK_COUNT
      modifies schedules, trace.ring, trace.ring.records, this`log
      ensures Valid() && trace.ring.records == old(trace.ring.records)
      ensures var r := WakePart(old(schedules[id]), now);
        woken == r.ready && State() == Stepped(old(State()), id, r)
    {
      hide Valid, State, WakeDue, Low32, High32;
      Fields();
      woken := Wake(id);
      Fields();
      NoSingles(now);
      SinglesOne(now, DeadlineInput(TASK_WAKE, schedules[id]));
      if woken {
        Record(DeadlineInput(TASK_WAKE, schedules[id]));
      }
    }

    /** One turn of the per-task loop. */
    method TickEntry(id: u8) returns (ready: bool, exhausted: bool)
      requires Valid() && id < TASK_COUNT
      modifies schedules, trace.ring, trace.ring.records, this`log
      ensures Valid() && trace.ring.records == old(trace.ring.records)
      ensures var r := TickTask(old(schedules[id]), now);
        exhausted == r.exhausted && (!exhausted ==> ready == r.ready) && State() == Stepped(old(State()), id, r)
    {
      hide Valid, State, MissPart, SkipPart, ReleasePart, WakePart, AccountRunningTick, Stepped;
      Fields();
      ghost var k, t := State(), schedules[id];
      Account(id);
      Fields();
      ghost var a := MissPart(schedules[id], now);
      MissStep(id);
      Fields();
      SteppedTask(k, id, AccountRunningTick(t), a);
      ghost var b := SkipPart(schedules[id], now);
      SkipStep(id);
      Fields();
      SteppedTwice(k, id, a, b);
      SteppedShows(k, id, Then(a, b));
      PartsShow(AccountRunningTick(t), now);
      PartsShow(a.task, now);
      PartsShow(b.task, now);
      exhausted := schedules[id].timeRangeExhausted;
      ready := false;
      if exhausted { return; }
      ghost var c := ReleasePart(schedules[id], now);
      ready := ReleaseStep(id);
      Fields();
      SteppedTwice(k, id, Then(a, b), c);
      SteppedShows(k, id, Then(Then(a, b), c));
      exhausted := schedules[id].timeRangeExhausted;
      if exhausted { return; }
      ghost var d := WakePart(schedules[id], now);
      PartsShow(c.task, now);
      var woken := WakeStep(id);
      SteppedTwice(k, id, Then(Then(a, b), c), d);
      ThenIsAssociative(Then(a, b), c, d);
      ready := ready || woken;
    }

    /** The per-task loop of one tick. */
    method TickLoop() returns (exhausted: bool, madeReady: bool)
      requires Valid()
      modifies schedules, trace.ring, trace.ring.records, this`log
      ensures Valid() && trace.ring.records == old(trace.ring.records)
      ensures exhausted == SomeExhausted(old(State()).tasks, now)
      ensures !exhausted ==>
                madeReady == SomeReady(old(State()).tasks, now) && State() == TickedTo(old(State()), TASK_COUNT)
    {
      hide Valid, State, TickTask, Stepped, TickedTo;
      ghost var k := State();
      Fields();
      TickedToStart(k);
      madeReady := false;
      for id := 1 to TASK_COUNT
        invariant Valid() && trace.ring.records == old(trace.ring.records) && State() == TickedTo(k, id)
        invariant forall i :: 1 <= i < id ==> !TickTask(k.tasks[i], now).exhausted
        invariant madeReady <==> exists i :: 1 <= i < id && TickTask(k.tasks[i], now).ready
      {
        Fields();
        TickedToNext(k, id);
        var ready;
        ready, exhausted := TickEntry(id);
        if exhausted { return; }
        madeReady := madeReady || ready;
      }
      exhausted := false;
    }

    method SelectTask(excluded: u8) returns (best: u8)
      requires Valid()
      ensures Valid() && State() == old(State()) && best == Select(State().tasks, excluded)
    {
      hide Recorded, Select;
      best := SchedulerTable.SelectEntry(schedules, excluded);
    }

    method Probe() returns (panic: Option<PanicReason>)
      requires Valid() && current < TASK_COUNT && schedules[current].state.Running?
      modifies this`sources, this`cause, this`pending, this`log, schedules, trace.ring, trace.ring.records
      ensures Valid() && trace.ring.records == old(trace.ring.records)
      ensures Agrees(Probed(old(State())), State(), panic, 0)
    {
      hide Valid, State, Select, Outranks, SelectionBatch;
      ghost var k := State();
      Fields();
      panic := None;
      var candidate := SelectTask(INVALID);
      if candidate != INVALID && candidate != IDLE && Outranks(schedules[candidate], schedules[current]) {
        RecordSelection(candidate, current, INVALID, SYSTICK_PROBE);
        Fields();
        panic := RequestPreemption(SOURCE_SYSTICK);
        if panic.Some? { return; }
        Fields();
        var ok := Transit(current, Running, Ready);
      }
    }

    method AdvanceClock()
      requires Valid() && now < U64_MAX
      modifies this`now
      ensures Valid() && now == old(now) + 1 && State() == old(State()).(now := now)
    {
      hide Recorded;
      now := now + 1;
    }

    /** SysTick. */
    method ServeTick() returns (panic: Option<PanicReason>)
      requires Valid()
      modifies this, schedules, trace.ring, trace.ring.records
      ensures Valid() && trace.ring.records == old(trace.ring.records)
      ensures Agrees(Tick(old(State())), State(), panic, 0)
    {
      hide Valid, State, TickTask, Probed, SomeReady, SomeExhausted, TickedTo, Ticked;
      ghost var k := State();
      Fields();
      if !running { return None; }
      if now == U64_MAX { return Some(TickRange); }
      TickedToEnd(k);
      AdvanceClock();
      Fields();
      var exhausted, madeReady := TickLoop();
      if exhausted { return Some(TaskTimeRange); }
      Fields();
      panic := None;
      if madeReady && current < TASK_COUNT && schedules[current].state == Running {
        panic := Probe();
      }
    }

    // ---- PendSV ----

    predicate SavedPspValid(id: u8, psp: nat)
      requires tcbs.Length == TASK_COUNT
      reads this, tcbs
    {
      && id < TASK_COUNT && psp != 0 && tcbs[id].low != 0 && tcbs[id].high != 0
      && tcbs[id].high >= tcbs[id].low + FRAME_BYTES
      && psp % 8 == 0 && tcbs[id].low <= psp <= tcbs[id].high - FRAME_BYTES
    }

    lemma PspAgrees()
      requires Valid()
      ensures forall id: u8, psp :: SavedPspValid(id, psp) == PspValid(State(), id, psp)
    {
    }

    method Save(psp: nat) returns (panic: Option<PanicReason>)
      requires Valid()
      modifies tcbs
      ensures Valid() && Agrees(Saved(old(State()), psp), State(), panic, 0)
    {
      hide Recorded;
      if active {
        if current >= TASK_COUNT || !SavedPspValid(current, psp) { return Some(SavePsp); }
        tcbs[current] := tcbs[current].(savedPsp := psp);
      } else if psp != 0 || current != INVALID {
        return Some(FirstPsp);
      }
      return None;
    }

    method ValidateHeap() returns (sound: bool)
      requires Valid()
      ensures Valid() && State() == old(State()) && sound
    {
      hide Recorded, HeapModel.HeapInv, HeapImage.Represents;
      sound := heap.Validate();
    }

    method SweepHeap(owner: u8) returns (released: nat)
      requires Valid()
      modifies heap
      ensures Valid()
      ensures var (h, n) := HeapModel.ReleaseOwner(old(State()).heap, owner);
        released == n && State() == old(State()).(heap := h)
    {
      hide Recorded, HeapModel.HeapInv, HeapImage.Represents, HeapModel.ReleaseOwner;
      released := heap.ReleaseOwner(owner);
    }

    method CountReclaim(id: u8)
      requires Valid()
      modifies this`lastReclaimed, this`reclaims
      ensures Valid() && State() == old(State()).(lastReclaimed := id,
                                                  reclaims := (old(State()).reclaims + 1) % 0x1_0000_0000)
    {
      hide Recorded;
      lastReclaimed := id;
      reclaims := (reclaims + 1) % 0x1_0000_0000;
    }

    /** Free what the task owns; the allocator's self-check before and after
        never fails. */
    method ReclaimHeap(id: u8) returns (panic: Option<PanicReason>)
      requires Valid()
      modifies heap, this`log, trace.ring, trace.ring.records
      ensures Valid() && trace.ring.records == old(trace.ring.records)
      ensures panic == None && State() == HeapSwept(old(State()), id)
    {
      hide Valid, State, HeapModel.ReleaseOwner;
      var sound := ValidateHeap();
      if !sound { return Some(HeapReclaim); }
      var released := SweepHeap(id);
      if released != 0 {
        Record(Input(OWNER_RELEASE, 0, id, NO_TASK, if released <= U32_MAX then released else U32_MAX, id, 1));
      }
      sound := ValidateHeap();
      if !sound { return Some(HeapRelease); }
      return None;
    }

    method Reclaim(id: u8) returns (panic: Option<PanicReason>)
      requires Valid()
      modifies Repr()
      ensures Valid() && trace.ring.records == old(trace.ring.records)
      ensures Agrees(Reclaimed(old(State()), id), State(), panic, 0)
    {
      hide Valid, State, HeapSwept, Reset;
      Fields();
      if id == IDLE || id >= TASK_COUNT || schedules[id].state != Exiting || !tcbs[id].claimed {
        return Some(PanicReason.Reclaim);
      }
      panic := ReclaimHeap(id);
      if panic.Some? { return; }
      Fields();
      var ok := Transit(id, Exiting, Dormant);
      ResetTask(id);
      CountReclaim(id);
    }

    /** Commit the outgoing task's departure. */
    method Retire() returns (panic: Option<PanicReason>)
      requires Valid()
      modifies Repr()
      ensures Valid() && trace.ring.records == old(trace.ring.records)
      ensures Agrees(Retired(old(State())), State(), panic, 0)
    {
      hide Valid, State, Reclaimed;
      Fields();
      panic := None;
      if current < TASK_COUNT && schedules[current].state == Running {
        var ok := Transit(current, Running, Ready);
      }
      Fields();
      if current < TASK_COUNT && schedules[current].state == Exiting {
        panic := Reclaim(current);
      }
    }

    method Occupy(next: u8)
      requires Valid()
      modifies this`current, this`active, this`excluded
      ensures Valid() && State() == old(State()).(current := next, active := true, excluded := INVALID)
    {
      hide Recorded;
      current, active, excluded := next, true, INVALID;
    }

    method ClearPending()
      requires Valid()
      modifies this`cause, this`sources, this`pending
      ensures Valid() && State() == old(State()).(cause := 0, sources := 0, pending := false)
    {
      hide Recorded;
      cause, sources, pending := 0, 0, false;
    }

    method MarkStarted(id: u8)
      requires Valid() && id < TASK_COUNT
      modifies tcbs
      ensures Valid()
      ensures var k := old(State()); State() == k.(tcbs := k.tcbs[id := k.tcbs[id].(started := true)])
    {
      hide Recorded;
      tcbs[id] := tcbs[id].(started := true);
    }

    method RecordAlso(input: Input, ghost k: Kernel, ghost inputs: seq<Input>)
      requires Valid() && State() == k.(log := k.log + Singles(k.now, inputs))
      modifies trace.ring, trace.ring.records, this`log
      ensures Valid() && trace.ring.records == old(trace.ring.records)
      ensures State() == k.(log := k.log + Singles(k.now, inputs + [input]))
    {
      hide Valid, State, Emit, Singles;
      RecordedAlso(k, inputs, input);
      Record(input);
    }

    method RecordIdle(next: u8, outgoing: u8)
      requires Valid()
      modifies trace.ring, trace.ring.records, this`log
      ensures Valid() && trace.ring.records == old(trace.ring.records)
      ensures var k := old(State()); State() == k.(log := k.log + Singles(k.now, IdleInputs(next, outgoing)))
    {
      hide Valid, State, Singles, Emit;
      ghost var k := State();
      NoSingles(k.now);
      if outgoing == IDLE && next != IDLE {
        RecordAlso(Input(IDLE_STOP, 0, IDLE as u16, TaskWord(next), 0, 0, 0), k, []);
      }
      if next == IDLE && outgoing != IDLE {
        RecordAlso(Input(IDLE_START, 0, IDLE as u16, TaskWord(outgoing), 0, 0, 0), k, []);
      }
    }

    /** The events of a switch, one after another. */
    method RecordSwitch(next: u8, outgoing: u8, outgoingState: State)
      requires Valid()
      modifies trace.ring, trace.ring.records, this`log
      ensures Valid() && trace.ring.records == old(trace.ring.records)
      ensures var k := old(State());
        State() == k.(log := k.log + Singles(k.now, SwitchInputs(k.sources, k.cause, next, outgoing, outgoingState)))
    {
      hide Valid, State, Singles, Emit, IdleInputs, TaskWord, StateNumber;
      ghost var k := State();
      Fields();
      ghost var inputs := IdleInputs(next, outgoing);
      RecordIdle(next, outgoing);
      Fields();
      if sources != 0 {
        ghost var preempt := Input(TASK_PREEMPT, 0, TaskWord(outgoing), TaskWord(next), sources, 0, 0);
        RecordAlso(Input(TASK_PREEMPT, 0, TaskWord(outgoing), TaskWord(next), sources, 0, 0), k, inputs);
        inputs := inputs + [preempt];
      }
      Fields();
      RecordAlso(Input(CONTEXT_SWITCH, 0, TaskWord(outgoing), TaskWord(next), cause, StateNumber(outgoingState), 0), k,
                 inputs);
    }

    method Begin(next: u8)
      requires Valid() && next < TASK_COUNT
      modifies tcbs, trace.ring, trace.ring.records, this`log
      ensures Valid() && trace.ring.records == old(trace.ring.records)
      ensures State() == Begun(old(State()), next, old(schedules[next]))
    {
      hide Valid, State, Low32, High32;
      Fields();
      if next != IDLE && !tcbs[next].started {
        MarkStarted(next);
        Fields();
        Record(DeadlineInput(TASK_START, schedules[next]));
      }
    }

    method Switch(next: u8, outgoing: u8, outgoingState: State) returns (panic: Option<PanicReason>, resume: nat)
      requires Valid() && next < TASK_COUNT
      modifies Repr()
      ensures Valid() && trace.ring.records == old(trace.ring.records)
      ensures Agrees(Switched(old(State()), next, outgoing, outgoingState), State(), panic, resume)
    {
      hide Valid, State, Begun, SwitchInputs, Singles, StateVerified;
      Fields();
      if sources != 0 && (outgoing == INVALID || outgoing == next) { return Some(PreemptCommit), 0; }
      RecordSwitch(next, outgoing, outgoingState);
      ClearPending();
      Fields();
      Begin(next);
      var verified := VerifyState();
      if !verified { return Some(SwitchState), 0; }
      Fields();
      return None, tcbs[next].savedPsp;
    }

    /** Record the choice and make its task the running and current one. */
    method Enter(next: u8, outgoing: u8)
      requires Valid() && next < TASK_COUNT && schedules[next].state.Ready?
      modifies Repr()
      ensures Valid() && trace.ring.records == old(trace.ring.records)
      ensures State() == Entered(old(State()), next, outgoing)
    {
      hide Valid, State, SelectionBatch;
      Fields();
      RecordSelection(next, outgoing, excluded, DISPATCH);
      Fields();
      var ok := Transit(next, Ready, Running);
      Occupy(next);
    }

    /** Choose the next task and commit the switch to it. */
    method Dispatch(outgoing: u8, outgoingState: State) returns (panic: Option<PanicReason>, resume: nat)
      requires Valid()
      modifies Repr()
      ensures Valid() && trace.ring.records == old(trace.ring.records)
      ensures var k := old(State()); Agrees(Dispatched(k, Chosen(k), outgoing, outgoingState), State(), panic, resume)
    {
      hide Valid, State, Select, Entered, Switched, SavedPspValid, PspValid;
      Fields();
      PspAgrees();
      var selected := SelectTask(excluded);
      var next := if selected == INVALID then IDLE else selected;
      if schedules[next].state != Ready || !SavedPspValid(next, tcbs[next].savedPsp) {
        return Some(PanicReason.NextTask), 0;
      }
      Enter(next, outgoing);
      panic, resume := Switch(next, outgoing, outgoingState);
    }

    /** The PendSV switch: from the stack pointer of the outgoing task to the one
        to resume. */
    method SwitchContext(psp: nat) returns (panic: Option<PanicReason>, resume: nat)
      requires Valid()
      modifies Repr()
      ensures Valid() && trace.ring.records == old(trace.ring.records)
      ensures Agrees(PendSv(old(State()), psp), State(), panic, resume)
    {
      hide Valid, State, Saved, Retired, Dispatched, Chosen;
      Fields();
      resume := 0;
      var outgoing := current;
      var outgoingState := if current < TASK_COUNT then schedules[current].state else Dormant;
      panic := Save(psp);
      if panic.Some? { return; }
      panic := Retire();
      if panic.Some? { return; }
      panic, resume := Dispatch(outgoing, outgoingState);
    }
  }
}
