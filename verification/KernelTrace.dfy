/** Every record the kernel emits satisfies the decoder's rules, except the
    ones named here: a zero-size allocation, a null free, and a creation probe
    for a task that is not the best of the ready ones. */
module KernelTrace {
  import opened Words
  import opened Scheduler
  import opened TraceTypes
  import opened TraceRules
  import opened TraceSelection
  import opened KernelModel
  import opened KernelTasks
  import opened KernelInvariant
  import opened KernelSteps
  import opened KernelRuns
  import HeapChain
  import HeapModel
  import HeapLaws

  /** The decoder's rules for one record. */
  predicate RecordOk(r: Record) {
    && r.schema == SCHEMA && EventValid(r.event) && r.flags == 0 && TaskValid(r.task) && TaskValid(r.related)
    && RoleValid(r) && PayloadValid(r) && r.event != OVERFLOW
  }

  ghost predicate Stamps(rs: seq<Record>, b: Batch) {
    |rs| == |b.inputs| && forall i :: 0 <= i < |rs| ==> rs[i] == Stamped(b.tick, rs[i].sequence, b.inputs[i])
  }

  /** However it is numbered, the batch passes the decoder's record and
      selection rules. */
  ghost predicate BatchOk(b: Batch) {
    && 1 <= |b.inputs| <= MAX_BATCH
    && forall rs :: Stamps(rs, b) ==> SelectionsValid(rs) && forall i :: 0 <= i < |rs| ==> RecordOk(rs[i])
  }

  ghost predicate LogOk(log: seq<Batch>) {
    forall i :: 0 <= i < |log| ==> BatchOk(log[i])
  }

  lemma SequenceIsIrrelevant(tick: u64, s: u32, i: Input)
    ensures RecordOk(Stamped(tick, s, i)) <==> RecordOk(Stamped(tick, 0, i))
  {
  }

  lemma {:induction false} SingleOk(tick: u64, i: Input)
    requires i.event != TASK_SELECT && i.event != SELECT_CANDIDATE
    ensures BatchOk(Batch(tick, [i])) <==> RecordOk(Stamped(tick, 0, i))
  {
    hide RecordOk;
    var b := Batch(tick, [i]);
    if BatchOk(b) {
      assert Stamps([Stamped(tick, 0, i)], b);
      assert [Stamped(tick, 0, i)][0] == Stamped(tick, 0, i);
    }
    forall rs: seq<Record> | RecordOk(Stamped(tick, 0, i)) && Stamps(rs, b)
      ensures SelectionsValid(rs) && forall k :: 0 <= k < |rs| ==> RecordOk(rs[k])
    {
      SequenceIsIrrelevant(tick, rs[0].sequence, i);
      assert rs[0].event == i.event;
      assert SelectionsValid(rs[1..]);
    }
  }

  // ---- Selection batches ----

  lemma SummaryOk(c: Choice, tick: u64, first: u32)
    requires WellPosed(c)
    ensures RecordOk(SummaryRecord(c, tick, first))
  {
    hide Reason, Purpose, Exclusion, EligibleCount, Least;
    SummaryUnpacks(c, tick, first);
    assert ONLY_READY <= SelectionReason(c) <= EXCLUDED_FALLBACK;
  }

  lemma CandidateOk(c: Choice, tick: u64, k: nat, sequence: u32)
    requires WellPosed(c) && k < TASK_COUNT && Listed(c, k)
    ensures RecordOk(Candidate(c, tick, k, sequence))
  {
    hide Meta, StateCode, Priority, ExcludedMark, IncumbentMark, EligibleMark;
    MetaUnpacks(c, tick, k, sequence);
  }

  /** A selection batch passes the decoder exactly when the selected task is
      the least countable candidate. */
  lemma {:induction false} ChoiceBatchOk(c: Choice, tick: u64)
    requires WellPosed(c)
    ensures BatchOk(Batch(tick, SelectionBatch(c))) <==> Least(c)
  {
    hide SnapshotValid, RecordOk, Least, Summary, CandidateInput;
    var b := Batch(tick, SelectionBatch(c));
    forall rs: seq<Record> | Stamps(rs, b)
      ensures SelectionsValid(rs) <==> Least(c)
      ensures forall i :: 0 <= i < |rs| ==> RecordOk(rs[i])
    {
      ChoiceRecords(c, tick, rs);
    }
    var zero := seq(|b.inputs|, i requires 0 <= i < |b.inputs| => Stamped(tick, 0, b.inputs[i]));
    assert Stamps(zero, b);
  }

  lemma {:induction false} ChoiceRecords(c: Choice, tick: u64, rs: seq<Record>)
    requires WellPosed(c) && Stamps(rs, Batch(tick, SelectionBatch(c)))
    ensures SelectionsValid(rs) <==> Least(c)
    ensures forall i :: 0 <= i < |rs| ==> RecordOk(rs[i])
  {
    hide SnapshotValid, RecordOk, Least, Snapshot, Summary, SelectionsValid, Candidate;
    var cs := rs[1..];
    ChoiceSplits(c, tick, rs);
    SummaryOk(c, tick, rs[0].sequence);
    SnapshotMembers(c, tick, 1, cs);
    forall j | 0 <= j < |cs| ensures RecordOk(cs[j]) {
      CandidateOk(c, tick, cs[j].task, cs[j].sequence);
    }
    forall i | 0 <= i < |rs| ensures RecordOk(rs[i]) {
      if i > 0 { assert rs[i] == cs[i - 1]; }
    }
    ChoiceValid(c, tick, rs);
  }

  lemma {:induction false} ChoiceSplits(c: Choice, tick: u64, rs: seq<Record>)
    requires WellPosed(c) && Stamps(rs, Batch(tick, SelectionBatch(c)))
    ensures rs[0] == SummaryRecord(c, tick, rs[0].sequence) && Snapshot(c, tick, 1, rs[1..])
  {
    hide Snapshot, CandidateInput, SelectionReason, ReadyMask;
    var cs := rs[1..];
    var inputs := SelectionBatch(c);
    assert inputs[0] == Summary(c) && inputs[1..] == CandidatesFrom(c, 1);
    forall j | 0 <= j < |cs| ensures cs[j] == Stamped(tick, cs[j].sequence, CandidatesFrom(c, 1)[j]) {
      assert cs[j] == rs[j + 1] && inputs[j + 1] == inputs[1..][j];
    }
    StampedBatchIsSnapshot(c, tick, 1, cs);
  }

  lemma {:induction false} ChoiceValid(c: Choice, tick: u64, rs: seq<Record>)
    requires WellPosed(c) && rs != [] && rs[0] == SummaryRecord(c, tick, rs[0].sequence)
             && Snapshot(c, tick, 1, rs[1..])
    ensures SelectionsValid(rs) <==> Least(c)
  {
    hide SnapshotValid, Least, Snapshot, SelectionReason, ReadyMask;
    var cs := rs[1..];
    SnapshotMembers(c, tick, 1, cs);
    DecoderAgrees(c, tick, rs[0].sequence, cs);
    forall k | 1 <= k <= |cs| ensures rs[k].event == SELECT_CANDIDATE {
      assert rs[k] == cs[k - 1];
    }
    assert rs[1..1 + |cs|] == cs && rs[1 + |cs|..] == [];
  }

  // ---- Sequences of batches ----

  lemma {:induction false} LogConcat(a: seq<Batch>, b: seq<Batch>)
    ensures LogOk(a + b) <==> LogOk(a) && LogOk(b)
  {
    hide BatchOk;
    if LogOk(a + b) {
      forall i | 0 <= i < |a| ensures BatchOk(a[i]) { assert (a + b)[i] == a[i]; }
      forall i | 0 <= i < |b| ensures BatchOk(b[i]) { assert (a + b)[|a| + i] == b[i]; }
    }
  }

  lemma {:induction false} EmitOk(k: Kernel, i: Input)
    requires i.event != TASK_SELECT && i.event != SELECT_CANDIDATE
    ensures LogOk(Emit(k, i).log) <==> LogOk(k.log) && RecordOk(Stamped(k.now, 0, i))
  {
    hide RecordOk, BatchOk;
    var b := Batch(k.now, [i]);
    LogConcat(k.log, [b]);
    SingleOk(k.now, i);
    assert LogOk([b]) <==> BatchOk(b) by { assert [b][0] == b; }
  }

  /** An input that stands for a legal record on its own. */
  predicate Plain(tick: u64, i: Input) {
    i.event != TASK_SELECT && i.event != SELECT_CANDIDATE && RecordOk(Stamped(tick, 0, i))
  }

  predicate AllPlain(tick: u64, inputs: seq<Input>) {
    forall i :: 0 <= i < |inputs| ==> Plain(tick, inputs[i])
  }

  lemma {:induction false} SinglesOk(tick: u64, inputs: seq<Input>)
    requires AllPlain(tick, inputs)
    ensures LogOk(Singles(tick, inputs))
  {
    hide RecordOk, BatchOk;
    forall i | 0 <= i < |inputs| ensures BatchOk(Singles(tick, inputs)[i]) {
      SingleOk(tick, inputs[i]);
    }
  }

  lemma Words64(x: u64)
    ensures Deadline(Low32(x), High32(x)) == x
  {
  }

  // ---- SysTick ----

  lemma AccountedInputs(t: Task, now: u64)
    requires now < U64_MAX && TaskOk(t, now) && 1 <= t.id < TASK_COUNT && !Accounted(t, now + 1).exhausted
    ensures AllPlain(now + 1, Accounted(t, now + 1).inputs)
  {
    hide Low32, High32;
  }

  lemma ReadiedInputs(t: Task, u: Task, now: u64)
    requires now < U64_MAX && TaskOk(t, now) && CountedAt(t, u, now + 1) && 1 <= t.id < TASK_COUNT
    requires !Readied(u, now + 1).exhausted
    ensures AllPlain(now + 1, Readied(u, now + 1).inputs)
  {
    hide Low32, High32;
  }

  lemma TickTaskInputs(t: Task, now: u64)
    requires now < U64_MAX && TaskOk(t, now) && 1 <= t.id < TASK_COUNT && !TickTask(t, now + 1).exhausted
    ensures AllPlain(now + 1, TickTask(t, now + 1).inputs)
  {
    hide Accounted, Readied, TaskOk, Plain, CountedAt;
    AccountedCounts(t, now);
    AccountedInputs(t, now);
    ReadiedInputs(t, Accounted(t, now + 1).task, now);
  }

  lemma {:induction false} TickInputsOk(tasks: seq<Task>, n: nat, now: u64)
    requires now < U64_MAX && TableOk(tasks, now) && n <= TASK_COUNT && !SomeExhausted(tasks, now + 1)
    ensures AllPlain(now + 1, TickInputs(tasks, n, now + 1))
  {
    hide TaskOk, TickTask, Plain;
    if n > 1 {
      TickInputsOk(tasks, n - 1, now);
      TickTaskInputs(tasks[n - 1], now);
    }
  }

  lemma ProbedLog(k: Kernel)
    requires TableOk(k.tasks, k.now) && Formed(k) && PhaseOk(k) && k.active
    requires k.current < TASK_COUNT && k.tasks[k.current].state.Running?
    ensures Probed(k).Go? && (LogOk(k.log) ==> LogOk(Probed(k).k.log))
  {
    hide Select, SelectionBatch, Outranks, BatchOk, PhaseOk, Before, TaskOk;
    PausedTable(k.tasks, k.now, k.current);
    ProbedHolds(k, INVALID);
    CandidateDecides(k.tasks, k.current);
    var candidate := Select(k.tasks, INVALID);
    if candidate != INVALID && candidate != IDLE && Outranks(k.tasks[candidate], k.tasks[k.current]) {
      var c := Choice(k.tasks, candidate, k.current, INVALID, SYSTICK_PROBE);
      var b := Batch(k.now, SelectionBatch(c));
      ProbeIsLeast(k.tasks, k.current);
      ChoiceBatchOk(c, k.now);
      LogConcat(k.log, [b]);
      assert LogOk([b]) by { assert [b][0] == b; }
    }
  }

  /** A SysTick probe names the least of everybody it lists. */
  lemma ProbeIsLeast(tasks: seq<Task>, current: u8)
    requires Indexed(tasks) && |tasks| == TASK_COUNT && current < TASK_COUNT && tasks[current].state.Running?
    requires current != IDLE ==> tasks[current].jobActive
    requires var c := Select(tasks, INVALID); c != INVALID && c != IDLE && Outranks(tasks[c], tasks[current])
    ensures var c := Choice(tasks, Select(tasks, INVALID), current, INVALID, SYSTICK_PROBE);
      WellPosed(c) && Least(c)
  {
    hide Select;
    SelectChoosesMinimum(tasks, INVALID);
    var s := Select(tasks, INVALID);
    assert Eligible(tasks, INVALID, s);
    BeforeIsStrictTotalOrder(tasks[s], tasks[current], tasks[current]);
    var c := Choice(tasks, s, current, INVALID, SYSTICK_PROBE);
    forall j | Countable(c, j) && j != s ensures Before(tasks[s], tasks[j]) {
      if j != current { assert Eligible(tasks, INVALID, j); }
    }
  }

  lemma TickLog(w: World)
    requires Inv(w) && Tick(w.k).Go? && LogOk(w.k.log)
    ensures LogOk(Tick(w.k).k.log)
  {
    hide BatchOk, TickTask, TaskOk, Probed, SomeReady, SomeExhausted, Plain, StacksOk, HeapOk, CadenceOk, FirstOk,
         PhaseOk, LogOk;
    if w.k.running {
      TickInputsOk(w.k.tasks, TASK_COUNT, w.k.now);
      SinglesOk(w.k.now + 1, TickInputs(w.k.tasks, TASK_COUNT, w.k.now + 1));
      LogConcat(w.k.log, Singles(w.k.now + 1, TickInputs(w.k.tasks, TASK_COUNT, w.k.now + 1)));
      TickedHolds(w);
      TickedRunner(w);
      var k1 := Ticked(w.k);
      if SomeReady(w.k.tasks, w.k.now + 1) && w.k.current < TASK_COUNT && k1.tasks[w.k.current].state == Running {
        ProbedLog(k1);
      }
    }
  }

  lemma TickedRunner(w: World)
    requires Inv(w) && w.k.now < U64_MAX && Formed(w.k)
    ensures w.k.current < TASK_COUNT ==> w.k.active
  {
    hide TaskOk, StacksOk, HeapOk, CadenceOk, FirstOk;
  }

  // ---- Services ----

  lemma YieldLog(w: World)
    requires Inv(w) && InService(w.k) && LogOk(w.k.log)
    ensures Yield(w.k).Go? && LogOk(Yield(w.k).k.log)
  {
    hide BatchOk, StacksOk, HeapOk, CadenceOk, FirstOk, LogOk, TaskOk;
    EmitOk(w.k, Input(TASK_YIELD, 0, TaskWord(w.k.current), NO_TASK, 0, 0, 0));
  }

  lemma SleepLog(w: World, ticks: u32)
    requires Inv(w) && InService(w.k) && Sleep(w.k, ticks).Go? && LogOk(w.k.log)
    ensures LogOk(Sleep(w.k, ticks).k.log)
  {
    hide BatchOk, StacksOk, HeapOk, CadenceOk, FirstOk, LogOk, TaskOk, Low32, High32;
    if 0 < ticks <= I32_MAX {
      var t := SleepJob(w.k.tasks[w.k.current], w.k.now, ticks).0;
      Words64(t.wakeOrder);
      EmitOk(w.k, Input(TASK_SLEEP, 0, TaskWord(w.k.current), NO_TASK, Low32(t.wakeOrder), High32(t.wakeOrder), ticks));
    }
  }

  lemma OutcomeLog(k: Kernel, before: Task, after: Task)
    requires LogOk(k.log) && 1 <= after.id < TASK_COUNT && after.jobSequence > 0
    ensures LogOk(EmitOutcome(k, before, after).log) && EmitOutcome(k, before, after).now == k.now
  {
    hide BatchOk, LogOk, Low32, High32;
    EmitOk(k, DeadlineInput(DEADLINE_MISS, after));
    EmitOk(k, DeadlineInput(DEADLINE_MET, after));
  }

  /** What the completion records need. */
  lemma CompletedTask(t: Task, now: u64)
    requires TaskOk(t, now) && t.state.Running? && 1 <= t.id < TASK_COUNT
    ensures var d := CompleteJob(t, now).0; d.id == t.id && d.jobSequence > 0 && d.completedJobs > 0
    ensures var (u, ok) := WaitNextPeriod(t, now);
            t.kind.Periodic? ==> ok && u.id == t.id && u.nextReleaseOrder > now && u.jobSequence > 0
  {
  }

  lemma ExitLog(w: World)
    requires Inv(w) && InService(w.k) && Exit(w.k).Go? && LogOk(w.k.log)
    ensures LogOk(Exit(w.k).k.log)
  {
    hide BatchOk, StacksOk, HeapOk, CadenceOk, FirstOk, LogOk, TaskOk, CompleteJob, EmitOutcome;
    var before := w.k.tasks[w.k.current];
    CompletedTask(before, w.k.now);
    var t := CompleteJob(before, w.k.now).0;
    var k1 := WithTask(w.k, w.k.current, t.(state := Exiting));
    OutcomeLog(k1, before, t);
    EmitOk(EmitOutcome(k1, before, t),
           Input(TASK_EXIT, 0, TaskWord(w.k.current), NO_TASK, t.completedJobs, t.deadlineMisses, 0));
  }

  lemma WaitPeriodLog(w: World)
    requires Inv(w) && InService(w.k) && WaitPeriod(w.k).Go? && LogOk(w.k.log)
    ensures LogOk(WaitPeriod(w.k).k.log)
  {
    hide BatchOk, StacksOk, HeapOk, CadenceOk, FirstOk, LogOk, TaskOk, WaitNextPeriod, EmitOutcome, Low32, High32;
    var before := w.k.tasks[w.k.current];
    if before.kind.Periodic? {
      CompletedTask(before, w.k.now);
      var t := WaitNextPeriod(before, w.k.now).0;
      var k1 := WithTask(w.k, w.k.current, t);
      OutcomeLog(k1, before, t);
      Words64(t.nextReleaseOrder);
      EmitOk(EmitOutcome(k1, before, t),
             Input(TASK_WAIT_PERIOD, 0, TaskWord(w.k.current), NO_TASK, Low32(t.nextReleaseOrder),
                   High32(t.nextReleaseOrder), 0));
    }
  }

  lemma StartLog(k: Kernel)
    requires Start(k).Go? && LogOk(k.log)
    ensures LogOk(Start(k).k.log)
  {
    hide BatchOk, LogOk;
    EmitOk(k, Input(KERNEL_START, 0, NO_TASK, NO_TASK, 0, TASK_COUNT, 0));
  }

  // ---- Memory ----

  lemma AllocPointer(h: HeapModel.Heap, size: u32, owner: u16)
    requires HeapModel.HeapInv(h) && HeapModel.HasCursor(h)
    ensures var p := HeapModel.Alloc(h, size, owner).1; p == 0 || h.begin <= p < h.end
  {
    hide HeapModel.Alloc, HeapModel.HeapInv, HeapLaws.FirstFit, HeapLaws.Grants, HeapModel.Rounded;
    HeapLaws.AllocFailsExactly(h, size, owner);
    if HeapModel.Alloc(h, size, owner).1 != 0 {
      var i := HeapLaws.AllocIsNextFit(h, size, owner);
    }
  }

  /** The record of an allocation is legal exactly when the size is not zero. */
  lemma AllocLog(w: World, size: u32)
    requires Inv(w) && Formed(w.k) && HeapModel.HasCursor(w.k.heap) && LogOk(w.k.log)
    ensures LogOk(MemoryAlloc(w.k, size).k.log) <==> !(MayUseHeap(w.k) && size == 0)
  {
    hide BatchOk, StacksOk, CadenceOk, FirstOk, PhaseOk, LogOk, TaskOk, HeapModel.Alloc, HeapModel.HeapInv;
    if MayUseHeap(w.k) {
      var p := HeapModel.Alloc(w.k.heap, size, w.k.current).1;
      AllocPointer(w.k.heap, size, w.k.current);
      EmitOk(w.k, Input(ALLOC, 0, TaskWord(w.k.current), NO_TASK, size, PointerOffset(w.k.heapStart, w.k.heapStop, p),
                        if p != 0 then 1 else 0));
    }
  }

  lemma FreedPointer(h: HeapModel.Heap, pointer: u32, owner: u16)
    requires HeapModel.HeapInv(h) && pointer != 0 && HeapModel.FreeBlock(h, pointer, owner).1
    ensures h.begin <= pointer < h.end
  {
    hide HeapModel.HeapInv, HeapModel.IndexOf;
  }

  /** The record of a free is legal exactly when the pointer is not null. */
  lemma FreeLog(w: World, pointer: u32)
    requires Inv(w) && Formed(w.k) && LogOk(w.k.log)
    ensures LogOk(MemoryFree(w.k, pointer).k.log) <==> !(MayUseHeap(w.k) && pointer == 0)
  {
    hide BatchOk, StacksOk, CadenceOk, FirstOk, PhaseOk, LogOk, TaskOk, HeapModel.FreeBlock, HeapModel.HeapInv;
    if MayUseHeap(w.k) {
      var ok := HeapModel.FreeBlock(w.k.heap, pointer, w.k.current).1;
      if pointer == 0 { FreeOfNull(w.k.heap, w.k.current); }
      else if ok { FreedPointer(w.k.heap, pointer, w.k.current); }
      EmitOk(w.k, Input(FREE, 0, TaskWord(w.k.current), NO_TASK, PointerOffset(w.k.heapStart, w.k.heapStop, pointer), 1,
                        if ok then 1 else 0));
    }
  }

  lemma FreeOfNull(h: HeapModel.Heap, owner: u16)
    ensures HeapModel.FreeBlock(h, 0, owner) == (h, true)
  {
  }

  // ---- Creation ----

  /** The entry a creation would install. */
  function Newcomer(k: Kernel, c: TimingConfig): Task
    requires Formed(k) && FreeSlot(k, 1) != INVALID
  {
    Configure(k.tasks[FreeSlot(k, 1)], c, k.now).0
  }

  /** A creation that will ask for a switch. */
  predicate Challenges(k: Kernel, c: TimingConfig, size: nat)
    requires Formed(k)
  {
    && !CreationRefused(k, c, size) && k.running && FreeSlot(k, 1) != INVALID
    && Configure(k.tasks[FreeSlot(k, 1)], c, k.now).1
    && Newcomer(k, c).state.Ready? && Outranks(Newcomer(k, c), k.tasks[k.current])
  }

  /** Some ready task comes before the newcomer. */
  predicate NotBest(k: Kernel, c: TimingConfig)
    requires Formed(k) && FreeSlot(k, 1) != INVALID
  {
    exists j :: 1 <= j < TASK_COUNT && k.tasks[j].state.Ready? && !Before(Newcomer(k, c), k.tasks[j])
  }

  lemma AnnouncedLog(k: Kernel, id: u8)
    requires Formed(k) && 1 <= id < TASK_COUNT && LogOk(k.log)
    requires k.tasks[id].state.Ready? || k.tasks[id].state.WaitingRelease?
    requires k.tasks[id].state.Ready? ==> k.tasks[id].jobSequence > 0
    requires k.running ==> 1 <= k.current < TASK_COUNT
    ensures LogOk(Announced(k, id).log)
  {
    hide BatchOk, LogOk, Low32, High32;
    var t := k.tasks[id];
    var creator := if k.running then k.current else INVALID;
    var i := Input(TASK_CREATE, 0, id, TaskWord(creator), KindNumber(t.kind), t.priority, StateNumber(t.state));
    EmitOk(k, i);
    EmitOk(Emit(k, i), DeadlineInput(TASK_RELEASE, t));
  }

  /** A creation probe passes the decoder exactly when the new task comes before
      every other ready task. */
  lemma ChallengedLog(k: Kernel, id: u8)
    requires Formed(k) && CallerOnly(k) && 1 <= id < TASK_COUNT && id != k.current && LogOk(k.log)
             && Challenged(k, id).Go?
    requires k.running ==> k.tasks[k.current].jobActive
    requires forall j :: 1 <= j < TASK_COUNT && k.tasks[j].state.Ready? ==> k.tasks[j].jobActive
    ensures LogOk(Challenged(k, id).k.log) <==>
            !(k.running && k.tasks[id].state.Ready? && Outranks(k.tasks[id], k.tasks[k.current])
              && exists j :: 1 <= j < TASK_COUNT && j != id && k.tasks[j].state.Ready?
                  && !Before(k.tasks[id], k.tasks[j]))
  {
    hide BatchOk, LogOk, SelectionBatch;
    if k.running && k.tasks[id].state == Ready && Outranks(k.tasks[id], k.tasks[k.current]) {
      var c := Choice(k.tasks, id, k.current, INVALID, CREATE_PROBE);
      var b := Batch(k.now, SelectionBatch(c));
      assert WellPosed(c);
      ChoiceBatchOk(c, k.now);
      LogConcat(k.log, [b]);
      assert LogOk([b]) <==> BatchOk(b) by { LogOfOne(b); }
      CreateProbeIsLeast(c);
    }
  }

  lemma LogOfOne(b: Batch)
    ensures LogOk([b]) <==> BatchOk(b)
  {
    hide BatchOk;
    assert [b][0] == b;
  }

  lemma CreateProbeIsLeast(c: Choice)
    requires WellPosed(c) && c.purpose == CREATE_PROBE && c.incumbent != IDLE
    requires Outranks(c.tasks[c.selected], c.tasks[c.incumbent])
    requires forall j :: 1 <= j < TASK_COUNT && c.tasks[j].state.Ready? ==> c.tasks[j].jobActive
    ensures Least(c) <==>
              forall j :: 1 <= j < TASK_COUNT && j != c.selected && c.tasks[j].state.Ready? ==>
                Before(c.tasks[c.selected], c.tasks[j])
  {
    hide Before;
    BeforeIsStrictTotalOrder(c.tasks[c.selected], c.tasks[c.incumbent], c.tasks[c.incumbent]);
    assert forall j :: Countable(c, j) <==> 1 <= j < TASK_COUNT && (Runnable(c.tasks[j]) || j == c.incumbent);
  }

  lemma ActiveStates(w: World)
    requires Inv(w) && Formed(w.k)
    ensures forall j :: 1 <= j < TASK_COUNT && (w.k.tasks[j].state.Ready? || w.k.tasks[j].state.Running?) ==>
              w.k.tasks[j].jobActive && w.k.tasks[j].jobSequence > 0
  {
    assert forall j :: 1 <= j < TASK_COUNT ==> TaskOk(w.k.tasks[j], w.k.now);
  }

  lemma ConfiguredJob(id: u8, c: TimingConfig, now: u64)
    requires Configure(Reset(id), c, now).1
    ensures var t := Configure(Reset(id), c, now).0;
      && t.id == id && (t.state.Ready? || t.state.WaitingRelease?)
      && (t.state.Ready? ==> t.jobActive && t.jobSequence > 0)
  {
    hide ReleaseAt;
    ConfigureHolds(id, c, now);
  }

  lemma CreateLog(w: World, c: TimingConfig, size: nat)
    requires Inv(w) && Formed(w.k) && Create(w.k, c, size).Go? && LogOk(w.k.log)
    ensures LogOk(Create(w.k, c, size).k.log) <==> !(Challenges(w.k, c, size) && NotBest(w.k, c))
  {
    hide BatchOk, LogOk, StackOk, HeapOk, CadenceOk, FirstOk, TaskOk, Configure, Reset, Outranks, Before, Challenged,
         Announced, StateVerified, ConfigValid;
    var k := w.k;
    if !CreationRefused(k, c, size) && FreeSlot(k, 1) != INVALID {
      var id := FreeSlot(k, 1);
      DormantIsReset(k.tasks[id], k.now);
      ActiveStates(w);
      if Configure(k.tasks[id], c, k.now).1 {
        ConfiguredJob(id, c, k.now);
        CreatedLog(w, c, size, id);
      } else {
        assert !Challenges(k, c, size);
      }
    }
  }

  lemma CreatedLog(w: World, c: TimingConfig, size: nat, id: u8)
    requires Inv(w) && Formed(w.k) && Create(w.k, c, size).Go? && LogOk(w.k.log)
    requires !CreationRefused(w.k, c, size) && FreeSlot(w.k, 1) == id != INVALID
             && Configure(w.k.tasks[id], c, w.k.now).1
    requires var t := Configure(w.k.tasks[id], c, w.k.now).0;
      t.id == id && (t.state.Ready? || t.state.WaitingRelease?) && (t.state.Ready? ==> t.jobActive && t.jobSequence > 0)
    ensures LogOk(Create(w.k, c, size).k.log) <==> !(Challenges(w.k, c, size) && NotBest(w.k, c))
  {
    hide BatchOk, LogOk, HeapOk, StacksOk, CadenceOk, FirstOk, TaskOk, Configure, Outranks, Before, Challenged,
         StateVerified, ConfigValid, Low32, High32, RequestPreemption;
    var k := w.k;
    var t := Configure(k.tasks[id], c, k.now).0;
    var k0 := Installed(k, id, t, size);
    var k1 := Announced(k0, id);
    ActiveStates(w);
    AnnouncedLog(k0, id);
    assert k1.tasks == k.tasks[id := t];
    assert Challenged(k1, id).Go?;
    ChallengedLog(k1, id);
    assert forall j :: 1 <= j < TASK_COUNT && k.tasks[j].state.Ready? ==> j != id && k1.tasks[j] == k.tasks[j];
    assert forall j :: 1 <= j < TASK_COUNT && j != id && k1.tasks[j].state.Ready? ==> k1.tasks[j] == k.tasks[j];
  }

  // ---- PendSV ----

  lemma RetiredLog(k: Kernel)
    requires Formed(k) && Retired(k).Go? && LogOk(k.log)
    requires k.current < TASK_COUNT && k.tasks[k.current].state.Exiting? ==> k.current != IDLE
    ensures LogOk(Retired(k).k.log)
  {
    hide BatchOk, LogOk, HeapModel.ReleaseOwner, Reset;
    var n := HeapModel.ReleaseOwner(k.heap, k.current).1;
    var k1 := k.(heap := HeapModel.ReleaseOwner(k.heap, k.current).0);
    EmitOk(k1, Input(OWNER_RELEASE, 0, k.current, NO_TASK, if n <= U32_MAX then n else U32_MAX, k.current, 1));
  }

  /** The choice a dispatch records is well posed and the least one. */
  lemma DispatchIsLeast(w: World)
    requires Inv(w) && Formed(w.k) && w.k.pending
    ensures var table := SettledTasks(w.k);
      var c := Choice(table, Select(table, w.k.excluded), w.k.current, w.k.excluded, DISPATCH);
      c.selected < TASK_COUNT && WellPosed(c) && Least(c)
  {
    hide Select, Outranks, Before, StacksOk, HeapOk, CadenceOk, FirstOk, TaskOk, Reset;
    var table := SettledTasks(w.k);
    SelectChoosesMinimum(table, w.k.excluded);
    SettledIdle(w);
    var c := Choice(table, Select(table, w.k.excluded), w.k.current, w.k.excluded, DISPATCH);
    assert c.selected < TASK_COUNT;
    forall k | Countable(c, k) ensures Eligible(table, w.k.excluded, k) {}
    if w.k.excluded != INVALID {
      ActiveStates(w);
      assert Runnable(table[w.k.excluded]);
    }
    assert c.excluded == INVALID ==> forall k :: Listed(c, k) ==> Countable(c, k);
    assert c.selected == c.excluded ==> forall k :: !Countable(c, k);
    assert Least(c);
  }

  predicate CauseOk(k: Kernel) {
    1 <= k.cause <= 8 && k.sources <= 3
  }

  lemma SwitchInputsOk(k: Kernel, next: u8, outgoing: u8, outgoingState: State)
    requires next < TASK_COUNT && (outgoing == INVALID || outgoing < TASK_COUNT) && CauseOk(k)
    requires k.sources != 0 ==> next != IDLE && outgoing != INVALID
    ensures AllPlain(k.now, SwitchInputs(k.sources, k.cause, next, outgoing, outgoingState))
  {
    var stop := Input(IDLE_STOP, 0, IDLE as u16, TaskWord(next), 0, 0, 0);
    var start := Input(IDLE_START, 0, IDLE as u16, TaskWord(outgoing), 0, 0, 0);
    var preempt := Input(TASK_PREEMPT, 0, TaskWord(outgoing), TaskWord(next), k.sources, 0, 0);
    var switched := Input(CONTEXT_SWITCH, 0, TaskWord(outgoing), TaskWord(next), k.cause, StateNumber(outgoingState),
                          0);
    assert outgoing == IDLE && next != IDLE ==> Plain(k.now, stop);
    assert next == IDLE && outgoing != IDLE ==> Plain(k.now, start);
    assert k.sources != 0 ==> Plain(k.now, preempt);
    assert Plain(k.now, switched);
  }

  lemma DispatchedLog(k: Kernel, next: u8, outgoing: u8, outgoingState: State)
    requires Formed(k) && next < TASK_COUNT && Dispatched(k, next, outgoing, outgoingState).Go? && LogOk(k.log)
    requires (outgoing == INVALID || outgoing < TASK_COUNT) && CauseOk(k) && (k.sources != 0 ==> next != IDLE)
    requires next != IDLE ==> k.tasks[next].jobSequence > 0
    requires var c := Choice(k.tasks, next, outgoing, k.excluded, DISPATCH); WellPosed(c) && Least(c)
    ensures LogOk(Dispatched(k, next, outgoing, outgoingState).k.log)
  {
    hide BatchOk, LogOk, SelectionBatch, SwitchInputs, Singles, WellPosed, Least, AllPlain, StateVerified, PspValid,
         Low32, High32;
    var c := Choice(k.tasks, next, outgoing, k.excluded, DISPATCH);
    var b := Batch(k.now, SelectionBatch(c));
    ChoiceBatchOk(c, k.now);
    LogConcat(k.log, [b]);
    LogOfOne(b);
    var switches := Singles(k.now, SwitchInputs(k.sources, k.cause, next, outgoing, outgoingState));
    SwitchInputsOk(k, next, outgoing, outgoingState);
    SinglesOk(k.now, SwitchInputs(k.sources, k.cause, next, outgoing, outgoingState));
    LogConcat(k.log + [b], switches);
    var begun := DeadlineInput(TASK_START, k.tasks[next].(state := Running));
    var started := Batch(k.now, [begun]);
    LogConcat(k.log + [b] + switches, [started]);
    if next != IDLE {
      SingleOk(k.now, begun);
      LogOfOne(started);
    }
  }

  lemma PendSvLog(w: World, psp: nat)
    requires Inv(w) && Formed(w.k) && Enabled(w.k, PendSvEvent(psp)) && PendSv(w.k, psp).Go? && LogOk(w.k.log)
    ensures LogOk(PendSv(w.k, psp).k.log)
  {
    hide BatchOk, LogOk, TableOk, CadenceOk, HeapOk, StacksOk, Select, Dispatched, PspValid, Saved, Retired, Reset,
         Outranks, WellPosed, Least,
         Outranked, SettledTasks;
    var outgoing := w.k.current;
    SavedHolds(w.k, psp);
    var k1 := Saved(w.k, psp).k;
    HeapSame(w.k, k1);
    RetiredHolds(k1);
    RetiredLog(k1);
    var k2 := Retired(k1).k;
    assert k2.tasks == SettledTasks(w.k) by { SettledSame(w.k, k1); }
    DispatchIsLeast(w);
    var next := Chosen(k2);
    NextIsBest(k2.tasks, k2.excluded, k2.now);
    SettledJob(w, next);
    if k2.sources != 0 { PreemptionStands(k1, k2); PreemptorIsUser(w); }
    DispatchedLog(k2, next, outgoing, if outgoing < TASK_COUNT then w.k.tasks[outgoing].state else Dormant);
  }

  lemma SettledSame(k: Kernel, k': Kernel)
    requires Formed(k) && Formed(k') && k'.tasks == k.tasks && k'.current == k.current
    ensures SettledTasks(k') == SettledTasks(k)
  {
  }

  lemma SettledJob(w: World, next: u8)
    requires Inv(w) && Formed(w.k) && next < TASK_COUNT
    ensures next != IDLE && SettledTasks(w.k)[next].state.Ready? ==> SettledTasks(w.k)[next].jobSequence > 0
  {
    ActiveStates(w);
  }

  /** A pending preemption never ends in idle. */
  lemma PreemptorIsUser(w: World)
    requires Inv(w) && Formed(w.k) && w.k.sources != 0
    ensures Select(SettledTasks(w.k), w.k.excluded) != IDLE
  {
    hide Select, StacksOk, HeapOk, CadenceOk, FirstOk, TaskOk, Outranks, Before;
    var table := SettledTasks(w.k);
    SelectChoosesMinimum(table, w.k.excluded);
    var j :| 1 <= j < TASK_COUNT && j != w.k.current && Outranks(w.k.tasks[j], w.k.tasks[w.k.current]);
    OutranksNeedsReady(w.k.tasks[j], w.k.tasks[w.k.current]);
    ActiveStates(w);
    assert Eligible(table, w.k.excluded, j);
  }

  // ---- Every step ----

  /** The steps whose records the decoder refuses. */
  predicate Misleads(k: Kernel, e: Event)
    requires Formed(k)
  {
    match e
    case AllocEvent(size) => MayUseHeap(k) && size == 0
    case FreeEvent(pointer) => MayUseHeap(k) && pointer == 0
    case CreateEvent(c, size) => Challenges(k, c, size) && NotBest(k, c)
    case _ => false
  }

  /** A step's records all satisfy the decoder exactly when the step does not
      mislead; in particular every dispatch and every SysTick probe does. */
  lemma StepIsWellTraced(w: World, e: Event)
    requires Inv(w) && Formed(w.k) && HeapModel.HasCursor(w.k.heap) && Enabled(w.k, e) && Do(w.k, e).Go?
             && LogOk(w.k.log)
    ensures LogOk(Do(w.k, e).k.log) <==> !Misleads(w.k, e)
  {
    hide Inv, LogOk, Create, Start, Yield, Sleep, WaitPeriod, Exit, MemoryAlloc, MemoryFree, Tick, PendSv, Challenges,
         NotBest;
    match e
    case CreateEvent(config, size) => CreateLog(w, config, size);
    case StartEvent => StartLog(w.k);
    case StartSvcEvent =>
    case YieldEvent => YieldLog(w);
    case SleepEvent(ticks) => SleepLog(w, ticks);
    case WaitPeriodEvent => WaitPeriodLog(w);
    case ExitEvent => ExitLog(w);
    case AllocEvent(size) => AllocLog(w, size);
    case FreeEvent(pointer) => FreeLog(w, pointer);
    case TickEvent => TickLog(w);
    case PendSvEvent(psp) => PendSvLog(w, psp);
  }

  /** A run none of whose steps misleads. */
  ghost predicate Honest(w: World, es: seq<Event>)
    decreases |es|
  {
    es != [] ==>
      && Formed(w.k) && HeapModel.HasCursor(w.k.heap) && Enabled(w.k, es[0]) && !Misleads(w.k, es[0])
      && var o := Do(w.k, es[0]);
         o.Go? ==> Honest(Next(w, es[0], o.k, o.result), es[1..])
  }

  /** The log of an honest run satisfies every record and selection rule of the
      decoder. */
  lemma {:induction false} HonestRunsAreWellTraced(w: World, es: seq<Event>, v: World)
    requires Inv(w) && LogOk(w.k.log) && Leads(w, es, v) && Honest(w, es)
    ensures LogOk(v.k.log)
    decreases |es|
  {
    hide Inv, LogOk, Do, Enabled, Misleads;
    if es != [] {
      StepSafe(w, es[0]);
      StepIsWellTraced(w, es[0]);
      var o := Do(w.k, es[0]);
      NextKernel(w, es[0], o.k, o.result);
      HonestRunsAreWellTraced(Next(w, es[0], o.k, o.result), es[1..], v);
    }
  }

  /** A creation misleads only when its caller already runs ahead of a better
      ready task, or has a creation pending: while the running task is first
      among the ready ones, the new task that outranks it is the best of all. */
  lemma CreationByTheFirstIsHonest(w: World, c: TimingConfig, size: nat)
    requires Inv(w) && Formed(w.k) && First(w.k.tasks, w.k.current, INVALID)
    ensures !Misleads(w.k, CreateEvent(c, size))
  {
    hide StacksOk, HeapOk, CadenceOk, FirstOk, TaskOk, Configure, Reset, PhaseOk, ConfigValid;
    if Challenges(w.k, c, size) {
      var t := Newcomer(w.k, c);
      var current := w.k.tasks[w.k.current];
      DormantIsReset(w.k.tasks[FreeSlot(w.k, 1)], w.k.now);
      ConfiguredJob(FreeSlot(w.k, 1), c, w.k.now);
      ActiveStates(w);
      BeforeIsStrictTotalOrder(t, current, current);
      forall j | 1 <= j < TASK_COUNT && w.k.tasks[j].state.Ready? ensures Before(t, w.k.tasks[j]) {
        BeforeIsStrictTotalOrder(t, current, w.k.tasks[j]);
      }
    }
  }

  lemma BootedLogIsEmpty(w: World)
    requires Booted(w)
    ensures w.k.log == [] && LogOk(w.k.log)
  {
    hide HeapModel.Init, LayoutValid, StateVerified;
  }
}
