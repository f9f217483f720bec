/** A misleading step leaves a batch in the log that no numbering can save, so
    the trace of a run decodes only if the run was honest. */
module KernelHonesty {
  import opened Words
  import opened Scheduler
  import opened TraceTypes
  import opened TraceRules
  import opened TraceSelection
  import opened KernelModel
  import opened KernelTasks
  import opened KernelInvariant
  import opened KernelSteps
  import opened KernelRuns
  import opened KernelTrace
  import opened KernelTiming
  import HeapModel

  /** However it is numbered and whatever follows, the decoder refuses. */
  ghost predicate Refused(b: Batch) {
    forall rs: seq<Record>, rest: seq<Record> :: Stamps(rs, b) && SelectionsValid(rs + rest)
        ==> exists i :: 0 <= i < |rs| && !RecordOk(rs[i])
  }

  lemma {:induction false} SingleRefused(tick: u64, i: Input)
    requires !RecordOk(Stamped(tick, 0, i))
    ensures Refused(Batch(tick, [i]))
  {
    hide RecordOk, SelectionsValid;
    forall rs: seq<Record> | Stamps(rs, Batch(tick, [i]))
      ensures exists k :: 0 <= k < |rs| && !RecordOk(rs[k])
    {
      SequenceIsIrrelevant(tick, rs[0].sequence, i);
      assert !RecordOk(rs[0]);
    }
  }

  lemma {:induction false} ChoiceRefused(c: Choice, tick: u64)
    requires WellPosed(c) && !Least(c)
    ensures Refused(Batch(tick, SelectionBatch(c)))
  {
    hide RecordOk, SelectionsValid, SelectionBatch, Least;
    forall rs: seq<Record>, rest: seq<Record> | Stamps(rs, Batch(tick, SelectionBatch(c)))
      ensures !SelectionsValid(rs + rest)
    {
      ChoiceBlocks(c, tick, rs, rest);
    }
  }

  lemma {:induction false} ChoiceBlocks(c: Choice, tick: u64, rs: seq<Record>, rest: seq<Record>)
    requires WellPosed(c) && !Least(c) && Stamps(rs, Batch(tick, SelectionBatch(c)))
    ensures !SelectionsValid(rs + rest)
  {
    hide SnapshotValid, Least, Snapshot, SelectionReason, ReadyMask;
    ChoiceSplits(c, tick, rs);
    var cs := rs[1..];
    SnapshotMembers(c, tick, 1, cs);
    DecoderAgrees(c, tick, rs[0].sequence, cs);
    var all := rs + rest;
    assert all[0] == rs[0] && all[1..1 + |cs|] == cs;
  }

  /** The log ends in a refused batch after good ones. */
  ghost predicate EndsRefused(log: seq<Batch>) {
    log != [] && LogOk(log[..|log| - 1]) && Refused(log[|log| - 1])
  }

  lemma {:induction false} AppendedRefusal(log: seq<Batch>, b: Batch)
    requires LogOk(log) && Refused(b)
    ensures EndsRefused(log + [b])
  {
    hide LogOk, Refused;
    assert (log + [b])[..|log|] == log;
  }

  lemma MisledCreation(w: World, c: TimingConfig, size: nat)
    requires Inv(w) && Formed(w.k) && Create(w.k, c, size).Go? && LogOk(w.k.log)
    requires Challenges(w.k, c, size) && NotBest(w.k, c)
    ensures EndsRefused(Create(w.k, c, size).k.log)
  {
    hide LogOk, StacksOk, HeapOk, CadenceOk, FirstOk, TaskOk, Configure, Reset, Outranks, Before, Announced,
         StateVerified, ConfigValid, SelectionBatch,
         WellPosed, Least, LayoutValid;
    var k := w.k;
    var id := FreeSlot(k, 1);
    DormantIsReset(k.tasks[id], k.now);
    ActiveStates(w);
    ConfiguredJob(id, c, k.now);
    var t := Configure(k.tasks[id], c, k.now).0;
    var k0 := Installed(k, id, t, size);
    AnnouncedLog(k0, id);
    var k1 := Announced(k0, id);
    var choice := Choice(k1.tasks, id, k.current, INVALID, CREATE_PROBE);
    ProbeIsPosed(choice);
    var j :| 1 <= j < TASK_COUNT && k.tasks[j].state.Ready? && !Before(t, k.tasks[j]);
    assert k1.tasks[j] == k.tasks[j];
    ProbeIsNotLeast(choice, j);
    ChoiceRefused(choice, k1.now);
    AppendedRefusal(k1.log, Batch(k1.now, SelectionBatch(choice)));
  }

  lemma ProbeIsPosed(c: Choice)
    requires Shaped(c) && c.purpose == CREATE_PROBE && c.excluded == INVALID && c.incumbent < TASK_COUNT
             && c.incumbent != IDLE
    requires c.selected != c.incumbent && c.selected != IDLE && Runnable(c.tasks[c.selected])
    requires c.tasks[c.incumbent].state.Running? && c.tasks[c.incumbent].jobActive
    ensures WellPosed(c)
  {
  }

  lemma ProbeIsNotLeast(c: Choice, j: int)
    requires WellPosed(c) && c.purpose == CREATE_PROBE && 1 <= j < TASK_COUNT && j != c.selected
    requires c.tasks[j].state.Ready? && c.tasks[j].jobActive && !Before(c.tasks[c.selected], c.tasks[j])
    ensures !Least(c)
  {
    assert Countable(c, j);
  }

  /** A misleading step ends the log with a refused batch. */
  lemma MisleadingStepIsRefused(w: World, e: Event)
    requires Inv(w) && Formed(w.k) && HeapModel.HasCursor(w.k.heap) && Enabled(w.k, e) && Do(w.k, e).Go?
             && LogOk(w.k.log)
    requires Misleads(w.k, e)
    ensures EndsRefused(Do(w.k, e).k.log)
  {
    hide Inv, LogOk, Create, Challenges, NotBest, HeapModel.Alloc, HeapModel.FreeBlock, PointerOffset, RecordOk,
         EndsRefused;
    match e
    case CreateEvent(c, size) => MisledCreation(w, c, size);
    case AllocEvent(size) =>
      var p := HeapModel.Alloc(w.k.heap, size, w.k.current).1;
      var i := Input(ALLOC, 0, TaskWord(w.k.current), NO_TASK, size, PointerOffset(w.k.heapStart, w.k.heapStop, p),
                     if p != 0 then 1 else 0);
      EmptyAllocation(w.k.now, i);
      SingleRefused(w.k.now, i);
      AppendedRefusal(w.k.log, Batch(w.k.now, [i]));
    case FreeEvent(pointer) =>
      FreeOfNull(w.k.heap, w.k.current);
      var i := Input(FREE, 0, TaskWord(w.k.current), NO_TASK, PointerOffset(w.k.heapStart, w.k.heapStop, pointer), 1,
                     1);
      NullFree(w.k.now, w.k.heapStart, w.k.heapStop, i);
      SingleRefused(w.k.now, i);
      AppendedRefusal(w.k.log, Batch(w.k.now, [i]));
  }

  lemma EmptyAllocation(tick: u64, i: Input)
    requires i.event == ALLOC && i.value0 == 0
    ensures !RecordOk(Stamped(tick, 0, i))
  {
  }

  lemma NullFree(tick: u64, start: u32, stop: u32, i: Input)
    requires i.event == FREE && i.value0 == PointerOffset(start, stop, 0) && i.value2 == 1
    ensures !RecordOk(Stamped(tick, 0, i))
  {
  }

  /** The log of a dishonest run has a refused batch right after good ones. */
  lemma {:induction false} DishonestRunsAreRefused(w: World, es: seq<Event>, v: World) returns (n: nat)
    requires Inv(w) && LogOk(w.k.log) && Leads(w, es, v) && !Honest(w, es)
    ensures n < |v.k.log| && LogOk(v.k.log[..n]) && Refused(v.k.log[n])
    decreases |es|
  {
    hide Inv, LogOk, Do, Enabled, Misleads, Refused;
    StepSafe(w, es[0]);
    var o := Do(w.k, es[0]);
    NextKernel(w, es[0], o.k, o.result);
    var w1 := Next(w, es[0], o.k, o.result);
    if Misleads(w.k, es[0]) {
      MisleadingStepIsRefused(w, es[0]);
      RunsExtend(w1, es[1..], v);
      n := |o.k.log| - 1;
      assert v.k.log[..n] == o.k.log[..n];
    } else {
      StepIsWellTraced(w, es[0]);
      n := DishonestRunsAreRefused(w1, es[1..], v);
    }
  }
}
