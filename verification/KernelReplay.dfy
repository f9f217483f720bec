/** The trace tells the table: a reader of the records alone, who checks every
    number against the tick it stands at and against earlier records, is never
    stopped and ends with the view the kernel itself has. */
module KernelReplay {
  import opened Words
  import opened Scheduler
  import opened TraceTypes
  import opened TraceReplay
  import opened TraceSelection
  import opened KernelModel
  import opened KernelTasks
  import opened KernelInvariant
  import opened KernelSteps
  import opened KernelRuns
  import opened HeapChain
  import HeapModel
  import HeapLaws
  import KernelRequests

  // ---- Reading a log ----

  /** All but the first record only list candidates of a selection. */
  predicate OneFact(inputs: seq<Input>) {
    inputs != [] && forall i :: 1 <= i < |inputs| ==> inputs[i].event == SELECT_CANDIDATE
  }

  /** One batch: a single record, or a selection, of which the summary counts. */
  function SeeBatch(v: View, b: Batch): (r: Option<View>)
    requires Sized(v)
    ensures r.Some? ==> Sized(r.value)
  {
    if OneFact(b.inputs) then See(v, b.tick, b.inputs[0]) else None
  }

  /** The view after a log, or nothing if a record did not fit. */
  function Replay(log: seq<Batch>): (r: Option<View>)
    ensures r.Some? ==> Sized(r.value)
  {
    if log == [] then Some(BLANK)
    else
      match Replay(log[..|log| - 1])
      case None => None
      case Some(v) => SeeBatch(v, log[|log| - 1])
  }

  /** Single records at one tick. */
  function SeeAll(v: View, tick: u64, inputs: seq<Input>): (r: Option<View>)
    requires Sized(v)
    ensures r.Some? ==> Sized(r.value)
  {
    if inputs == [] then Some(v)
    else
      match SeeAll(v, tick, inputs[..|inputs| - 1])
      case None => None
      case Some(u) => See(u, tick, inputs[|inputs| - 1])
  }

  lemma ReplayMore(log: seq<Batch>, b: Batch, v: View)
    requires Replay(log) == Some(v)
    ensures Replay(log + [b]) == SeeBatch(v, b)
  {
    hide See;
    assert (log + [b])[..|log|] == log;
  }

  lemma EmitSeen(k: Kernel, i: Input, v: View)
    requires Replay(k.log) == Some(v)
    ensures Replay(Emit(k, i).log) == See(v, k.now, i)
  {
    hide See;
    ReplayMore(k.log, Batch(k.now, [i]), v);
  }

  lemma {:induction false} SinglesSeen(log: seq<Batch>, tick: u64, inputs: seq<Input>, v: View)
    requires Replay(log) == Some(v)
    ensures SeeAll(v, tick, inputs).Some? ==> Replay(log + Singles(tick, inputs)) == SeeAll(v, tick, inputs)
    decreases |inputs|
  {
    hide See, Replay;
    if inputs == [] {
      assert log + Singles(tick, inputs) == log;
    } else if SeeAll(v, tick, inputs).Some? {
      var n := |inputs| - 1;
      SinglesSeen(log, tick, inputs[..n], v);
      assert log + Singles(tick, inputs) == (log + Singles(tick, inputs[..n])) + [Batch(tick, [inputs[n]])];
      ReplayMore(log + Singles(tick, inputs[..n]), Batch(tick, [inputs[n]]), SeeAll(v, tick, inputs[..n]).value);
    }
  }

  lemma {:induction false} SeeConcat(v: View, tick: u64, a: seq<Input>, b: seq<Input>)
    requires Sized(v) && SeeAll(v, tick, a).Some?
    ensures SeeAll(v, tick, a + b) == SeeAll(SeeAll(v, tick, a).value, tick, b)
    decreases |b|
  {
    hide See;
    if b == [] {
      assert a + b == a;
    } else {
      var n := |b| - 1;
      SeeConcat(v, tick, a, b[..n]);
      assert (a + b)[..|a + b| - 1] == a + b[..n];
    }
  }

  lemma SeeNone(v: View, tick: u64)
    requires Sized(v)
    ensures SeeAll(v, tick, []) == Some(v)
  {
  }

  lemma SeeOne(v: View, tick: u64, i: Input)
    requires Sized(v)
    ensures SeeAll(v, tick, [i]) == See(v, tick, i)
  {
    hide See;
    assert [i][..0] == [];
  }

  // ---- The kernel's own view ----

  function PhaseOf(s: State): Phase {
    match s
    case Dormant => Vacant
    case WaitingRelease => Waiting
    case Ready => Runnable
    case Running => Runnable
    case Sleeping => Asleep
    case Exiting => Leaving
  }

  function SlotOf(t: Task, started: bool): Slot {
    Slot(PhaseOf(t.state), KindNumber(t.kind), t.priority, started, t.absoluteDeadline, t.jobSequence, t.missLatched,
         false, t.missedReleases, t.completedJobs, t.deadlineMisses, t.wakeOrder,
         if t.state.WaitingRelease? && t.jobSequence > 0 then t.nextReleaseOrder else 0)
  }

  function SlotsOf(tasks: seq<Task>, tcbs: seq<Tcb>): (s: seq<Slot>)
    requires |tasks| == |tcbs| == TASK_COUNT
    ensures |s| == TASK_COUNT
    ensures forall i :: 0 <= i < TASK_COUNT ==> s[i] == if i == 0 then EMPTY else SlotOf(tasks[i], tcbs[i].started)
  {
    seq(TASK_COUNT, i requires 0 <= i < TASK_COUNT => if i == 0 then EMPTY else SlotOf(tasks[i], tcbs[i].started))
  }

  /** The live blocks, by owner and offset. */
  function HeldBy(heapStart: nat, chain: seq<Block>): set<Held> {
    set b | b in Live(chain) :: Held(b.owner, Payload(b) - heapStart)
  }

  function ViewOf(k: Kernel): (v: View)
    requires Formed(k)
    ensures Sized(v)
  {
    View(SlotsOf(k.tasks, k.tcbs), k.running, k.current, k.cause, NOBODY, false, false, NOBODY,
         k.reclaims, k.lastReclaimed, HeldBy(k.heapStart, k.heap.chain))
  }

  /** The log reads as what the kernel is in. */
  ghost predicate Told(k: Kernel) {
    Formed(k) && Replay(k.log) == Some(ViewOf(k))
  }

  lemma SplitInstant(x: u64)
    ensures Low32(x) + 4294967296 * High32(x) == x
  {
  }

  lemma DeadlineNames(event: u8, t: Task, started: bool)
    ensures var i := DeadlineInput(event, t);
      i.event == event && i.task == t.id && Instant(i) == t.absoluteDeadline && i.value2 == t.jobSequence
      && NamesJob(SlotOf(t, started), i)
  {
    SplitInstant(t.absoluteDeadline);
  }

  // ---- SysTick, one slot ----

  /** Records about one slot. */
  function SlotAll(s: Slot, tick: u64, inputs: seq<Input>): Option<Slot> {
    if inputs == [] then Some(s)
    else
      match SlotAll(s, tick, inputs[..|inputs| - 1])
      case None => None
      case Some(u) => SeeSlot(u, tick, inputs[|inputs| - 1])
  }

  lemma {:induction false} SlotConcat(s: Slot, tick: u64, a: seq<Input>, b: seq<Input>)
    requires SlotAll(s, tick, a).Some?
    ensures SlotAll(s, tick, a + b) == SlotAll(SlotAll(s, tick, a).value, tick, b)
    decreases |b|
  {
    hide SeeSlot;
    if b == [] {
      assert a + b == a;
    } else {
      var n := |b| - 1;
      SlotConcat(s, tick, a, b[..n]);
      assert (a + b)[..|a + b| - 1] == a + b[..n];
    }
  }

  lemma SlotFew(s: Slot, tick: u64, inputs: seq<Input>)
    requires |inputs| <= 1
    ensures SlotAll(s, tick, inputs) == if inputs == [] then Some(s) else SeeSlot(s, tick, inputs[0])
  {
    hide SeeSlot;
    assert inputs != [] ==> inputs[..0] == [];
  }

  predicate AllOfTick(inputs: seq<Input>, id: u8) {
    forall i :: 0 <= i < |inputs| ==> OfTick(inputs[i].event) && inputs[i].task == id
  }

  lemma SlotRecord(v: View, tick: u64, i: Input, id: u8)
    requires Sized(v) && Quiet(v) && 1 <= id < TASK_COUNT && OfSlot(i.event) && i.task == id
    ensures See(v, tick, i) == Placed(v, id, SeeSlot(v.slots[id], tick, i))
  {
    hide SeeSlot, Placed;
  }

  lemma {:induction false} SlotInView(v: View, tick: u64, inputs: seq<Input>, id: u8)
    requires Sized(v) && Quiet(v) && 1 <= id < TASK_COUNT && AllOfTick(inputs, id)
    requires SlotAll(v.slots[id], tick, inputs).Some?
    ensures SeeAll(v, tick, inputs) == Some(v.(slots := v.slots[id := SlotAll(v.slots[id], tick, inputs).value]))
    decreases |inputs|
  {
    hide See, SeeSlot;
    if inputs == [] {
      assert v.slots[id := v.slots[id]] == v.slots;
    } else {
      var n := |inputs| - 1;
      SlotInView(v, tick, inputs[..n], id);
      var s := SlotAll(v.slots[id], tick, inputs[..n]).value;
      SlotRecord(v.(slots := v.slots[id := s]), tick, inputs[n], id);
      var after := SeeSlot(s, tick, inputs[n]).value;
      assert v.slots[id := s][id := after] == v.slots[id := after];
    }
  }

  /** Nothing is overdue at this tick, before its parts are done. */
  predicate Timely(t: Task, now: u64) {
    && (t.jobActive <==> Active(t.state))
    && (t.jobActive && !t.missLatched ==> now <= t.absoluteDeadline)
    && (Recurring(t) || t.state.WaitingRelease? ==> now <= t.nextReleaseOrder)
    && (t.state.Sleeping? ==> now <= t.wakeOrder)
    && (!t.state.Dormant? ==> Configured(t))
  }

  lemma TickIsTimely(t: Task, now: u64)
    requires now < U64_MAX && TaskOk(t, now)
    ensures Timely(t, now + 1)
  {
  }

  lemma RunningTimeSeen(t: Task, started: bool, now: u64)
    requires Timely(t, now)
    ensures Timely(AccountRunningTick(t), now) && SlotOf(AccountRunningTick(t), started) == SlotOf(t, started)
  {
  }

  lemma MissSeen(t: Task, started: bool, now: u64)
    requires Timely(t, now)
    ensures var r := MissPart(t, now);
      && Timely(r.task, now) && r.task.id == t.id && AllOfTick(r.inputs, t.id)
      && SlotAll(SlotOf(t, started), now, r.inputs) == Some(SlotOf(r.task, started))
  {
    hide Low32, High32, SlotAll, DeadlineInput, NamesJob, Instant;
    var r := MissPart(t, now);
    SlotFew(SlotOf(t, started), now, r.inputs);
    DeadlineNames(DEADLINE_MISS, r.task, started);
    NamedAlike(t, r.task, started, DeadlineInput(DEADLINE_MISS, r.task));
  }

  lemma NamedAlike(t: Task, u: Task, started: bool, i: Input)
    requires t.absoluteDeadline == u.absoluteDeadline && t.jobSequence == u.jobSequence
    ensures NamesJob(SlotOf(t, started), i) <==> NamesJob(SlotOf(u, started), i)
  {
  }

  lemma SkipSeen(t: Task, started: bool, now: u64)
    requires Timely(t, now)
    ensures var r := SkipPart(t, now);
      && Timely(r.task, now) && r.task.id == t.id && AllOfTick(r.inputs, t.id)
      && SlotAll(SlotOf(t, started), now, r.inputs) == Some(SlotOf(r.task, started))
  {
    hide Low32, High32, SlotAll;
    var r := SkipPart(t, now);
    SlotFew(SlotOf(t, started), now, r.inputs);
    SplitInstant(now);
  }

  lemma ReleaseSeen(t: Task, started: bool, now: u64)
    requires Timely(t, now) && !ReleasePart(t, now).exhausted
    ensures var r := ReleasePart(t, now);
      && Timely(r.task, now) && r.task.id == t.id && AllOfTick(r.inputs, t.id)
      && SlotAll(SlotOf(t, started), now, r.inputs) == Some(SlotOf(r.task, started))
  {
    hide Low32, High32, SlotAll, DeadlineInput, NamesJob, Instant;
    var r := ReleasePart(t, now);
    SlotFew(SlotOf(t, started), now, r.inputs);
    DeadlineNames(TASK_RELEASE, r.task, started);
  }

  lemma WakeSeen(t: Task, started: bool, now: u64)
    requires Timely(t, now)
    ensures var r := WakePart(t, now);
      && r.task.id == t.id && AllOfTick(r.inputs, t.id)
      && SlotAll(SlotOf(t, started), now, r.inputs) == Some(SlotOf(r.task, started))
  {
    hide Low32, High32, SlotAll, DeadlineInput, NamesJob, Instant;
    var r := WakePart(t, now);
    SlotFew(SlotOf(t, started), now, r.inputs);
    DeadlineNames(TASK_WAKE, r.task, started);
    NamedAlike(t, r.task, started, DeadlineInput(TASK_WAKE, r.task));
  }

  lemma ThenSeen(s: Slot, now: u64, x: TickOut, y: TickOut, id: u8)
    requires AllOfTick(x.inputs, id) && AllOfTick(y.inputs, id) && SlotAll(s, now, x.inputs).Some?
    ensures AllOfTick(Then(x, y).inputs, id)
    ensures SlotAll(s, now, Then(x, y).inputs) == SlotAll(SlotAll(s, now, x.inputs).value, now, y.inputs)
  {
    hide SlotAll;
    SlotConcat(s, now, x.inputs, y.inputs);
  }

  /** What a tick records of a slot takes its view to the slot after the tick. */
  lemma TickTaskSeen(t: Task, started: bool, now: u64)
    requires Timely(t, now) && !TickTask(t, now).exhausted
    ensures var r := TickTask(t, now);
      AllOfTick(r.inputs, t.id) && SlotAll(SlotOf(t, started), now, r.inputs) == Some(SlotOf(r.task, started))
  {
    hide MissPart, SkipPart, ReleasePart, WakePart, AccountRunningTick, SlotAll, SlotOf, Timely;
    var t1 := AccountRunningTick(t);
    var m := MissPart(t1, now);
    var s := SkipPart(m.task, now);
    var r := ReleasePart(s.task, now);
    var w := WakePart(r.task, now);
    RunningTimeSeen(t, started, now);
    assert t1.id == t.id by { KeepsId(t); }
    MissSeen(t1, started, now);
    SkipSeen(m.task, started, now);
    ThenSeen(SlotOf(t, started), now, m, s, t.id);
    ReleaseSeen(s.task, started, now);
    WakeSeen(r.task, started, now);
    ThenSeen(SlotOf(s.task, started), now, r, w, t.id);
    ThenSeen(SlotOf(t, started), now, Then(m, s), Then(r, w), t.id);
  }

  lemma KeepsId(t: Task)
    ensures AccountRunningTick(t).id == t.id
  {
  }

  // ---- SysTick, the table ----

  /** The view while the loop has done the slots before n. */
  function PartView(k: Kernel, n: nat): (v: View)
    requires Formed(k) && n <= TASK_COUNT && k.now < U64_MAX
    ensures Sized(v)
  {
    hide TickTask;
    ViewOf(k).(slots := seq(TASK_COUNT, i requires 0 <= i < TASK_COUNT =>
      if 1 <= i < n then SlotOf(TickTask(k.tasks[i], k.now + 1).task, k.tcbs[i].started) else ViewOf(k).slots[i]))
  }

  lemma FirstPart(k: Kernel)
    requires Formed(k) && k.now < U64_MAX
    ensures PartView(k, 1) == ViewOf(k)
  {
    hide TickTask, SlotOf, HeldBy;
  }

  lemma NextPart(k: Kernel, n: nat)
    requires Formed(k) && 1 <= n < TASK_COUNT && k.now < U64_MAX
    ensures var v := PartView(k, n);
      && Quiet(v) && v.slots[n] == SlotOf(k.tasks[n], k.tcbs[n].started)
      && PartView(k, n + 1)
         == v.(slots := v.slots[n := SlotOf(TickTask(k.tasks[n], k.now + 1).task, k.tcbs[n].started)])
  {
    hide TickTask, SlotOf, HeldBy;
    var v := PartView(k, n);
    assert PartView(k, n + 1).slots
           == v.slots[n := SlotOf(TickTask(k.tasks[n], k.now + 1).task, k.tcbs[n].started)];
  }

  lemma {:induction false} TickInputsSeen(k: Kernel, n: nat)
    requires Formed(k) && 1 <= n <= TASK_COUNT && k.now < U64_MAX && !SomeExhausted(k.tasks, k.now + 1)
    requires forall i :: 1 <= i < TASK_COUNT ==> Timely(k.tasks[i], k.now + 1)
    ensures SeeAll(ViewOf(k), k.now + 1, TickInputs(k.tasks, n, k.now + 1)) == Some(PartView(k, n))
  {
    hide TickTask, SlotAll, SlotOf, Timely, See, PartView, ViewOf, SeeAll;
    if n == 1 {
      FirstPart(k);
      SeeNone(ViewOf(k), k.now + 1);
    } else {
      TickInputsSeen(k, n - 1);
      var t := k.tasks[n - 1];
      TickTaskSeen(t, k.tcbs[n - 1].started, k.now + 1);
      NextPart(k, n - 1);
      SlotInView(PartView(k, n - 1), k.now + 1, TickTask(t, k.now + 1).inputs, n - 1);
      SeeConcat(ViewOf(k), k.now + 1, TickInputs(k.tasks, n - 1, k.now + 1), TickTask(t, k.now + 1).inputs);
    }
  }

  lemma TickedTold(k: Kernel)
    requires Told(k) && TableOk(k.tasks, k.now) && k.now < U64_MAX && !SomeExhausted(k.tasks, k.now + 1)
    ensures Told(Ticked(k))
  {
    hide TickTask, SlotOf, Timely, Replay, SomeExhausted, TaskOk, SeeAll, TickInputs;
    forall i | 1 <= i < TASK_COUNT ensures Timely(k.tasks[i], k.now + 1) {
      TickIsTimely(k.tasks[i], k.now);
    }
    TickInputsSeen(k, TASK_COUNT);
    SinglesSeen(k.log, k.now + 1, TickInputs(k.tasks, TASK_COUNT, k.now + 1), ViewOf(k));
    assert ViewOf(Ticked(k)).slots == PartView(k, TASK_COUNT).slots;
  }

  // ---- Selections ----

  lemma {:induction false} CandidatesAreListed(c: Choice, k: nat)
    requires Shaped(c) && 1 <= k <= TASK_COUNT
    ensures forall i :: 0 <= i < |CandidatesFrom(c, k)| ==> CandidatesFrom(c, k)[i].event == SELECT_CANDIDATE
    decreases TASK_COUNT - k
  {
    if k < TASK_COUNT {
      CandidatesAreListed(c, k + 1);
    }
  }

  lemma SummarySeen(v: View, c: Choice, tick: u64)
    requires Sized(v) && Quiet(v) && Shaped(c) && c.purpose < 256 && TaskWord(c.incumbent) == Word(v.current)
    ensures SeeBatch(v, Batch(tick, SelectionBatch(c)))
            == if c.purpose == 1 then Some(v.(chosen := c.selected))
               else if AfterProbe(c.purpose, v.why).Some? then Some(v.(why := AfterProbe(c.purpose, v.why).value))
               else None
  {
    hide SelectionReason, EligibleFrom, CandidatesFrom, ListedFrom, ReadyMask;
    UnpackSummary(SelectionReason(c), c.purpose, c.excluded, EligibleFrom(c, 1));
    CandidatesAreListed(c, 1);
  }

  lemma SelectionSeen(k: Kernel, c: Choice, v: View)
    requires Replay(k.log) == Some(v) && Quiet(v) && Shaped(c) && c.purpose < 256
    requires TaskWord(c.incumbent) == Word(v.current)
    ensures Replay(EmitSelection(k, c).log)
            == if c.purpose == 1 then Some(v.(chosen := c.selected))
               else if AfterProbe(c.purpose, v.why).Some? then Some(v.(why := AfterProbe(c.purpose, v.why).value))
               else None
  {
    hide SelectionBatch, SeeBatch, AfterProbe;
    SummarySeen(v, c, k.now);
    ReplayMore(k.log, Batch(k.now, SelectionBatch(c)), v);
  }

  lemma WordIsTaskWord(id: u8)
    ensures TaskWord(id) == Word(id)
  {
  }

  /** The recorded cause is that of the sources, and a running task has asked for
      no switch but by creating its successor. */
  predicate CauseOk(k: Kernel)
    requires Formed(k)
  {
    && (k.active ==> k.current < TASK_COUNT && SourcesOf(k.cause) == k.sources)
    && (!k.active ==> k.sources == 0 && SourcesOf(k.cause) == 0)
    && (k.active && k.tasks[k.current].state.Running? ==>
          (k.cause == 0 && k.sources == 0) || (k.cause == CAUSE_CREATE && k.sources == SOURCE_CREATE))
  }

  lemma PhaseGivesCause(k: Kernel)
    requires Formed(k) && PhaseOk(k)
    ensures CauseOk(k)
  {
    hide Outranked;
  }

  lemma ProbedTold(k: Kernel)
    requires Told(k) && PhaseOk(k) && k.active && k.current < TASK_COUNT && k.tasks[k.current].state.Running?
    ensures Probed(k).Go? ==> Told(Probed(k).k)
  {
    hide Select, SelectionBatch, Outranks, Replay, PhaseOk, SlotOf, HeldBy;
    PhaseGivesCause(k);
    var candidate := Select(k.tasks, INVALID);
    if candidate != INVALID && candidate != IDLE && Outranks(k.tasks[candidate], k.tasks[k.current]) {
      var c := Choice(k.tasks, candidate, k.current, INVALID, 2);
      WordIsTaskWord(k.current);
      SelectionSeen(k, c, ViewOf(k));
      var k' := Probed(k).k;
      AlikeWhenPaused(k.tasks[k.current], k.tcbs[k.current].started);
      assert SlotsOf(k'.tasks, k'.tcbs) == SlotsOf(k.tasks, k.tcbs);
    }
  }

  lemma TickTold(w: World)
    requires Inv(w) && Told(w.k) && Tick(w.k).Go?
    ensures Told(Tick(w.k).k)
  {
    hide TaskOk, StacksOk, HeapOk, CadenceOk, FirstOk, TickTask, Told, Probed, SomeReady, SomeExhausted, TickTable,
         TickInputs, Singles, PhaseOk, TableOk;
    ToldIsFormed(w.k);
    if w.k.running {
      TickedTold(w.k);
      TickedHolds(w);
      var k1 := Ticked(w.k);
      if SomeReady(w.k.tasks, w.k.now + 1) && w.k.current < TASK_COUNT && k1.tasks[w.k.current].state.Running? {
        RunnerIsActive(k1);
        ProbedTold(k1);
      }
    }
  }

  lemma ToldIsFormed(k: Kernel)
    requires Told(k)
    ensures Formed(k)
  {
  }

  lemma RunnerIsActive(k: Kernel)
    requires Formed(k) && PhaseOk(k) && k.current < TASK_COUNT
    ensures k.active
  {
  }

  // ---- Services ----

  lemma SlotsUpdated(k: Kernel, id: u8, t: Task)
    requires Formed(k) && 1 <= id < TASK_COUNT
    ensures SlotsOf(k.tasks[id := t], k.tcbs) == SlotsOf(k.tasks, k.tcbs)[id := SlotOf(t, k.tcbs[id].started)]
  {
    hide SlotOf;
  }

  lemma CallerIsRunnable(w: World)
    requires Inv(w) && Formed(w.k) && InService(w.k)
    ensures w.k.cause == 0 && w.k.sources == 0 && 1 <= w.k.current < TASK_COUNT
    ensures TaskOk(w.k.tasks[w.k.current], w.k.now) && w.k.tasks[w.k.current].jobActive
  {
    hide StacksOk, HeapOk, CadenceOk, FirstOk;
    assert TaskOk(w.k.tasks[w.k.current], w.k.now);
  }

  lemma YieldTold(w: World)
    requires Inv(w) && Told(w.k) && InService(w.k)
    ensures Told(Yield(w.k).k)
  {
    hide Inv, Replay, SlotOf;
    CallerIsRunnable(w);
    var k, v := w.k, ViewOf(w.k);
    var t := k.tasks[k.current].(state := Ready);
    SlotsUpdated(k, k.current, t);
    AlikeWhenPaused(k.tasks[k.current], k.tcbs[k.current].started);
    EmitSeen(k, Input(TASK_YIELD, 0, TaskWord(k.current), NO_TASK, 0, 0, 0), v);
    assert v.slots[k.current := v.slots[k.current]] == v.slots;
  }

  lemma AlikeWhenPaused(t: Task, started: bool)
    requires t.state.Running?
    ensures SlotOf(t.(state := Ready), started) == SlotOf(t, started) && SlotOf(t, started).phase.Runnable?
  {
  }

  lemma SleepSeen(t: Task, started: bool, now: u64, ticks: u32, i: Input)
    requires SleepJob(t, now, ticks).1 && i.value2 == ticks && Instant(i) == now + ticks
    ensures Slept(SlotOf(t, started), now, i) == Some(SlotOf(SleepJob(t, now, ticks).0, started))
    ensures SleepJob(t, now, ticks).0 == t.(wakeOrder := now + ticks, state := Sleeping)
  {
    hide Instant;
  }

  lemma SleepTold(w: World, ticks: u32)
    requires Inv(w) && Told(w.k) && InService(w.k) && Sleep(w.k, ticks).Go?
    ensures Told(Sleep(w.k, ticks).k)
  {
    hide Inv, Replay, Low32, High32, SleepJob, SlotOf, Slept;
    CallerIsRunnable(w);
    if 0 < ticks <= I32_MAX {
      var k, v := w.k, ViewOf(w.k);
      var (t, ok) := SleepJob(k.tasks[k.current], k.now, ticks);
      if ok {
        var i := Input(TASK_SLEEP, 0, TaskWord(k.current), NO_TASK, Low32(t.wakeOrder), High32(t.wakeOrder), ticks);
        SplitInstant(t.wakeOrder);
        WokenAt(k.tasks[k.current], k.now, ticks);
        SleepSeen(k.tasks[k.current], k.tcbs[k.current].started, k.now, ticks, i);
        SlotsUpdated(k, k.current, t);
        EmitSeen(k, i, v);
      }
    }
  }

  lemma WokenAt(t: Task, now: u64, ticks: u32)
    requires SleepJob(t, now, ticks).1
    ensures SleepJob(t, now, ticks).0.wakeOrder == now + ticks
  {
  }

  /** The slot view once the outcome of its finished job is recorded. */
  function OutcomeSlot(before: Task, after: Task, started: bool): Slot {
    SlotOf(before, started).(met := !after.missLatched)
  }

  lemma OutcomeSeen(k: Kernel, v: View, id: u8, before: Task, after: Task, started: bool)
    requires Replay(k.log) == Some(v) && Sized(v) && Quiet(v) && 1 <= id < TASK_COUNT && before.id == id
    requires v.slots[id] == SlotOf(before, started) && TaskOk(before, k.now) && before.state.Running?
    requires after == CompleteJob(before, k.now).0
    ensures Replay(EmitOutcome(k, before, after).log)
            == Some(v.(slots := v.slots[id := OutcomeSlot(before, after, started)]))
  {
    hide Replay, Low32, High32, DeadlineInput, Instant, NamesJob;
    CompletionHolds(before, k.now);
    if after.missLatched {
      assert v.slots[id := v.slots[id]] == v.slots;
    } else {
      var i := DeadlineInput(DEADLINE_MET, after);
      DeadlineNames(DEADLINE_MET, after, started);
      NamedAlike(before, after, started, i);
      SlotRecord(v, k.now, i, id);
      EmitSeen(k, i, v);
    }
  }

  lemma ExitTold(w: World)
    requires Inv(w) && Told(w.k) && InService(w.k) && Exit(w.k).Go?
    ensures Told(Exit(w.k).k)
  {
    hide Inv, Replay, TaskOk, CompleteJob, EmitOutcome, Exited, OutcomeSlot, SlotOf;
    CallerIsRunnable(w);
    var k, v := w.k, ViewOf(w.k);
    var before := k.tasks[k.current];
    var t := CompleteJob(before, k.now).0;
    CompletionHolds(before, k.now);
    CompletionKeeps(before, k.now);
    var k1 := WithTask(k, k.current, t.(state := Exiting));
    OutcomeSeen(k1, v, k.current, before, t, k.tcbs[k.current].started);
    KernelRequests.OutcomeTouches(k1, before, t);
    OutcomeOnly(k1, before, t);
    var k2 := EmitOutcome(k1, before, t);
    var v1 := v.(slots := v.slots[k.current := OutcomeSlot(before, t, k.tcbs[k.current].started)]);
    SlotsUpdated(k, k.current, t.(state := Exiting));
    var i := Input(TASK_EXIT, 0, TaskWord(k.current), NO_TASK, t.completedJobs, t.deadlineMisses, 0);
    EndSeen(before, t, k.tcbs[k.current].started, k.now, i);
    EmitSeen(k2, i, v1);
    TwiceUpdated(v.slots, k.current, v1.slots[k.current], SlotOf(t.(state := Exiting), k.tcbs[k.current].started));
  }

  lemma TwiceUpdated(s: seq<Slot>, id: int, a: Slot, b: Slot)
    requires 0 <= id < |s|
    ensures s[id := a][id := b] == s[id := b]
  {
  }

  /** The record that ends a job, after its outcome. */
  lemma EndSeen(before: Task, after: Task, started: bool, now: u64, i: Input)
    requires TaskOk(before, now) && before.state.Running? && after == CompleteJob(before, now).0
    ensures var s := OutcomeSlot(before, after, started);
      && (i.value0 == after.completedJobs && i.value1 == after.deadlineMisses ==>
            Exited(s, i) == Some(SlotOf(after.(state := Exiting), started)))
      && (before.kind.Periodic? && Instant(i) == after.nextReleaseOrder ==>
            Waited(s, now, i) == Some(SlotOf(after.(state := WaitingRelease), started)))
  {
    hide Instant, TaskOk, CompleteJob;
    CompletionHolds(before, now);
    CompletionKeeps(before, now);
  }

  lemma OutcomeOnly(k: Kernel, before: Task, after: Task)
    ensures EmitOutcome(k, before, after) == k.(log := EmitOutcome(k, before, after).log)
  {
  }

  /** Completion changes what the view shows only in the completed count. */
  lemma CompletionKeeps(t: Task, now: u64)
    requires TaskOk(t, now) && t.state.Running?
    ensures var d := CompleteJob(t, now).0;
      && d == t.(jobActive := false, completedJobs := SatInc(t.completedJobs), missLatched := d.missLatched,
                 deadlineMisses := d.deadlineMisses)
      && t.jobSequence > 0
      && (t.kind.Periodic? ==> t.nextReleaseOrder > now)
  {
  }

  lemma WaitTold(w: World)
    requires Inv(w) && Told(w.k) && InService(w.k) && WaitPeriod(w.k).Go?
    ensures Told(WaitPeriod(w.k).k)
  {
    hide Inv, Replay, TaskOk, CompleteJob, EmitOutcome, Low32, High32, Waited, OutcomeSlot, SlotOf;
    CallerIsRunnable(w);
    var k, v := w.k, ViewOf(w.k);
    var before := k.tasks[k.current];
    if before.kind.Periodic? {
      var done := CompleteJob(before, k.now).0;
      var t := done.(state := WaitingRelease);
      CompletionHolds(before, k.now);
      CompletionKeeps(before, k.now);
      var k1 := WithTask(k, k.current, t);
      OutcomeAlike(k1, before, t);
      OutcomeAlike(k1, before, done);
      OutcomeSeen(k1, v, k.current, before, done, k.tcbs[k.current].started);
      OutcomeOnly(k1, before, t);
      var k2 := EmitOutcome(k1, before, t);
      var v1 := v.(slots := v.slots[k.current := OutcomeSlot(before, done, k.tcbs[k.current].started)]);
      SlotsUpdated(k, k.current, t);
      SplitInstant(t.nextReleaseOrder);
      var i := Input(TASK_WAIT_PERIOD, 0, TaskWord(k.current), NO_TASK, Low32(t.nextReleaseOrder),
                     High32(t.nextReleaseOrder), 0);
      EndSeen(before, done, k.tcbs[k.current].started, k.now, i);
      EmitSeen(k2, i, v1);
      TwiceUpdated(v.slots, k.current, v1.slots[k.current], SlotOf(t, k.tcbs[k.current].started));
    }
  }

  /** The outcome record does not look at the new state. */
  lemma OutcomeAlike(k: Kernel, before: Task, after: Task)
    ensures forall s :: EmitOutcome(k, before, after) == EmitOutcome(k, before, after.(state := s))
  {
  }

  // ---- Memory and start ----

  /** The live blocks with one more in the middle. */
  lemma HeldAround(heapStart: nat, x: seq<Block>, b: Block, y: seq<Block>, c: seq<Block>, d: seq<Block>)
    requires Live(c) == x + y && Live(d) == x + [b] + y
    ensures HeldBy(heapStart, d) == HeldBy(heapStart, c) + {Held(b.owner, Payload(b) - heapStart)}
  {
    hide Live, Payload;
    assert forall e :: e in Live(d) <==> e in Live(c) || e == b;
  }

  /** Two live blocks never share an address. */
  lemma OthersElsewhere(h: HeapModel.Heap, i: nat, heapStart: nat, c: seq<Block>)
    requires HeapModel.HeapInv(h) && i < |h.chain| && Live(c) == Live(h.chain[..i]) + Live(h.chain[i + 1..])
    ensures forall x :: x in HeldBy(heapStart, c) ==> x.offset != Payload(h.chain[i]) - heapStart
  {
    hide HeapModel.HeapInv, Live;
    forall x | x in HeldBy(heapStart, c) ensures x.offset != Payload(h.chain[i]) - heapStart {
      var b :| b in Live(c) && x == Held(b.owner, Payload(b) - heapStart);
      HeapLaws.OthersInAnotherPlace(h, i, b);
    }
  }

  lemma AllocHeld(k: Kernel, size: u32)
    requires HeapOk(k) && HeapModel.HasCursor(k.heap) && 1 <= k.current < TASK_COUNT
    ensures var (h, p) := HeapModel.Alloc(k.heap, size, k.current);
      var before, after := HeldBy(k.heapStart, k.heap.chain), HeldBy(k.heapStart, h.chain);
      && (p == 0 ==> after == before)
      && (p != 0 ==> k.heapStart <= p < k.heapStop && after == before + {Held(k.current, p - k.heapStart)}
                     && forall x :: x in before ==> x.offset != p - k.heapStart)
  {
    hide HeapModel.HeapInv, Live, HeapModel.Alloc, HeapLaws.FirstFit, HeldBy;
    var (h, p) := HeapModel.Alloc(k.heap, size, k.current);
    HeapLaws.AllocFailsExactly(k.heap, size, k.current);
    if p != 0 {
      var i := HeapLaws.AllocIsNextFit(k.heap, size, k.current);
      var need := HeapModel.Rounded(size).value;
      var g := HeapLaws.Granted(k.heap.chain, i, need, k.current);
      HeldAround(k.heapStart, Live(k.heap.chain[..i]), g, Live(k.heap.chain[i + 1..]), k.heap.chain, h.chain);
      OthersElsewhere(k.heap, i, k.heapStart, k.heap.chain);
    }
  }

  lemma FreeHeld(k: Kernel, pointer: u32)
    requires HeapOk(k) && 1 <= k.current < TASK_COUNT && pointer != 0
    ensures var (h, ok) := HeapModel.FreeBlock(k.heap, pointer, k.current);
      var before, after := HeldBy(k.heapStart, k.heap.chain), HeldBy(k.heapStart, h.chain);
      var x := Held(k.current, PointerOffset(k.heapStart, k.heapStop, pointer));
      && (ok <==> x in before)
      && after == if ok then before - {x} else before
  {
    hide HeapModel.HeapInv, Live, HeapModel.FreeAt, HeapModel.FreeBlock, HeapLaws.Removes, PointerOffset;
    var (h, ok) := HeapModel.FreeBlock(k.heap, pointer, k.current);
    var before := HeldBy(k.heapStart, k.heap.chain);
    var x := Held(k.current, PointerOffset(k.heapStart, k.heapStop, pointer));
    HeapLaws.FreeRemovesExactlyThatBlock(k.heap, pointer, k.current);
    LiveInArena(k);
    LiveMembers(k.heap.chain);
    if ok {
      var i :| HeapLaws.Removes(k.heap, h, i, pointer, k.current);
      FreedHeld(k, h, i, pointer);
    } else {
      forall b | b in Live(k.heap.chain) ensures Held(b.owner, Payload(b) - k.heapStart) != x {
        OffsetTellsPointer(k, b, pointer);
        var j :| 0 <= j < |k.heap.chain| && k.heap.chain[j] == b;
      }
    }
  }

  lemma FreedHeld(k: Kernel, h: HeapModel.Heap, i: nat, pointer: u32)
    requires HeapOk(k) && HeapLaws.Removes(k.heap, h, i, pointer, k.current) && 1 <= k.current < TASK_COUNT
    ensures var before := HeldBy(k.heapStart, k.heap.chain);
      var x := Held(k.current, PointerOffset(k.heapStart, k.heapStop, pointer));
      x in before && HeldBy(k.heapStart, h.chain) == before - {x}
  {
    hide HeapModel.HeapInv, Live, HeldBy, PointerOffset;
    var b := k.heap.chain[i];
    HeldAround(k.heapStart, Live(k.heap.chain[..i]), b, Live(k.heap.chain[i + 1..]), h.chain, k.heap.chain);
    OthersElsewhere(k.heap, i, k.heapStart, h.chain);
    assert b in Live(k.heap.chain);
    LiveInArena(k);
    OffsetTellsPointer(k, b, pointer);
  }

  lemma LiveInArena(k: Kernel)
    requires HeapOk(k)
    ensures forall b :: b in Live(k.heap.chain) ==> k.heapStart <= Payload(b) < k.heapStop
  {
    hide Live, Canonical;
    LiveMembers(k.heap.chain);
    forall b | b in Live(k.heap.chain) ensures k.heapStart <= Payload(b) < k.heapStop {
      var j :| 0 <= j < |k.heap.chain| && k.heap.chain[j] == b;
      TilesAt(k.heap.chain, k.heap.begin, k.heap.end, j);
      assert GoodCapacity(k.heap.chain[j]);
    }
  }

  lemma OffsetTellsPointer(k: Kernel, b: Block, pointer: u32)
    requires k.heapStart <= Payload(b) < k.heapStop
    ensures PointerOffset(k.heapStart, k.heapStop, pointer) == Payload(b) - k.heapStart <==>
            pointer != 0 && pointer == Payload(b)
    ensures Payload(b) != 0
  {
  }

  lemma AllocTold(w: World, size: u32)
    requires Inv(w) && Told(w.k) && HeapModel.HasCursor(w.k.heap)
    ensures MemoryAlloc(w.k, size).Go? && Told(MemoryAlloc(w.k, size).k)
  {
    hide TaskOk, StacksOk, CadenceOk, FirstOk, TableOk, PhaseOk, Replay, SlotOf, HeapModel.Alloc, HeldBy, HeapOk;
    var k, v := w.k, ViewOf(w.k);
    if MayUseHeap(k) {
      var p := HeapModel.Alloc(k.heap, size, k.current).1;
      AllocHeld(k, size);
      EmitSeen(k, Input(ALLOC, 0, TaskWord(k.current), NO_TASK, size, PointerOffset(k.heapStart, k.heapStop, p),
                        if p != 0 then 1 else 0), v);
    }
  }

  lemma FreeTold(w: World, pointer: u32)
    requires Inv(w) && Told(w.k)
    ensures MemoryFree(w.k, pointer).Go? && Told(MemoryFree(w.k, pointer).k)
  {
    hide TaskOk, StacksOk, CadenceOk, FirstOk, TableOk, PhaseOk, Replay, SlotOf, HeapModel.FreeBlock, HeldBy, HeapOk,
         PointerOffset;
    var k, v := w.k, ViewOf(w.k);
    if MayUseHeap(k) {
      var ok := HeapModel.FreeBlock(k.heap, pointer, k.current).1;
      if pointer == 0 {
        NullIsNowhere(k);
        assert v.live - {Held(k.current, NOWHERE)} == v.live;
      } else {
        FreeHeld(k, pointer);
      }
      EmitSeen(k, Input(FREE, 0, TaskWord(k.current), NO_TASK, PointerOffset(k.heapStart, k.heapStop, pointer), 1,
                        if ok then 1 else 0), v);
    }
  }

  /** The null pointer is no block's. */
  lemma NullIsNowhere(k: Kernel)
    requires HeapOk(k)
    ensures HeapModel.FreeBlock(k.heap, 0, k.current) == (k.heap, true)
    ensures PointerOffset(k.heapStart, k.heapStop, 0) == NOWHERE
    ensures forall owner: u16 :: Held(owner, NOWHERE) !in HeldBy(k.heapStart, k.heap.chain)
  {
    hide HeapModel.HeapInv, Live;
    LiveInArena(k);
  }

  lemma StartsTold(w: World)
    requires Inv(w) && Told(w.k)
    ensures !w.k.running ==> Start(w.k).Go? && Told(Start(w.k).k)
    ensures StartSvc(w.k).Go? ==> Told(StartSvc(w.k).k)
  {
    hide TaskOk, StacksOk, HeapOk, CadenceOk, FirstOk, Replay, SlotOf, HeldBy;
    if !w.k.running {
      EmitSeen(w.k, Input(KERNEL_START, 0, NO_TASK, NO_TASK, 0, TASK_COUNT, 0), ViewOf(w.k));
    }
  }

  // ---- Creation ----

  lemma EmptySlotSeen(id: u8)
    ensures SlotOf(Reset(id), false) == EMPTY
  {
  }

  /** The records of a creation, read from a table in which its slot is empty. */
  lemma AnnouncedSeen(k: Kernel, v: View, id: u8, c: TimingConfig)
    requires Formed(k) && Replay(k.log) == Some(v) && Sized(v) && Quiet(v) && 1 <= id < TASK_COUNT
    requires v.slots[id] == EMPTY && v.running == k.running && v.current == k.current
    requires Configure(Reset(id), c, k.now) == (k.tasks[id], true)
    ensures Replay(Announced(k, id).log) == Some(v.(slots := v.slots[id := SlotOf(k.tasks[id], false)]))
  {
    hide Replay, Low32, High32, DeadlineInput, Instant, NamesJob;
    var t := k.tasks[id];
    var creator := if k.running then k.current else INVALID;
    WordIsTaskWord(creator);
    var i := Input(TASK_CREATE, 0, id, TaskWord(creator), KindNumber(t.kind), t.priority, StateNumber(t.state));
    EmitSeen(k, i, v);
    if t.state.Ready? {
      var s := EMPTY.(phase := Arriving, kind := KindNumber(t.kind), priority := t.priority);
      var v1 := v.(slots := v.slots[id := s]);
      assert Replay(Emit(k, i).log) == Some(v1);
      var j := DeadlineInput(TASK_RELEASE, t);
      DeadlineNames(TASK_RELEASE, t, false);
      SlotRecord(v1, k.now, j, id);
      EmitSeen(Emit(k, i), j, v1);
      assert v.slots[id := s][id := SlotOf(t, false)] == v.slots[id := SlotOf(t, false)];
    }
  }

  lemma ChallengedTold(k: Kernel, id: u8)
    requires Told(k) && CauseOk(k) && 1 <= id < TASK_COUNT && CallerOnly(k) && Challenged(k, id).Go?
    ensures Told(Challenged(k, id).k)
  {
    hide Outranks, SelectionBatch, Replay, SlotOf;
    if k.running && k.tasks[id].state == Ready && Outranks(k.tasks[id], k.tasks[k.current]) {
      WordIsTaskWord(k.current);
      SelectionSeen(k, Choice(k.tasks, id, k.current, INVALID, 3), ViewOf(k));
    }
  }

  lemma CreateInTold(k: Kernel, id: u8, c: TimingConfig, size: nat)
    requires Told(k) && CauseOk(k) && CallerOnly(k) && 1 <= id < TASK_COUNT && size >= FRAME_BYTES
    requires k.tasks[id] == Reset(id) && k.tcbs[id] == UNCLAIMED && id != k.current
    requires Configure(k.tasks[id], c, k.now).1 && CreateIn(k, id, c, size).Go?
    ensures Told(CreateIn(k, id, c, size).k)
  {
    hide Configure, Reset, Announced, Challenged, StateVerified, LayoutValid, Replay, SlotOf;
    var t := Configure(k.tasks[id], c, k.now).0;
    var k0 := Installed(k, id, t, size);
    EmptySlotSeen(id);
    AnnouncedSeen(k0, ViewOf(k), id, c);
    var k1 := Announced(k0, id);
    assert ViewOf(k1).slots == ViewOf(k).slots[id := SlotOf(t, false)];
    ChallengedTold(k1, id);
  }

  lemma CreateTold(w: World, c: TimingConfig, size: nat)
    requires Inv(w) && Told(w.k)
    ensures Create(w.k, c, size).Go? && Told(Create(w.k, c, size).k)
  {
    hide TaskOk, HeapOk, CadenceOk, FirstOk, Told, Configure, Reset, Announced, Challenged, StateVerified,
         ConfigValid, LayoutValid, Installed, PhaseOk, PspValid, CauseOk;
    ToldIsFormed(w.k);
    CreateHolds(w, c, size);
    PhaseGivesCause(w.k);
    if !CreationRefused(w.k, c, size) && FreeSlot(w.k, 1) != INVALID {
      var id := FreeSlot(w.k, 1);
      DormantIsReset(w.k.tasks[id], w.k.now);
      assert StackOk(w.k, id);
      if Configure(w.k.tasks[id], c, w.k.now).1 {
        NewcomerIsNotCurrent(w, id);
        CreateInTold(w.k, id, c, size);
      } else {
        EmptySlot(w, id);
      }
    }
  }

  lemma NewcomerIsNotCurrent(w: World, id: u8)
    requires Inv(w) && Formed(w.k) && CallerOnly(w.k) && 1 <= id < TASK_COUNT && w.k.tasks[id].state.Dormant?
    ensures id != w.k.current
  {
    hide TaskOk, StacksOk, HeapOk, CadenceOk, FirstOk;
  }

  // ---- PendSV ----

  /** The records of a switch, read after its dispatch record. */
  lemma SwitchInputsSeen(v: View, tick: u64, outgoingState: State)
    requires Sized(v) && v.chosen < 5 && !v.edge && !v.preempted && v.starting == NOBODY
    requires LeavesAs(v) == StateNumber(outgoingState) && (outgoingState.Exiting? ==> Holdings(v.live, v.current) == {})
    ensures SeeAll(v, tick, SwitchInputs(SourcesOf(v.why), v.why, v.chosen, v.current, outgoingState))
            == Some(AfterSwitch(v))
  {
    hide AfterSwitch, StateNumber, See, LeavesAs;
    var sources, next, outgoing := SourcesOf(v.why), v.chosen, v.current;
    var idle := IdleInputs(next, outgoing);
    var preempt := if sources != 0 then [Input(TASK_PREEMPT, 0, TaskWord(outgoing), TaskWord(next), sources, 0, 0)]
                   else [];
    var switch := Input(CONTEXT_SWITCH, 0, TaskWord(outgoing), TaskWord(next), v.why, StateNumber(outgoingState), 0);
    var v1 := v.(edge := (outgoing == 0) != (next == 0));
    var v2 := v1.(preempted := sources != 0);
    IdleSeen(v, tick);
    PreemptSeen(v1, tick);
    EdgesForgotten(v, v2);
    assert StateNumber(outgoingState) == 5 ==> outgoingState.Exiting? by { FiveIsExiting(outgoingState); }
    SwitchRecord(v2, tick, switch);
    SeeOne(v2, tick, switch);
    SeeConcat(v, tick, idle, preempt);
    SeeConcat(v, tick, idle + preempt, [switch]);
  }

  lemma SwitchRecord(v: View, tick: u64, i: Input)
    requires Sized(v) && v.chosen < 5 && v.starting == NOBODY && i.event == CONTEXT_SWITCH
    requires i.task == TaskWord(v.current) && i.related == TaskWord(v.chosen) && i.value0 == v.why
    requires i.value1 == LeavesAs(v) && v.edge == ((v.current == 0) != (v.chosen == 0))
    requires v.preempted == (SourcesOf(v.why) != 0) && (i.value1 == 5 ==> Holdings(v.live, v.current) == {})
    ensures See(v, tick, i) == Some(AfterSwitch(v))
  {
    hide AfterSwitch, LeavesAs;
  }

  lemma FiveIsExiting(s: State)
    ensures StateNumber(s) == 5 ==> s.Exiting?
  {
  }

  lemma EdgesForgotten(v: View, u: View)
    requires Sized(v) && v.chosen < 5 && u == v.(edge := u.edge, preempted := u.preempted)
    ensures AfterSwitch(u) == AfterSwitch(v) && LeavesAs(u) == LeavesAs(v)
  {
  }

  lemma IdleSeen(v: View, tick: u64)
    requires Sized(v) && v.chosen < 5 && !v.edge && !v.preempted && v.starting == NOBODY
    ensures SeeAll(v, tick, IdleInputs(v.chosen, v.current))
            == Some(v.(edge := (v.current == 0) != (v.chosen == 0)))
  {
    hide See, SeeAll;
    var inputs := IdleInputs(v.chosen, v.current);
    SeeNone(v, tick);
    if v.current == 0 && v.chosen != 0 {
      var i := Input(IDLE_STOP, 0, IDLE as u16, TaskWord(v.chosen), 0, 0, 0);
      assert inputs == [i];
      IdleRecord(v, tick, i);
      SeeOne(v, tick, i);
    } else if v.current != 0 && v.chosen == 0 {
      var i := Input(IDLE_START, 0, IDLE as u16, TaskWord(v.current), 0, 0, 0);
      assert inputs == [i];
      IdleRecord(v, tick, i);
      SeeOne(v, tick, i);
    } else {
      assert inputs == [];
    }
  }

  lemma IdleRecord(v: View, tick: u64, i: Input)
    requires Sized(v) && v.chosen < 5 && !v.edge && !v.preempted && v.starting == NOBODY
    ensures i.event == IDLE_STOP && v.current == 0 && v.chosen != 0 && i.related == TaskWord(v.chosen) ==>
              See(v, tick, i) == Some(v.(edge := true))
    ensures i.event == IDLE_START && v.current != 0 && v.chosen == 0 && i.related == TaskWord(v.current) ==>
              See(v, tick, i) == Some(v.(edge := true))
  {
  }

  lemma PreemptSeen(v: View, tick: u64)
    requires Sized(v) && v.chosen < 5 && !v.preempted && v.starting == NOBODY
    ensures var sources := SourcesOf(v.why);
      var i := Input(TASK_PREEMPT, 0, TaskWord(v.current), TaskWord(v.chosen), sources, 0, 0);
      var inputs := if sources != 0 then [i] else [];
      SeeAll(v, tick, inputs) == Some(v.(preempted := sources != 0))
  {
    SeeNone(v, tick);
    var sources := SourcesOf(v.why);
    if sources != 0 {
      SeeOne(v, tick, Input(TASK_PREEMPT, 0, TaskWord(v.current), TaskWord(v.chosen), sources, 0, 0));
    }
  }

  /** What the outgoing task is recorded with is what the reader expects. */
  lemma LeavesRight(k: Kernel)
    requires Formed(k) && PhaseOk(k) && k.pending
    ensures LeavesAs(ViewOf(k))
            == StateNumber(if k.current < TASK_COUNT then k.tasks[k.current].state else Dormant)
    ensures SourcesOf(k.cause) == k.sources && (k.current == INVALID || k.current < TASK_COUNT)
  {
    hide Outranked, OnlyMayRun;
  }

  /** Releasing what a task holds, read off its record. */
  lemma SweptHeld(k: Kernel, id: u8)
    requires HeapOk(k) && 1 <= id < TASK_COUNT
    ensures var (h, n) := HeapModel.ReleaseOwner(k.heap, id);
      var before, after := HeldBy(k.heapStart, k.heap.chain), HeldBy(k.heapStart, h.chain);
      n == |Holdings(before, id)| <= U32_MAX && after == before - Holdings(before, id)
  {
    hide HeapModel.HeapInv, Live, HeapModel.ReleaseOwner, HeldBy, Holdings, OwnedHeld, Apart;
    HeapLaws.ReleaseKeepsInvAndOthers(k.heap, id);
    LiveApart(k.heap);
    OwnedAreCounted(k.heapStart, Live(k.heap.chain), id);
    FewBlocks(k.heap);
    OwnedIsHoldings(k.heapStart, k.heap.chain, id);
    OthersAreHeld(k.heapStart, k.heap.chain, HeapModel.ReleaseOwner(k.heap, id).0.chain, id);
  }

  lemma OwnedIsHoldings(heapStart: nat, c: seq<Block>, id: u16)
    ensures OwnedHeld(heapStart, Live(c), id) == Holdings(HeldBy(heapStart, c), id)
  {
    hide OwnedHeld, Live;
    OwnedAreHeld(heapStart, Live(c), id);
    forall x ensures x in OwnedHeld(heapStart, Live(c), id) <==> x in Holdings(HeldBy(heapStart, c), id) {
    }
  }

  lemma OthersAreHeld(heapStart: nat, c: seq<Block>, d: seq<Block>, id: u16)
    requires Live(d) == HeapLaws.Others(Live(c), id)
    ensures HeldBy(heapStart, d) == HeldBy(heapStart, c) - Holdings(HeldBy(heapStart, c), id)
  {
    hide Live, HeapLaws.Others;
    OthersHeld(heapStart, Live(c), id);
    forall x ensures x in HeldBy(heapStart, d) <==> x in HeldBy(heapStart, c) && x.owner != id {
    }
  }

  function OwnedHeld(heapStart: nat, s: seq<Block>, id: u16): set<Held> {
    if s == [] then {}
    else (if s[0].owner == id then {Held(id, Payload(s[0]) - heapStart)} else {}) + OwnedHeld(heapStart, s[1..], id)
  }

  lemma {:induction false} OwnedAreHeld(heapStart: nat, s: seq<Block>, id: u16)
    ensures forall x :: x in OwnedHeld(heapStart, s, id) <==>
              x.owner == id && exists b :: b in s && b.owner == id && x.offset == Payload(b) - heapStart
  {
    if s != [] {
      OwnedAreHeld(heapStart, s[1..], id);
      assert s == [s[0]] + s[1..];
    }
  }

  lemma {:induction false} OthersHeld(heapStart: nat, s: seq<Block>, id: u16)
    ensures forall b :: b in HeapLaws.Others(s, id) <==> b in s && b.owner != id
  {
    if s != [] {
      OthersHeld(heapStart, s[1..], id);
      assert s == [s[0]] + s[1..];
    }
  }

  ghost predicate Apart(s: seq<Block>) {
    forall i, j :: 0 <= i < j < |s| ==> s[i].addr != s[j].addr
  }

  lemma LiveApart(h: HeapModel.Heap)
    requires HeapModel.HeapInv(h)
    ensures Apart(Live(h.chain))
  {
    LiveIncreases(h.chain, h.begin, h.end);
  }

  lemma {:induction false} LiveIncreases(c: seq<Block>, begin: nat, end: nat)
    requires Tiles(c, begin, end)
    ensures Apart(Live(c))
  {
    if c != [] {
      LiveIncreases(c[1..], After(c[0]), end);
      LiveStartsAfter(c[1..], After(c[0]), end);
    }
  }

  lemma HeldOnce(heapStart: nat, s: seq<Block>, id: u16)
    requires s != [] && Apart(s)
    ensures Apart(s[1..]) && Held(id, Payload(s[0]) - heapStart) !in OwnedHeld(heapStart, s[1..], id)
  {
    hide OwnedHeld;
    OwnedAreHeld(heapStart, s[1..], id);
    forall b | b in s[1..] ensures Payload(b) != Payload(s[0]) {
      var j :| 0 <= j < |s[1..]| && s[1..][j] == b;
      assert s[j + 1] == b;
    }
  }

  lemma OneMoreHeld(rest: set<Held>, x: Held)
    ensures x !in rest ==> |{x} + rest| == 1 + |rest|
    ensures {} + rest == rest
  {
    assert {x} + rest == rest + {x};
  }

  lemma {:induction false} OwnedAreCounted(heapStart: nat, s: seq<Block>, id: u16)
    requires Apart(s)
    ensures |OwnedHeld(heapStart, s, id)| == HeapModel.OwnedCount(s, id)
  {
    hide Apart, Payload;
    if s != [] {
      HeldOnce(heapStart, s, id);
      OwnedAreCounted(heapStart, s[1..], id);
      OneMoreHeld(OwnedHeld(heapStart, s[1..], id), Held(id, Payload(s[0]) - heapStart));
    }
  }

  lemma FewBlocks(h: HeapModel.Heap)
    requires HeapModel.HeapInv(h)
    ensures forall owner :: HeapModel.OwnedCount(Live(h.chain), owner) <= U32_MAX
  {
    LiveMembers(h.chain);
    TilesUpper(h.chain, h.begin, h.end);
  }

  /** Retiring the outgoing task says at most that its blocks were released, and
      afterwards a task that leaves holds none. */
  lemma RetiredSeen(k: Kernel, v: View)
    requires Formed(k) && Replay(k.log) == Some(v) && Sized(v) && Quiet(v) && v.current == k.current && HeapOk(k)
    requires v.live == HeldBy(k.heapStart, k.heap.chain)
    requires Retired(k).Go?
    ensures var r := Retired(k).k;
      var gone := k.current < TASK_COUNT && k.tasks[k.current].state.Exiting?;
      var after := HeldBy(r.heapStart, r.heap.chain);
      && Replay(r.log) == Some(v.(live := after))
      && (gone ==> Holdings(after, k.current) == {})
      && r.reclaims == (if gone then (k.reclaims + 1) % 0x1_0000_0000 else k.reclaims)
      && r.lastReclaimed == (if gone then k.current else k.lastReclaimed)
      && |r.tcbs| == TASK_COUNT
      && forall i :: 0 <= i < TASK_COUNT ==> r.tcbs[i] == if gone && i == k.current then UNCLAIMED else k.tcbs[i]
  {
    hide Replay, HeapModel.ReleaseOwner, Reset, HeldBy, HeapOk;
    if k.current < TASK_COUNT && k.tasks[k.current].state.Exiting? {
      var n := HeapModel.ReleaseOwner(k.heap, k.current).1;
      SweptHeld(k, k.current);
      assert n == 0 ==> v.live - Holdings(v.live, k.current) == v.live;
      EmitSeen(k, Input(OWNER_RELEASE, 0, k.current, NO_TASK, if n <= U32_MAX then n else U32_MAX, k.current, 1), v);
    }
  }

  /** The start record of a task that never ran. */
  lemma BegunSeen(k: Kernel, next: u8, v: View)
    requires Formed(k) && next < TASK_COUNT && Replay(k.log) == Some(v) && Sized(v)
    requires v.starting == if next != IDLE && !k.tcbs[next].started then next else NOBODY
    requires next != IDLE ==> k.tasks[next].state.Running?
                              && v.slots[next] == SlotOf(k.tasks[next], k.tcbs[next].started)
    ensures var r := Begun(k, next, k.tasks[next]);
      && r == k.(tcbs := r.tcbs, log := r.log) && |r.tcbs| == TASK_COUNT
      && r.tcbs == k.tcbs[next := k.tcbs[next].(started := k.tcbs[next].started || next != IDLE)]
      && Replay(r.log)
         == Some(v.(starting := NOBODY,
                    slots := if next == IDLE then v.slots
                             else v.slots[next := SlotOf(k.tasks[next], true)]))
  {
    hide Replay, DeadlineInput, NamesJob;
    if next != IDLE && !k.tcbs[next].started {
      var i := DeadlineInput(TASK_START, k.tasks[next]);
      DeadlineNames(TASK_START, k.tasks[next], k.tcbs[next].started);
      EmitSeen(k, i, v);
    } else if next != IDLE {
      assert v.slots[next := v.slots[next]] == v.slots;
    }
  }

  /** The log of a dispatch, read from the view before it. */
  lemma DispatchSeen(k: Kernel, next: u8, outgoing: u8, outgoingState: State, v: View)
    requires Formed(k) && next < TASK_COUNT && Replay(k.log) == Some(v) && Sized(v) && Quiet(v)
    requires v.current == outgoing && v.why == k.cause && SourcesOf(k.cause) == k.sources
    requires LeavesAs(v) == StateNumber(outgoingState) && (outgoing == INVALID || outgoing < TASK_COUNT)
    requires Dispatched(k, next, outgoing, outgoingState).Go?
    requires outgoingState.Exiting? ==> Holdings(v.live, outgoing) == {}
    requires next != IDLE ==> v.slots[next] == SlotOf(k.tasks[next], k.tcbs[next].started)
    ensures var r := Dispatched(k, next, outgoing, outgoingState).k;
      var after := AfterSwitch(v.(chosen := next));
      && r == k.(tasks := k.tasks[next := k.tasks[next].(state := Running)], current := next, active := true,
                 excluded := INVALID, cause := 0, sources := 0, pending := false, tcbs := r.tcbs, log := r.log)
      && k.tasks[next].state.Ready?
      && r.tcbs == k.tcbs[next := k.tcbs[next].(started := k.tcbs[next].started || next != IDLE)]
      && Replay(r.log)
         == Some(after.(starting := NOBODY,
                        slots := if next == IDLE then after.slots
                                 else after.slots[next := SlotOf(k.tasks[next], true)]))
  {
    hide Replay, SelectionBatch, Singles, SwitchInputs, Begun, PspValid, StateVerified, LeavesAs, SlotOf, SeeAll;
    var c := Choice(k.tasks, next, outgoing, k.excluded, 1);
    WordIsTaskWord(outgoing);
    SelectionSeen(k, c, v);
    var v1 := v.(chosen := next);
    assert LeavesAs(v1) == LeavesAs(v) by { ChoiceLeavesAlike(v, next); }
    var k1 := Entered(k, next, outgoing);
    SwitchInputsSeen(v1, k.now, outgoingState);
    SinglesSeen(k1.log, k.now, SwitchInputs(k.sources, k.cause, next, outgoing, outgoingState), v1);
    var k2 := k1.(log := k1.log + Singles(k1.now, SwitchInputs(k.sources, k.cause, next, outgoing, outgoingState)),
                  cause := 0, sources := 0, pending := false);
    if next != IDLE {
      RunnableIsKept(v1, next, k.tasks[next], k.tcbs[next].started);
    }
    BegunSeen(k2, next, AfterSwitch(v1));
    RunningAlike(k.tasks[next]);
  }

  lemma ChoiceLeavesAlike(v: View, next: u8)
    requires Sized(v)
    ensures LeavesAs(v.(chosen := next)) == LeavesAs(v)
  {
  }

  lemma RunningAlike(t: Task)
    requires t.state.Ready?
    ensures forall started :: SlotOf(t.(state := Running), started) == SlotOf(t, started)
  {
  }

  /** The chosen task does not leave, so the switch keeps its slot. */
  lemma RunnableIsKept(v: View, next: u8, t: Task, started: bool)
    requires Sized(v) && v.chosen == next && 1 <= next < 5 && v.slots[next] == SlotOf(t, started) && t.state.Ready?
    ensures AfterSwitch(v).slots[next] == SlotOf(t.(state := Running), started)
    ensures AfterSwitch(v).starting == if !started then next else NOBODY
  {
  }

  lemma PendSvTold(w: World, psp: nat)
    requires Inv(w) && Told(w.k) && Enabled(w.k, PendSvEvent(psp))
    ensures PendSv(w.k, psp).Go? && Told(PendSv(w.k, psp).k)
  {
    hide TaskOk, StacksOk, HeapOk, CadenceOk, FirstOk, PhaseOk, TableOk, Replay, Dispatched, PspValid, LeavesAs, Select,
         AfterSwitch, SlotOf, Retired, Settles;
    var k, v := w.k, ViewOf(w.k);
    PendSvHolds(w, psp);
    KernelRequests.SavedBounds(k, psp);
    SavedStarts(k, psp);
    LeavesRight(k);
    var k1 := Saved(k, psp).k;
    HeapSame(k, k1);
    RetiredSeen(k1, v);
    RetiredIsSettled(w, psp);
    var k2 := Retired(k1).k;
    var next := Chosen(k2);
    var state := if k.current < TASK_COUNT then k.tasks[k.current].state else Dormant;
    if next != IDLE { SettledSlot(k, next); }
    IdleStays(k.tasks, k.now);
    var v2 := v.(live := HeldBy(k2.heapStart, k2.heap.chain));
    LiveLeavesAlike(v, v2);
    DispatchSeen(k2, next, k.current, state, v2);
    SwitchedSlots(k, k2, next, PendSv(k, psp).k);
  }

  lemma LiveLeavesAlike(v: View, u: View)
    requires Sized(v) && u == v.(live := u.live)
    ensures LeavesAs(u) == LeavesAs(v)
  {
  }

  lemma IdleStays(tasks: seq<Task>, now: u64)
    requires TableOk(tasks, now)
    ensures !tasks[IDLE].state.Exiting?
  {
  }

  lemma SavedStarts(k: Kernel, psp: nat)
    requires Formed(k) && Saved(k, psp).Go?
    ensures var r := Saved(k, psp).k;
      |r.tcbs| == TASK_COUNT && forall i :: 0 <= i < TASK_COUNT ==> r.tcbs[i].started == k.tcbs[i].started
  {
    hide PspValid;
  }

  lemma RetiredIsSettled(w: World, psp: nat)
    requires Inv(w) && Formed(w.k) && Enabled(w.k, PendSvEvent(psp))
    ensures Saved(w.k, psp).Go? && Retired(Saved(w.k, psp).k).Go?
    ensures var k1 := Saved(w.k, psp).k;
      var k2 := Retired(k1).k;
      && k2 == k1.(tasks := SettledTasks(w.k), tcbs := k2.tcbs, heap := k2.heap, log := k2.log,
                   reclaims := k2.reclaims, lastReclaimed := k2.lastReclaimed)
  {
    hide TaskOk, CadenceOk, FirstOk, TableOk, Retired, HeapOk, StacksOk, PspValid, Outranked;
    SavedHolds(w.k, psp);
    var k1 := Saved(w.k, psp).k;
    HeapSame(w.k, k1);
    RetiredHolds(k1);
  }

  /** A ready entry of the settled table shows like the entry it comes from. */
  lemma SettledSlot(k: Kernel, i: u8)
    requires Formed(k) && 1 <= i < TASK_COUNT
    ensures SettledTasks(k)[i].state.Ready? ==>
              forall started :: SlotOf(SettledTasks(k)[i], started) == SlotOf(k.tasks[i], started)
  {
  }

  /** The reader's table after the switch is the kernel's. */
  lemma SwitchedSlots(k: Kernel, k2: Kernel, next: u8, k': Kernel)
    requires Formed(k) && Formed(k2) && Formed(k') && next < TASK_COUNT && k2.tasks == SettledTasks(k)
    requires k2.tasks[next].state.Ready? && k'.tasks == k2.tasks[next := k2.tasks[next].(state := Running)]
    requires var gone := k.current < TASK_COUNT && k.tasks[k.current].state.Exiting?;
      && (gone ==> k.current != IDLE)
      && (forall i :: 0 <= i < TASK_COUNT ==>
            k2.tcbs[i].started == if gone && i == k.current then false else k.tcbs[i].started)
      && k'.reclaims == (if gone then (k.reclaims + 1) % 0x1_0000_0000 else k.reclaims)
      && k'.lastReclaimed == (if gone then k.current else k.lastReclaimed)
    requires k'.tcbs == k2.tcbs[next := k2.tcbs[next].(started := k2.tcbs[next].started || next != IDLE)]
    requires k'.current == next && k'.cause == 0 && k'.running == k.running
    ensures var after := AfterSwitch(ViewOf(k).(chosen := next, live := HeldBy(k'.heapStart, k'.heap.chain)));
      ViewOf(k') == after.(starting := NOBODY,
                           slots := if next == IDLE then after.slots
                                    else after.slots[next := SlotOf(k2.tasks[next], true)])
  {
    hide SlotOf, HeldBy;
    var after := AfterSwitch(ViewOf(k).(chosen := next, live := HeldBy(k'.heapStart, k'.heap.chain)));
    forall i | 1 <= i < TASK_COUNT && i != next ensures ViewOf(k').slots[i] == after.slots[i] {
      SettledSlotAny(k, i);
    }
    if 1 <= k.current < TASK_COUNT { SettledSlotAny(k, k.current); }
    if next != IDLE { RunningAlike(k2.tasks[next]); }
    assert ViewOf(k').slots == if next == IDLE then after.slots
                               else after.slots[next := SlotOf(k2.tasks[next], true)];
  }

  /** What the switch leaves of an entry: a vacated slot shows empty, any other
      entry shows as before. */
  lemma SettledSlotAny(k: Kernel, i: u8)
    requires Formed(k) && 1 <= i < TASK_COUNT
    ensures i == k.current && k.tasks[i].state.Exiting? ==> SlotOf(SettledTasks(k)[i], false) == EMPTY
    ensures !(i == k.current && k.tasks[i].state.Exiting?) ==>
              forall started :: SlotOf(SettledTasks(k)[i], started) == SlotOf(k.tasks[i], started)
    ensures k.current == i ==> (SlotOf(k.tasks[i], k.tcbs[i].started).phase.Leaving? <==> k.tasks[i].state.Exiting?)
  {
  }

  // ---- Whole runs ----

  lemma StepTold(w: World, e: Event)
    requires Inv(w) && Told(w.k) && HeapModel.HasCursor(w.k.heap) && Enabled(w.k, e) && Do(w.k, e).Go?
    ensures Told(Do(w.k, e).k)
  {
    hide Inv, Replay, ViewOf, Create, Start, StartSvc, Yield, Sleep, WaitPeriod, Exit, MemoryAlloc, MemoryFree, Tick,
         PendSv;
    match e
    case CreateEvent(c, size) => CreateTold(w, c, size);
    case YieldEvent => YieldTold(w);
    case SleepEvent(ticks) => SleepTold(w, ticks);
    case WaitPeriodEvent => WaitTold(w);
    case ExitEvent => ExitTold(w);
    case TickEvent => TickTold(w);
    case AllocEvent(size) => AllocTold(w, size);
    case FreeEvent(pointer) => FreeTold(w, pointer);
    case PendSvEvent(psp) => PendSvTold(w, psp);
    case _ => StartsTold(w);
  }

  lemma {:induction false} RunsTell(w: World, es: seq<Event>, v: World)
    requires Inv(w) && Told(w.k) && Leads(w, es, v)
    ensures Told(v.k)
    decreases |es|
  {
    hide Inv, Told, Do, Enabled;
    if es != [] {
      StepSafe(w, es[0]);
      StepTold(w, es[0]);
      var o := Do(w.k, es[0]);
      NextKernel(w, es[0], o.k, o.result);
      RunsTell(Next(w, es[0], o.k, o.result), es[1..], v);
    }
  }

  lemma BootTold(w: World)
    requires Booted(w)
    ensures Told(w.k)
  {
    hide HeapModel.Init, LayoutValid, StateVerified;
    assert w.k.log == [];
    NothingHeld(w);
    forall i | 1 <= i < TASK_COUNT ensures ViewOf(w.k).slots[i] == EMPTY { EmptySlotSeen(i); }
    assert ViewOf(w.k).slots == BLANK.slots;
  }

  lemma NothingHeld(w: World)
    requires Booted(w)
    ensures HeldBy(w.k.heapStart, w.k.heap.chain) == {}
  {
    hide LayoutValid, StateVerified, Live;
    HeapLaws.LiveOne(w.k.heap.chain[0]);
    assert w.k.heap.chain == [w.k.heap.chain[0]];
    assert Live(w.k.heap.chain) == [];
  }

  /** In every reachable state the reader has accepted every record, and knows of
      every slot its occupant's phase, kind, priority, deadline, job number, miss
      latch, counters, wake-up and announced release, and of the kernel the
      running task, the cause of the pending switch, and the reclaimed slots. */
  lemma TraceTellsTheTable(w: World)
    requires Reachable(w)
    ensures Formed(w.k) && Replay(w.k.log) == Some(ViewOf(w.k))
  {
    hide Inv, Boot, Replay, ViewOf;
    var w0: World, es :| Booted(w0) && Leads(w0, es, w);
    KernelRequests.BootedIsInv(w0);
    BootTold(w0);
    RunsTell(w0, es, w);
  }

  // ---- What single records say ----

  /** This batch releases job n of a task, due at this instant. */
  predicate Releases(b: Batch, task: u16, deadline: u64, job: u32) {
    && b.inputs != [] && b.inputs[0].event == TASK_RELEASE && b.inputs[0].task == task
    && Instant(b.inputs[0]) == deadline && b.inputs[0].value2 == job
  }

  lemma SlotTransition(s: Slot, tick: u64, i: Input)
    requires OfSlot(i.event) && SeeSlot(s, tick, i).Some?
    ensures var u := SeeSlot(s, tick, i).value;
      if i.event == TASK_RELEASE then u.deadline == Instant(i) && u.job == i.value2
      else u.deadline == s.deadline && u.job == s.job && (HasJob(u) <==> HasJob(s))
  {
  }

  /** No other record gives a slot a job or changes the one it has. */
  lemma OtherRecord(v: View, tick: u64, i: Input, t: int)
    requires Sized(v) && See(v, tick, i).Some? && 1 <= t < 5 && HasJob(See(v, tick, i).value.slots[t])
    requires !OfSlot(i.event)
    ensures var u := See(v, tick, i).value.slots[t];
      HasJob(v.slots[t]) && v.slots[t].deadline == u.deadline && v.slots[t].job == u.job
  {
    hide Released, Woken, Missed, Met, Skipped, Instant, NamesJob;
  }

  /** A job can only come from a release record that names it. */
  lemma OneRecord(v: View, b: Batch, t: int)
    requires Sized(v) && SeeBatch(v, b).Some? && 1 <= t < 5 && HasJob(SeeBatch(v, b).value.slots[t])
    ensures var u := SeeBatch(v, b).value;
      || Releases(b, t, u.slots[t].deadline, u.slots[t].job)
      || (HasJob(v.slots[t]) && v.slots[t].deadline == u.slots[t].deadline && v.slots[t].job == u.slots[t].job)
  {
    hide SeeSlot, Instant, See;
    var i := b.inputs[0];
    if OfSlot(i.event) {
      SlotSeen(v, b.tick, i);
      SlotTransition(v.slots[i.task], b.tick, i);
    } else {
      OtherRecord(v, b.tick, i, t);
    }
  }

  lemma SlotSeen(v: View, tick: u64, i: Input)
    requires Sized(v) && See(v, tick, i).Some? && OfSlot(i.event)
    ensures 1 <= i.task < 5 && SeeSlot(v.slots[i.task], tick, i).Some?
    ensures See(v, tick, i).value.slots == v.slots[i.task := SeeSlot(v.slots[i.task], tick, i).value]
  {
    hide SeeSlot;
  }

  lemma {:induction false} JobsComeFromReleases(log: seq<Batch>, t: int)
    requires Replay(log).Some? && 1 <= t < 5 && HasJob(Replay(log).value.slots[t])
    ensures var s := Replay(log).value.slots[t];
      exists m :: 0 <= m < |log| && Releases(log[m], t, s.deadline, s.job)
  {
    hide SeeBatch, Releases;
    if log != [] {
      var n := |log| - 1;
      var before := Replay(log[..n]).value;
      OneRecord(before, log[n], t);
      var s := Replay(log).value.slots[t];
      if !Releases(log[n], t, s.deadline, s.job) {
        JobsComeFromReleases(log[..n], t);
        var m :| 0 <= m < n && Releases(log[..n][m], t, s.deadline, s.job);
        assert log[m] == log[..n][m];
      }
    }
  }

  lemma {:induction false} PrefixRead(log: seq<Batch>, n: nat)
    requires n <= |log| && Replay(log).Some?
    ensures Replay(log[..n]).Some?
    decreases |log|
  {
    hide SeeBatch;
    if n < |log| {
      PrefixRead(log[..|log| - 1], n);
      assert log[..|log| - 1][..n] == log[..n];
    } else {
      assert log[..n] == log;
    }
  }

  /** Every record of a deadline, in every run: a miss stands at exactly the tick
      it names and a met deadline before it; both, and every start and wake-up,
      name the deadline and number of a job that an earlier record released; a
      release comes before the deadline it names, and a skipped release stands
      at the tick it names. */
  lemma DeadlinesAreTold(w: World, n: nat)
    requires Reachable(w) && n < |w.k.log| && w.k.log[n].inputs != []
    ensures var i, tick := w.k.log[n].inputs[0], w.k.log[n].tick;
      var named := i.value0 + 4294967296 * i.value1;
      && (i.event == DEADLINE_MISS || i.event == TASK_RELEASE_SKIPPED ==> tick == named)
      && (i.event == DEADLINE_MET || i.event == TASK_RELEASE ==> tick < named)
      && (i.event in {DEADLINE_MISS, DEADLINE_MET, TASK_WAKE, TASK_START} ==>
            exists m :: 0 <= m < n && Releases(w.k.log[m], i.task, named, i.value2))
  {
    hide Replay, Reachable;
    TraceTellsTheTable(w);
    var log := w.k.log;
    PrefixRead(log, n + 1);
    PrefixRead(log, n);
    assert log[..n + 1] == log[..n] + [log[n]];
    var v := Replay(log[..n]).value;
    ReplayMore(log[..n], log[n], v);
    var i := log[n].inputs[0];
    RecordNamesJob(v, log[n]);
    if i.event in {DEADLINE_MISS, DEADLINE_MET, TASK_WAKE, TASK_START} {
      JobsComeFromReleases(log[..n], i.task);
      var m :| 0 <= m < n && Releases(log[..n][m], i.task, Instant(i), i.value2);
      assert log[m] == log[..n][m];
    }
  }

  lemma RecordNamesJob(v: View, b: Batch)
    requires Sized(v) && SeeBatch(v, b).Some?
    ensures var i := b.inputs[0];
      && (i.event == DEADLINE_MISS || i.event == TASK_RELEASE_SKIPPED ==> b.tick == Instant(i))
      && (i.event == DEADLINE_MET || i.event == TASK_RELEASE ==> b.tick < Instant(i))
      && (i.event in {DEADLINE_MISS, DEADLINE_MET, TASK_WAKE, TASK_START} ==>
            1 <= i.task < 5 && HasJob(v.slots[i.task]) && NamesJob(v.slots[i.task], i))
  {
    hide Instant;
  }
}
