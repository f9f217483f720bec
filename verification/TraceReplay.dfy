/** A reader of the trace: it sees the records and nothing else, keeps a view of
    the task table, and stops at the first record that does not fit its view.
    Every number it compares is read off the record, and every instant a record
    names is compared with the tick it stands at or with an earlier record. */
module TraceReplay {
  import opened Words
  import opened TraceTypes

  /** Where a slot's occupant is, as far as records can tell: a newcomer that is
      ready still owes its release record. */
  datatype Phase = Vacant | Arriving | Waiting | Runnable | Asleep | Leaving

  datatype Slot = Slot(
    phase: Phase,
    kind: u32,
    priority: u32,
    started: bool,
    deadline: u64,
    job: u32,
    latched: bool,
    met: bool,
    skipped: u32,
    completed: u32,
    misses: u32,
    wake: u64,
    next: u64)

  const EMPTY := Slot(Vacant, 0, 0, false, 0, 0, false, false, 0, 0, 0, 0, 0)

  /** A block of the heap, by the offset of its payload. */
  datatype Held = Held(owner: u16, offset: int)

  /** The whole view. `why` is the cause of the next switch; `chosen`, `edge` and
      `preempted` are what has been said of a switch that is not yet recorded,
      and `starting` is a task that runs for the first time; `live` are the blocks
      that have been handed out. 255 is nobody. */
  datatype View = View(
    slots: seq<Slot>,
    running: bool,
    current: u8,
    why: u8,
    chosen: u8,
    edge: bool,
    preempted: bool,
    starting: u8,
    reclaims: u32,
    lastReclaimed: u8,
    live: set<Held>)

  const NOBODY: u8 := 255

  const BLANK := View([EMPTY, EMPTY, EMPTY, EMPTY, EMPTY], false, NOBODY, 0, NOBODY, false, false, NOBODY, 0, NOBODY,
                     {})

  /** A view has five slots. */
  predicate Sized(v: View) {
    |v.slots| == 5
  }

  /** The 64-bit instant in two values, low word first. */
  function Instant(i: Input): u64 {
    i.value0 + 4294967296 * i.value1
  }

  function Word(id: u8): u16 {
    if id == NOBODY then 0xFFFF else id
  }

  // ---- One slot ----

  /** The record names the slot's job and its deadline. */
  predicate NamesJob(s: Slot, i: Input) {
    Instant(i) == s.deadline && i.value2 == s.job
  }

  predicate HasJob(s: Slot) {
    s.phase.Runnable? || s.phase.Asleep?
  }

  function Created(s: Slot, i: Input): Option<Slot> {
    if s.phase.Vacant? && 1 <= i.value2 <= 2 then
      Some(EMPTY.(phase := if i.value2 == 2 then Arriving else Waiting, kind := i.value0, priority := i.value1))
    else None
  }

  /** A job is released at the instant the task was told to wait for, with the
      next number and a deadline still to come. */
  function Released(s: Slot, tick: u64, i: Input): Option<Slot> {
    if (s.phase.Arriving? || s.phase.Waiting?) && i.value2 == SatInc(s.job) && tick < Instant(i)
       && (s.next == 0 || s.next == tick) then
      Some(s.(phase := Runnable, deadline := Instant(i), job := i.value2, latched := false, next := 0))
    else None
  }

  function Woken(s: Slot, tick: u64, i: Input): Option<Slot> {
    if s.phase.Asleep? && NamesJob(s, i) && tick == s.wake then Some(s.(phase := Runnable)) else None
  }

  function Slept(s: Slot, tick: u64, i: Input): Option<Slot> {
    if s.phase.Runnable? && i.value2 > 0 && Instant(i) == tick + i.value2 then
      Some(s.(phase := Asleep, wake := Instant(i)))
    else None
  }

  /** A miss stands at exactly the tick of the deadline it names. */
  function Missed(s: Slot, tick: u64, i: Input): Option<Slot> {
    if HasJob(s) && !s.latched && NamesJob(s, i) && tick == Instant(i) then
      Some(s.(latched := true, misses := SatInc(s.misses)))
    else None
  }

  function Met(s: Slot, tick: u64, i: Input): Option<Slot> {
    if s.phase.Runnable? && !s.latched && !s.met && NamesJob(s, i) && tick < Instant(i) then Some(s.(met := true))
    else None
  }

  /** A job ends with exactly one of the two outcomes recorded. */
  predicate Settled(s: Slot) {
    s.phase.Runnable? && s.met != s.latched
  }

  function Exited(s: Slot, i: Input): Option<Slot> {
    if Settled(s) && i.value0 == SatInc(s.completed) && i.value1 == s.misses then
      Some(s.(phase := Leaving, met := false, completed := i.value0))
    else None
  }

  function Waited(s: Slot, tick: u64, i: Input): Option<Slot> {
    if Settled(s) && Instant(i) > tick then
      Some(s.(phase := Waiting, met := false, completed := SatInc(s.completed), next := Instant(i)))
    else None
  }

  /** A skipped release names the tick it stands at and the running count. */
  function Skipped(s: Slot, tick: u64, i: Input): Option<Slot> {
    if HasJob(s) && Instant(i) == tick && i.value2 == SatInc(s.skipped) then Some(s.(skipped := i.value2))
    else None
  }

  function FirstRun(s: Slot, i: Input): Option<Slot> {
    if s.phase.Runnable? && !s.started && NamesJob(s, i) then Some(s.(started := true)) else None
  }

  /** Records that SysTick writes about one slot. */
  predicate OfTick(event: u8) {
    event in {TASK_RELEASE, TASK_WAKE, DEADLINE_MISS, TASK_RELEASE_SKIPPED}
  }

  /** Records that concern one slot only, wherever they come from. */
  predicate OfSlot(event: u8) {
    OfTick(event) || event == DEADLINE_MET
  }

  function SeeSlot(s: Slot, tick: u64, i: Input): Option<Slot> {
    if i.event == TASK_RELEASE then Released(s, tick, i)
    else if i.event == TASK_WAKE then Woken(s, tick, i)
    else if i.event == DEADLINE_MISS then Missed(s, tick, i)
    else if i.event == DEADLINE_MET then Met(s, tick, i)
    else if i.event == TASK_RELEASE_SKIPPED then Skipped(s, tick, i)
    else None
  }

  // ---- Memory ----

  const NOWHERE := 0xFFFF_FFFF

  function Holdings(live: set<Held>, owner: u16): set<Held> {
    set h | h in live && h.owner == owner
  }

  /** An allocation hands out an address that nobody holds, or fails. */
  function Allocated(live: set<Held>, i: Input): Option<set<Held>> {
    if i.value2 == 0 && i.value1 == NOWHERE then Some(live)
    else if i.value2 == 1 && i.value1 != NOWHERE && forall h :: h in live ==> h.offset != i.value1 then
      Some(live + {Held(i.task, i.value1)})
    else None
  }

  /** A free succeeds on the null pointer and on a block the task holds, and on
      nothing else. */
  function Freed(live: set<Held>, i: Input): Option<set<Held>> {
    var h := Held(i.task, i.value0);
    if i.value2 == 1 && (h in live || i.value0 == NOWHERE) then Some(live - {h})
    else if i.value2 == 0 && h !in live then Some(live)
    else None
  }

  /** A release of everything a task holds names how many blocks that was. */
  function Swept(live: set<Held>, i: Input): Option<set<Held>> {
    if i.value1 == i.task && i.value0 > 0 && i.value0 == |Holdings(live, i.task)| then
      Some(live - Holdings(live, i.task))
    else None
  }

  function SeeMemory(live: set<Held>, i: Input): Option<set<Held>> {
    if i.event == ALLOC then Allocated(live, i)
    else if i.event == FREE then Freed(live, i)
    else Swept(live, i)
  }

  // ---- The whole view ----

  /** No switch is half recorded. */
  predicate Quiet(v: View) {
    v.chosen == NOBODY && !v.edge && !v.preempted && v.starting == NOBODY
  }

  /** Put a slot's new view in place. */
  function Placed(v: View, id: int, s: Option<Slot>): Option<View>
    requires Sized(v) && 1 <= id < 5
  {
    if s.None? then None else Some(v.(slots := v.slots[id := s.value]))
  }

  /** A service of the running task, which asks for a switch for a cause. */
  function Served(v: View, i: Input, s: Option<Slot>, why: u8): Option<View>
    requires Sized(v) && 1 <= i.task < 5
  {
    if v.why != 0 || i.task != v.current || s.None? then None
    else Some(v.(slots := v.slots[i.task := s.value], why := why))
  }

  /** The state an outgoing task is recorded with: idle and a preempted or
      yielding task are READY (2), a task that created its successor is still
      RUNNING (3), and WAITING_RELEASE (1), SLEEPING (4) and EXITING (5) say
      which service it called. */
  function LeavesAs(v: View): u32
    requires Sized(v)
  {
    if v.current == NOBODY then 0
    else if v.current == 0 || v.current >= 5 then 2
    else
      match v.slots[v.current].phase
      case Waiting => 1
      case Asleep => 4
      case Leaving => 5
      case _ => if v.why == 7 then 3 else 2
  }

  /** A probe merges with a request that is already pending. */
  function AfterProbe(purpose: u32, why: u8): Option<u8> {
    if purpose == 2 && why == 0 then Some(6)
    else if purpose == 2 && why == 7 then Some(8)
    else if purpose == 3 && (why == 0 || why == 7) then Some(7)
    else None
  }

  function Selected(v: View, i: Input): Option<View> {
    var purpose := i.value1 / 256 % 256;
    if i.related != Word(v.current) || i.task >= 5 then None
    else if purpose == 1 then Some(v.(chosen := i.task))
    else if AfterProbe(purpose, v.why).Some? then Some(v.(why := AfterProbe(purpose, v.why).value))
    else None
  }

  /** Which sources a preemption of this cause names. */
  function SourcesOf(why: u8): u32 {
    if 6 <= why <= 8 then why - 5 else 0
  }

  function Preempts(v: View, i: Input): Option<View> {
    if v.chosen != NOBODY && i.task == Word(v.current) && i.related == Word(v.chosen) && !v.preempted
       && SourcesOf(v.why) != 0 && i.value0 == SourcesOf(v.why) then
      Some(v.(preempted := true))
    else None
  }

  /** Idle stops or starts exactly when the switch leaves or enters it. */
  function Idles(v: View, i: Input): Option<View> {
    if v.edge || v.preempted || v.chosen == NOBODY then None
    else if i.event == IDLE_STOP && v.current == 0 && v.chosen != 0 && i.related == Word(v.chosen) then
      Some(v.(edge := true))
    else if i.event == IDLE_START && v.current != 0 && v.chosen == 0 && i.related == Word(v.current) then
      Some(v.(edge := true))
    else None
  }

  /** The view after a switch: the slot of a task that left for good is vacant,
      and a user task that never ran owes its start record. */
  function AfterSwitch(v: View): (r: View)
    requires Sized(v) && v.chosen < 5
    ensures Sized(r)
  {
    var gone := 1 <= v.current < 5 && v.slots[v.current].phase.Leaving?;
    View(if gone then v.slots[v.current := EMPTY] else v.slots,
         v.running, v.chosen, 0, NOBODY, false, false,
         if v.chosen != 0 && !v.slots[v.chosen].started then v.chosen else NOBODY,
         if gone then (v.reclaims + 1) % 4294967296 else v.reclaims,
         if gone then v.current else v.lastReclaimed,
         v.live)
  }

  /** The switch completes what the dispatch record chose. A task that leaves
      holds no block any more. */
  function Switches(v: View, i: Input): Option<View>
    requires Sized(v)
  {
    if v.chosen >= 5 || i.task != Word(v.current) || i.related != Word(v.chosen) || i.value0 != v.why
       || i.value1 != LeavesAs(v) || v.edge != ((v.current == 0) != (v.chosen == 0))
       || v.preempted != (SourcesOf(v.why) != 0) || (i.value1 == 5 && Holdings(v.live, v.current) != {}) then None
    else Some(AfterSwitch(v))
  }

  function Starts(v: View, i: Input): Option<View>
    requires Sized(v)
  {
    if v.starting != NOBODY && v.starting == i.task && 1 <= i.task < 5 then
      match FirstRun(v.slots[i.task], i)
      case None => None
      case Some(s) => Some(v.(slots := v.slots[i.task := s], starting := NOBODY))
    else None
  }

  /** The view after one record, or nothing when the record does not fit. */
  function See(v: View, tick: u64, i: Input): (r: Option<View>)
    requires Sized(v)
    ensures r.Some? ==> Sized(r.value)
  {
    if i.event == TASK_START then Starts(v, i)
    else if v.starting != NOBODY then None
    else if i.event == TASK_PREEMPT then Preempts(v, i)
    else if i.event == IDLE_START || i.event == IDLE_STOP then Idles(v, i)
    else if i.event == CONTEXT_SWITCH then Switches(v, i)
    else if !Quiet(v) then None
    else if i.event == KERNEL_START then
      if !v.running && v.why == 0 then Some(v.(running := true, why := 1)) else None
    else if i.event == TASK_SELECT then Selected(v, i)
    else if i.event in {ALLOC, FREE, OWNER_RELEASE} then
      if v.current == NOBODY || i.task != v.current || SeeMemory(v.live, i).None? then None
      else Some(v.(live := SeeMemory(v.live, i).value))
    else if !(1 <= i.task < 5) then None
    else if i.event == TASK_CREATE then
      if i.related == (if v.running then Word(v.current) else 0xFFFF) then
        Placed(v, i.task, Created(v.slots[i.task], i))
      else None
    else if i.event == TASK_YIELD then
      Served(v, i, if v.slots[i.task].phase.Runnable? then Some(v.slots[i.task]) else None, 2)
    else if i.event == TASK_SLEEP then Served(v, i, Slept(v.slots[i.task], tick, i), 3)
    else if i.event == TASK_EXIT then Served(v, i, Exited(v.slots[i.task], i), 4)
    else if i.event == TASK_WAIT_PERIOD then Served(v, i, Waited(v.slots[i.task], tick, i), 5)
    else Placed(v, i.task, SeeSlot(v.slots[i.task], tick, i))
  }
}
