/** The architecture-neutral scheduling policy: one schedule entry per task
    slot, the operations that update an entry, and the deadline-first choice.
    Each operation appears twice: as a function on entry values, which states
    what it computes, and (in SchedulerTable) as the in-place update of one
    slot of the kernel's table. */
module Scheduler {
  import opened Words

  const IDLE: u8 := 0
  const INVALID: u8 := 255
  const TASK_COUNT := 5

  datatype State = Dormant | WaitingRelease | Ready | Running | Sleeping | Exiting
  datatype Kind = OneShot | Periodic

  datatype TimingConfig = TimingConfig(
    kind: Kind,
    initialReleaseDelay: u32,
    period: u32,
    relativeDeadline: u32,
    budget: u32,
    priority: u8)

  datatype Task = Task(
    id: u8,
    state: State,
    kind: Kind,
    releaseOrder: u64,
    nextReleaseOrder: u64,
    wakeOrder: u64,
    absoluteDeadline: u64,
    period: u32,
    relativeDeadline: u32,
    budget: u32,
    totalExecution: u32,
    jobExecution: u32,
    completedJobs: u32,
    deadlineMisses: u32,
    missedReleases: u32,
    jobSequence: u32,
    priority: u8,
    jobActive: bool,
    missLatched: bool,
    timeRangeExhausted: bool)

  // ---- Time ----

  predicate IntervalValid(interval: u32) {
    interval <= I32_MAX
  }

  predicate Reached(now: u64, target: u64) {
    !(now < target)
  }

  predicate ConfigValid(c: TimingConfig) {
    && c.relativeDeadline != 0
    && IntervalValid(c.initialReleaseDelay)
    && IntervalValid(c.period)
    && IntervalValid(c.relativeDeadline)
    && IntervalValid(c.budget)
    && c.initialReleaseDelay <= I32_MAX - c.relativeDeadline
    && (if c.kind.OneShot? then c.period == 0
        else c.period != 0 && c.relativeDeadline <= c.period)
  }

  // ---- Operations on one entry ----

  function Reset(id: u8): (r: Task)
    ensures r.id == id
  {
    Task(id, Dormant, OneShot, 0, 0, 0, 0, 0, 0, 0, 0, 0, 0, 0, 0, 0, 0, false, false, false)
  }

  function ActivateJob(t: Task): (Task, bool) {
    if t.state != WaitingRelease || t.jobActive then (t, false)
    else if t.releaseOrder > U64_MAX - t.relativeDeadline
         || (t.kind.Periodic? && t.releaseOrder > U64_MAX - t.period) then
      (t.(timeRangeExhausted := true), false)
    else
      (t.(absoluteDeadline := t.releaseOrder + t.relativeDeadline,
          jobExecution := 0,
          missLatched := false,
          jobActive := true,
          jobSequence := SatInc(t.jobSequence),
          nextReleaseOrder := if t.kind.Periodic? then t.releaseOrder + t.period else 0,
          state := Ready), true)
  }

  function Configure(t: Task, c: TimingConfig, now: u64): (r: (Task, bool))
    ensures r.0.id == t.id
  {
    if t.state != Dormant || !ConfigValid(c)
       || now > U64_MAX - c.initialReleaseDelay
       || now + c.initialReleaseDelay > U64_MAX - c.relativeDeadline then (t, false)
    else
      var release: u64 := now + c.initialReleaseDelay;
      if c.kind.Periodic? && release > U64_MAX - c.period then (Reset(t.id), false)
      else
        var entry := Reset(t.id).(
          kind := c.kind,
          releaseOrder := release,
          nextReleaseOrder := release,
          period := c.period,
          relativeDeadline := c.relativeDeadline,
          budget := c.budget,
          priority := c.priority,
          state := WaitingRelease);
        if c.initialReleaseDelay == 0 then ActivateJob(entry) else (entry, true)
  }

  function Transition(t: Task, expected: State, next: State): (Task, bool) {
    if t.state != expected || expected == next then (t, false)
    else (t.(state := next), true)
  }

  function ReleaseDue(t: Task, now: u64): (Task, bool) {
    if t.state != WaitingRelease || t.jobActive || !Reached(now, t.nextReleaseOrder) then (t, false)
    else ActivateJob(t.(releaseOrder := t.nextReleaseOrder))
  }

  function WakeDue(t: Task, now: u64): (Task, bool) {
    if t.state != Sleeping || !t.jobActive || !Reached(now, t.wakeOrder) then (t, false)
    else (t.(state := Ready), true)
  }

  function SleepJob(t: Task, now: u64, ticks: u32): (Task, bool) {
    if t.state != Running || !t.jobActive || ticks == 0 || !IntervalValid(ticks) || now > U64_MAX - ticks
    then (t, false)
    else (t.(wakeOrder := now + ticks, state := Sleeping), true)
  }

  function RecordDeadlineMiss(t: Task, now: u64): (Task, bool) {
    if !t.jobActive || t.missLatched || !Reached(now, t.absoluteDeadline) then (t, false)
    else (t.(missLatched := true, deadlineMisses := SatInc(t.deadlineMisses)), true)
  }

  function CompleteJob(t: Task, now: u64): (Task, bool) {
    if t.state != Running || !t.jobActive then (t, false)
    else
      var latched := RecordDeadlineMiss(t, now).0;
      (latched.(jobActive := false, completedJobs := SatInc(latched.completedJobs)), true)
  }

  function WaitNextPeriod(t: Task, now: u64): (Task, bool) {
    if !t.kind.Periodic? || !CompleteJob(t, now).1 then (t, false)
    else (CompleteJob(t, now).0.(state := WaitingRelease), true)
  }

  function RecordActiveRelease(t: Task, now: u64): (Task, bool) {
    if !t.kind.Periodic? || !t.jobActive || t.state == Dormant || t.state == Exiting
       || !Reached(now, t.nextReleaseOrder) then (t, false)
    else if t.period == 0 || t.nextReleaseOrder > U64_MAX - t.period then
      (t.(timeRangeExhausted := true), false)
    else
      (t.(missedReleases := SatInc(t.missedReleases),
          nextReleaseOrder := t.nextReleaseOrder + t.period), true)
  }

  function AccountRunningTick(t: Task): Task {
    if t.state != Running || !t.jobActive then t
    else t.(totalExecution := SatInc(t.totalExecution), jobExecution := SatInc(t.jobExecution))
  }

  // ---- Deadline-first order ----

  /** The lexicographic key: full deadline, then priority, then task id. */
  predicate Before(a: Task, b: Task) {
    || a.absoluteDeadline < b.absoluteDeadline
    || (a.absoluteDeadline == b.absoluteDeadline
        && (a.priority < b.priority || (a.priority == b.priority && a.id < b.id)))
  }

  predicate Outranks(candidate: Task, incumbent: Task) {
    if candidate.state != Ready || !candidate.jobActive then false
    else if incumbent.id == IDLE then candidate.id != IDLE
    else if candidate.id == IDLE || !incumbent.jobActive
            || (incumbent.state != Ready && incumbent.state != Running) then false
    else if candidate.absoluteDeadline != incumbent.absoluteDeadline then
      candidate.absoluteDeadline < incumbent.absoluteDeadline
    else if candidate.priority != incumbent.priority then candidate.priority < incumbent.priority
    else candidate.id < incumbent.id
  }

  predicate Runnable(t: Task) {
    t.state == Ready && t.jobActive
  }

  /** The table shape the policy works on: slot k holds the entry of task k. */
  predicate Indexed(tasks: seq<Task>) {
    && 0 < |tasks| <= INVALID as int
    && forall k :: 0 <= k < |tasks| ==> tasks[k].id == k
  }

  predicate Eligible(tasks: seq<Task>, excluded: u8, k: int)
    requires Indexed(tasks)
  {
    1 <= k < |tasks| && k != excluded && Runnable(tasks[k])
  }

  /** The best eligible task among slots 1..n-1, or INVALID. */
  function Best(tasks: seq<Task>, n: nat, excluded: u8): (r: u8)
    requires Indexed(tasks) && 1 <= n <= |tasks|
    ensures r == INVALID <==> forall k :: k < n ==> !Eligible(tasks, excluded, k)
    ensures r != INVALID ==> r < n && Eligible(tasks, excluded, r)
    ensures r != INVALID ==>
              forall k :: k < n && k != r && Eligible(tasks, excluded, k) ==> Before(tasks[r], tasks[k])
  {
    if n == 1 then INVALID
    else
      var best := Best(tasks, n - 1, excluded);
      if !Eligible(tasks, excluded, n - 1) then best
      else if best == INVALID || Outranks(tasks[n - 1], tasks[best]) then n - 1
      else best
  }

  /** The dispatcher's choice: the best eligible task, else the excluded task
      when it is still runnable, else idle when idle is ready. */
  function Select(tasks: seq<Task>, excluded: u8): (r: u8)
    requires Indexed(tasks)
    ensures r == INVALID || r < |tasks|
  {
    var best := Best(tasks, |tasks|, excluded);
    if best != INVALID then best
    else if excluded != INVALID && excluded < |tasks| && excluded != IDLE && Runnable(tasks[excluded]) then excluded
    else if tasks[IDLE].state == Ready then IDLE
    else INVALID
  }

  /** Before is a strict total order on entries of different tasks, and on
      runnable user entries it is exactly what Outranks decides. */
  lemma BeforeIsStrictTotalOrder(a: Task, b: Task, c: Task)
    ensures !Before(a, a)
    ensures Before(a, b) ==> !Before(b, a)
    ensures Before(a, b) && Before(b, c) ==> Before(a, c)
    ensures a.id != b.id ==> Before(a, b) || Before(b, a)
    ensures Runnable(a) && a.id != IDLE && b.id != IDLE && b.jobActive && b.state in {Ready, Running}
            ==> (Outranks(a, b) <==> Before(a, b))
  {
  }

  /** What the dispatcher's choice means: with somebody else to run, the
      unique minimum of the others; otherwise the excluded task itself;
      otherwise idle. */
  lemma SelectChoosesMinimum(tasks: seq<Task>, excluded: u8)
    requires Indexed(tasks)
    ensures var r := Select(tasks, excluded);
      if exists k :: Eligible(tasks, excluded, k) then
        && Eligible(tasks, excluded, r)
        && forall k :: Eligible(tasks, excluded, k) && k != r ==> Before(tasks[r], tasks[k])
      else if excluded != IDLE && excluded < |tasks| && Runnable(tasks[excluded]) then r == excluded
      else if tasks[IDLE].state == Ready then r == IDLE
      else r == INVALID
  {
    var best := Best(tasks, |tasks|, excluded);
    if exists k :: Eligible(tasks, excluded, k) {
      var k :| Eligible(tasks, excluded, k);
      assert k < |tasks|;
    }
  }
}
