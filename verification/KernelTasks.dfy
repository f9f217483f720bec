/** What every schedule entry satisfies between handlers, and how each
    scheduler operation carries it from one tick to the next. */
module KernelTasks {
  import opened Words
  import opened Scheduler
  import opened TraceTypes
  import opened TraceSelection
  import opened KernelModel

  predicate Active(s: State) {
    s.Ready? || s.Running? || s.Sleeping?
  }

  /** Somebody still needs the next release of a periodic task. */
  predicate Recurring(t: Task) {
    t.kind.Periodic? && !t.state.Dormant? && !t.state.Exiting?
  }

  /** Parameters that creation accepted. */
  predicate Configured(t: Task) {
    && 1 <= t.relativeDeadline <= I32_MAX && t.period <= I32_MAX
    && (if t.kind.OneShot? then t.period == 0 else t.relativeDeadline <= t.period)
  }

  /** An active job's deadline is that of its release, and the miss latch tells
      exactly whether the clock has reached it. */
  predicate JobOk(t: Task, now: u64) {
    && (t.jobActive <==> Active(t.state))
    && (t.jobActive ==>
          && t.absoluteDeadline == t.releaseOrder + t.relativeDeadline && t.releaseOrder <= now && t.jobSequence > 0
          && (t.missLatched <==> now >= t.absoluteDeadline))
  }

  /** Nothing that was due is still outstanding. */
  predicate PromptOk(t: Task, now: u64) {
    && (t.state.WaitingRelease? || Recurring(t) ==> t.nextReleaseOrder > now)
    && (t.state.Sleeping? ==> t.wakeOrder > now)
    && (t.state.WaitingRelease? && t.kind.OneShot? ==> t.nextReleaseOrder + t.relativeDeadline <= U64_MAX)
    && (Recurring(t) && t.jobSequence > 0 ==> t.nextReleaseOrder <= now + t.period)
  }

  predicate CountersOk(t: Task) {
    && (t.jobSequence < U32_MAX ==> t.jobSequence == t.completedJobs + Bit(t.jobActive))
    && t.jobSequence >= t.completedJobs && (t.jobSequence == 0 ==> t.missedReleases == 0)
    && (t.jobSequence == U32_MAX ==> t.completedJobs >= U32_MAX - 1)
    && (t.state.Exiting? ==> t.completedJobs > 0)
  }

  predicate TaskOk(t: Task, now: u64) {
    && !t.timeRangeExhausted
    && (t.state.Dormant? ==> t == Reset(t.id))
    && (!t.state.Dormant? ==> Configured(t))
    && JobOk(t, now) && PromptOk(t, now) && CountersOk(t)
  }

  // ---- Release cadence ----

  /** The release instant number n of a periodic task. */
  function ReleaseAt(first: u64, period: u32, n: nat): int {
    first + n * period
  }

  lemma NextReleaseAt(first: u64, period: u32, n: nat)
    ensures ReleaseAt(first, period, n + 1) == ReleaseAt(first, period, n) + period
    ensures ReleaseAt(first, period, 0) == first
  {
  }

  /** Activated and skipped releases together count every period boundary
      before the next one. */
  predicate OnCadence(t: Task, first: u64) {
    Recurring(t) && t.jobSequence < U32_MAX && t.missedReleases < U32_MAX ==>
      t.nextReleaseOrder == ReleaseAt(first, t.period, t.jobSequence + t.missedReleases)
  }

  // ---- One tick ----

  /** The next period boundary is due at this tick and the one after it does
      not fit the clock. */
  predicate Overruns(t: Task, now: u64) {
    Recurring(t) && t.nextReleaseOrder == now && now > U64_MAX - t.period
  }

  predicate ReleasesAt(t: Task, now: u64) {
    t.state.WaitingRelease? && t.nextReleaseOrder == now
  }

  predicate WakesAt(t: Task, now: u64) {
    t.state.Sleeping? && t.wakeOrder == now
  }

  /** The period boundary at this instant, if any, has been accounted as a
      skipped release of the active job. */
  ghost predicate CountedAt(t: Task, u: Task, now: u64) {
    && u == t.(totalExecution := u.totalExecution, jobExecution := u.jobExecution, missLatched := u.missLatched,
               deadlineMisses := u.deadlineMisses, missedReleases := u.missedReleases,
               nextReleaseOrder := u.nextReleaseOrder)
    && (!t.jobActive ==> u == t)
    && (t.jobActive ==> (u.missLatched <==> now >= t.absoluteDeadline))
    && (if Recurring(t) && t.jobActive && t.nextReleaseOrder == now then
          u.nextReleaseOrder == now + t.period && u.missedReleases == SatInc(t.missedReleases)
        else u.nextReleaseOrder == t.nextReleaseOrder && u.missedReleases == t.missedReleases)
  }

  lemma AccountedCounts(t: Task, now: u64)
    requires now < U64_MAX && TaskOk(t, now)
    ensures var r := Accounted(t, now + 1);
      && (r.exhausted <==> t.jobActive && Overruns(t, now + 1))
      && (!r.exhausted ==> CountedAt(t, r.task, now + 1))
  {
    hide DeadlineInput, Low32, High32, Reset;
  }

  lemma ReadiedHolds(t: Task, u: Task, now: u64)
    requires now < U64_MAX && TaskOk(t, now) && CountedAt(t, u, now + 1)
    ensures var r := Readied(u, now + 1);
      && (r.exhausted <==> !t.jobActive && Overruns(t, now + 1))
      && (!r.exhausted ==> TaskOk(r.task, now + 1) && Ticks(t, r, now + 1))
  {
  }

  /** What a tick is for: the task becomes ready exactly at its release or wake
      instant, a job that was already active keeps its deadline and rank, and a
      job that starts is released at this very tick. */
  ghost predicate Ticks(t: Task, r: TickOut, now: u64) {
    && (r.ready <==> ReleasesAt(t, now) || WakesAt(t, now))
    && r.task.state == (if r.ready then Ready else t.state)
    && r.task.kind == t.kind && r.task.priority == t.priority && r.task.period == t.period
    && (t.jobActive ==> r.task.jobActive && r.task.absoluteDeadline == t.absoluteDeadline
                        && r.task.releaseOrder == t.releaseOrder && r.task.jobSequence == t.jobSequence)
    && (ReleasesAt(t, now) ==> r.task.jobActive && r.task.releaseOrder == now)
    && (!t.jobActive && !ReleasesAt(t, now) ==> !r.task.jobActive)
  }

  /** One tick keeps the entry in order, and panics exactly when the next
      period boundary overruns the clock. */
  lemma TickKeepsTask(t: Task, now: u64)
    requires now < U64_MAX && TaskOk(t, now)
    ensures var r := TickTask(t, now + 1);
      && (r.exhausted <==> Overruns(t, now + 1))
      && (!r.exhausted ==> TaskOk(r.task, now + 1) && Ticks(t, r, now + 1))
  {
    hide Accounted, Readied, TaskOk, CountedAt;
    AccountedCounts(t, now);
    var a := Accounted(t, now + 1);
    if !a.exhausted {
      ReadiedHolds(t, a.task, now);
    }
  }

  /** One tick advances the cadence by exactly the boundary that falls on it,
      as a new job when the task was waiting and as a skipped release
      otherwise. */
  ghost predicate Advances(t: Task, r: Task, now: u64) {
    if Recurring(t) && t.nextReleaseOrder == now then
      && r.nextReleaseOrder == t.nextReleaseOrder + t.period
      && (if t.state.WaitingRelease? then r.jobSequence == SatInc(t.jobSequence) && r.missedReleases == t.missedReleases
          else r.missedReleases == SatInc(t.missedReleases) && r.jobSequence == t.jobSequence)
    else Recurring(t) ==>
      r.nextReleaseOrder == t.nextReleaseOrder && r.jobSequence == t.jobSequence && r.missedReleases == t.missedReleases
  }

  lemma TickAdvances(t: Task, now: u64)
    requires now < U64_MAX && TaskOk(t, now)
    requires !TickTask(t, now + 1).exhausted
    ensures Advances(t, TickTask(t, now + 1).task, now + 1)
  {
    hide Accounted;
    AccountedCounts(t, now);
  }

  lemma TickKeepsCadence(t: Task, now: u64, first: u64)
    requires now < U64_MAX && TaskOk(t, now) && OnCadence(t, first)
    requires !TickTask(t, now + 1).exhausted
    ensures OnCadence(TickTask(t, now + 1).task, first)
  {
    hide ReleaseAt, TickTask, TaskOk;
    TickAdvances(t, now);
    TickKeepsTask(t, now);
    NextReleaseAt(first, t.period, t.jobSequence + t.missedReleases);
  }

  /** A tick is charged to a running job, to its total and to its own count, and
      to nobody else; a job that starts at this tick has used none. */
  lemma TickChargesTheRunner(t: Task, now: u64)
    requires now < U64_MAX && TaskOk(t, now) && !TickTask(t, now + 1).exhausted
    ensures var u := TickTask(t, now + 1).task;
      && u.totalExecution == (if t.state.Running? then SatInc(t.totalExecution) else t.totalExecution)
      && u.jobExecution == (if t.state.Running? then SatInc(t.jobExecution)
                            else if ReleasesAt(t, now + 1) then 0 else t.jobExecution)
  {
    hide Accounted, Readied, Low32, High32;
    AccountedCounts(t, now);
    AccountedCharges(t, now + 1);
    ReadiedCharges(Accounted(t, now + 1).task, now + 1);
  }

  lemma AccountedCharges(t: Task, now: u64)
    requires t.jobActive <==> Active(t.state)
    ensures var u := Accounted(t, now).task;
      && u.totalExecution == (if t.state.Running? then SatInc(t.totalExecution) else t.totalExecution)
      && u.jobExecution == (if t.state.Running? then SatInc(t.jobExecution) else t.jobExecution)
  {
    hide Low32, High32;
  }

  lemma ReadiedCharges(t: Task, now: u64)
    requires !Readied(t, now).exhausted && (t.jobActive <==> Active(t.state))
    ensures var u := Readied(t, now).task;
      && u.totalExecution == t.totalExecution
      && u.jobExecution == (if t.state.WaitingRelease? && now >= t.nextReleaseOrder then 0 else t.jobExecution)
  {
    hide Low32, High32;
  }

  // ---- Creation and the services ----

  lemma ConfigureHolds(id: u8, c: TimingConfig, now: u64)
    ensures Configure(Reset(id), c, now).1 ==>
      var t := Configure(Reset(id), c, now).0;
      && TaskOk(t, now) && t.id == id && OnCadence(t, now + c.initialReleaseDelay)
      && (if c.initialReleaseDelay == 0 then t.state.Ready? else t.state.WaitingRelease?)
      && now + c.initialReleaseDelay <= U64_MAX
  {
    hide ReleaseAt;
    if ConfigValid(c) && now + c.initialReleaseDelay <= U64_MAX {
      NextReleaseAt(now + c.initialReleaseDelay, c.period, 0);
    }
  }

  /** Completing a job never latches a miss: SysTick has already done so if the
      deadline has passed. */
  lemma CompletionHolds(t: Task, now: u64)
    requires TaskOk(t, now) && t.state.Running?
    ensures var (d, ok) := CompleteJob(t, now);
      && ok && d.missLatched == t.missLatched && d.deadlineMisses == t.deadlineMisses
      && (t.missLatched <==> now >= t.absoluteDeadline)
      && d.completedJobs == SatInc(t.completedJobs)
      && TaskOk(d.(state := Exiting), now)
      && (t.kind.Periodic? ==> TaskOk(d.(state := WaitingRelease), now))
  {
  }
}
