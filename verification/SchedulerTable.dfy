/** The scheduler operations in the source's own form: each updates one slot of
    the kernel's schedule table in place. A pointer to an entry is the table and
    an index. */
module SchedulerTable {
  import opened Words
  import opened Scheduler

  method ResetEntry(tasks: array<Task>, i: nat, id: u8)
    requires i < tasks.Length
    modifies tasks
    ensures tasks[..] == old(tasks[..])[i := Reset(id)]
  {
    tasks[i] := Task(0, Dormant, OneShot, 0, 0, 0, 0, 0, 0, 0, 0, 0, 0, 0, 0, 0, 0, false, false, false);
    tasks[i] := tasks[i].(id := id);
    tasks[i] := tasks[i].(state := Dormant);
    tasks[i] := tasks[i].(kind := OneShot);
  }

  method Activate(tasks: array<Task>, i: nat) returns (ok: bool)
    requires i < tasks.Length
    modifies tasks
    ensures tasks[..] == old(tasks[..])[i := ActivateJob(old(tasks[i])).0] && ok == ActivateJob(old(tasks[i])).1
  {
    if tasks[i].state != WaitingRelease || tasks[i].jobActive { return false; }
    if tasks[i].releaseOrder > U64_MAX - tasks[i].relativeDeadline
       || (tasks[i].kind.Periodic? && tasks[i].releaseOrder > U64_MAX - tasks[i].period) {
      tasks[i] := tasks[i].(timeRangeExhausted := true);
      return false;
    }
    tasks[i] := tasks[i].(absoluteDeadline := tasks[i].releaseOrder + tasks[i].relativeDeadline);
    tasks[i] := tasks[i].(jobExecution := 0);
    tasks[i] := tasks[i].(missLatched := false);
    tasks[i] := tasks[i].(jobActive := true);
    tasks[i] := tasks[i].(jobSequence := SatInc(tasks[i].jobSequence));
    if tasks[i].kind.Periodic? {
      tasks[i] := tasks[i].(nextReleaseOrder := tasks[i].releaseOrder + tasks[i].period);
    } else {
      tasks[i] := tasks[i].(nextReleaseOrder := 0);
    }
    tasks[i] := tasks[i].(state := Ready);
    return true;
  }

  method ConfigureEntry(tasks: array<Task>, i: nat, c: TimingConfig, now: u64) returns (ok: bool)
    requires i < tasks.Length
    modifies tasks
    ensures tasks[..] == old(tasks[..])[i := Configure(old(tasks[i]), c, now).0]
            && ok == Configure(old(tasks[i]), c, now).1
  {
    hide ActivateJob, ConfigValid;
    if tasks[i].state != Dormant || !ConfigValid(c) || now > U64_MAX - c.initialReleaseDelay
       || now + c.initialReleaseDelay > U64_MAX - c.relativeDeadline {
      return false;
    }
    var id := tasks[i].id;
    ResetEntry(tasks, i, id);
    var release: u64 := now + c.initialReleaseDelay;
    if c.kind.Periodic? && release > U64_MAX - c.period { return false; }
    tasks[i] := tasks[i].(kind := c.kind);
    tasks[i] := tasks[i].(releaseOrder := release);
    tasks[i] := tasks[i].(nextReleaseOrder := tasks[i].releaseOrder);
    tasks[i] := tasks[i].(period := c.period);
    tasks[i] := tasks[i].(relativeDeadline := c.relativeDeadline);
    tasks[i] := tasks[i].(budget := c.budget);
    tasks[i] := tasks[i].(priority := c.priority);
    tasks[i] := tasks[i].(state := WaitingRelease);
    if c.initialReleaseDelay == 0 {
      ok := Activate(tasks, i);
    } else {
      ok := true;
    }
  }

  method TransitionEntry(tasks: array<Task>, i: nat, expected: State, next: State) returns (ok: bool)
    requires i < tasks.Length
    modifies tasks
    ensures tasks[..] == old(tasks[..])[i := Transition(old(tasks[i]), expected, next).0]
    ensures ok == Transition(old(tasks[i]), expected, next).1
  {
    if tasks[i].state != expected || expected == next { return false; }
    tasks[i] := tasks[i].(state := next);
    return true;
  }

  method ReleaseEntry(tasks: array<Task>, i: nat, now: u64) returns (ok: bool)
    requires i < tasks.Length
    modifies tasks
    ensures tasks[..] == old(tasks[..])[i := ReleaseDue(old(tasks[i]), now).0] && ok == ReleaseDue(old(tasks[i]), now).1
  {
    hide ActivateJob;
    if tasks[i].state != WaitingRelease || tasks[i].jobActive
        || !Reached(now, tasks[i].nextReleaseOrder) { return false; }
    tasks[i] := tasks[i].(releaseOrder := tasks[i].nextReleaseOrder);
    ok := Activate(tasks, i);
  }

  method WakeEntry(tasks: array<Task>, i: nat, now: u64) returns (ok: bool)
    requires i < tasks.Length
    modifies tasks
    ensures tasks[..] == old(tasks[..])[i := WakeDue(old(tasks[i]), now).0] && ok == WakeDue(old(tasks[i]), now).1
  {
    if tasks[i].state != Sleeping || !tasks[i].jobActive || !Reached(now, tasks[i].wakeOrder) { return false; }
    tasks[i] := tasks[i].(state := Ready);
    return true;
  }

  method SleepEntry(tasks: array<Task>, i: nat, now: u64, ticks: u32) returns (ok: bool)
    requires i < tasks.Length
    modifies tasks
    ensures tasks[..] == old(tasks[..])[i := SleepJob(old(tasks[i]), now, ticks).0]
            && ok == SleepJob(old(tasks[i]), now, ticks).1
  {
    if tasks[i].state != Running || !tasks[i].jobActive || ticks == 0 || !IntervalValid(ticks)
        || now > U64_MAX - ticks {
      return false;
    }
    tasks[i] := tasks[i].(wakeOrder := now + ticks);
    tasks[i] := tasks[i].(state := Sleeping);
    return true;
  }

  method MissEntry(tasks: array<Task>, i: nat, now: u64) returns (missed: bool)
    requires i < tasks.Length
    modifies tasks
    ensures tasks[..] == old(tasks[..])[i := RecordDeadlineMiss(old(tasks[i]), now).0]
    ensures missed == RecordDeadlineMiss(old(tasks[i]), now).1
  {
    if !tasks[i].jobActive || tasks[i].missLatched || !Reached(now, tasks[i].absoluteDeadline) { return false; }
    tasks[i] := tasks[i].(missLatched := true);
    tasks[i] := tasks[i].(deadlineMisses := SatInc(tasks[i].deadlineMisses));
    return true;
  }

  method CompleteEntry(tasks: array<Task>, i: nat, now: u64) returns (ok: bool)
    requires i < tasks.Length
    modifies tasks
    ensures tasks[..] == old(tasks[..])[i := CompleteJob(old(tasks[i]), now).0]
            && ok == CompleteJob(old(tasks[i]), now).1
  {
    hide RecordDeadlineMiss;
    if tasks[i].state != Running || !tasks[i].jobActive { return false; }
    var missed := MissEntry(tasks, i, now);
    tasks[i] := tasks[i].(jobActive := false);
    tasks[i] := tasks[i].(completedJobs := SatInc(tasks[i].completedJobs));
    return true;
  }

  method WaitEntry(tasks: array<Task>, i: nat, now: u64) returns (ok: bool)
    requires i < tasks.Length
    modifies tasks
    ensures tasks[..] == old(tasks[..])[i := WaitNextPeriod(old(tasks[i]), now).0]
            && ok == WaitNextPeriod(old(tasks[i]), now).1
  {
    hide CompleteJob;
    RefusedCompletionKeeps(tasks[i], now);
    if !tasks[i].kind.Periodic? { return false; }
    var completed := CompleteEntry(tasks, i, now);
    if !completed { return false; }
    tasks[i] := tasks[i].(state := WaitingRelease);
    return true;
  }

  lemma RefusedCompletionKeeps(t: Task, now: u64)
    ensures !CompleteJob(t, now).1 ==> CompleteJob(t, now).0 == t
  {
  }

  method SkipEntry(tasks: array<Task>, i: nat, now: u64) returns (skipped: bool)
    requires i < tasks.Length
    modifies tasks
    ensures tasks[..] == old(tasks[..])[i := RecordActiveRelease(old(tasks[i]), now).0]
    ensures skipped == RecordActiveRelease(old(tasks[i]), now).1
  {
    if !tasks[i].kind.Periodic? || !tasks[i].jobActive || tasks[i].state == Dormant || tasks[i].state == Exiting
       || !Reached(now, tasks[i].nextReleaseOrder) {
      return false;
    }
    if tasks[i].period == 0 || tasks[i].nextReleaseOrder > U64_MAX - tasks[i].period {
      tasks[i] := tasks[i].(timeRangeExhausted := true);
      return false;
    }
    tasks[i] := tasks[i].(missedReleases := SatInc(tasks[i].missedReleases));
    tasks[i] := tasks[i].(nextReleaseOrder := tasks[i].nextReleaseOrder + tasks[i].period);
    return true;
  }

  method AccountEntry(tasks: array<Task>, i: nat)
    requires i < tasks.Length
    modifies tasks
    ensures tasks[..] == old(tasks[..])[i := AccountRunningTick(old(tasks[i]))]
  {
    if tasks[i].state != Running || !tasks[i].jobActive { return; }
    tasks[i] := tasks[i].(totalExecution := SatInc(tasks[i].totalExecution));
    tasks[i] := tasks[i].(jobExecution := SatInc(tasks[i].jobExecution));
  }

  /** Scan the table for the best eligible task, then fall back to the excluded
      task and to idle. */
  method SelectEntry(tasks: array<Task>, excluded: u8) returns (best: u8)
    requires Indexed(tasks[..])
    ensures best == Select(tasks[..], excluded)
  {
    hide Outranks, Before;
    best := INVALID;
    assert Best(tasks[..], 1, excluded) == INVALID;
    for index := 1 to tasks.Length
      invariant best == Best(tasks[..], index, excluded)
    {
      if index != excluded && Runnable(tasks[index]) {
        if best == INVALID || Outranks(tasks[index], tasks[best]) {
          best := index;
        }
      }
    }
    if best == INVALID && excluded != INVALID && excluded < tasks.Length && excluded != IDLE
        && Runnable(tasks[excluded]) {
      best := excluded;
    }
    if best == INVALID && tasks[IDLE].state == Ready {
      best := IDLE;
    }
  }
}
