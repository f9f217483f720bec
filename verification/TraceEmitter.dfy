/** Building a selection batch from the schedule table, loop by loop as the
    firmware does it. */
module TraceEmitter {
  import opened Words
  import opened Scheduler
  import opened TraceTypes
  import opened TraceRules
  import opened TraceSelection

  function BitAt(index: nat): u32
    requires index < TASK_COUNT
  {
    if index == 0 then 1 else if index == 1 then 2 else if index == 2 then 4 else if index == 3 then 8 else 16
  }

  /** The mask over slots 1..n-1. */
  function MaskTo(tasks: seq<Task>, n: nat): (m: nat)
    requires n <= TASK_COUNT == |tasks|
    ensures n > 0 ==> m < 2 * BitAt(n - 1)
    decreases n
  {
    if n <= 1 then 0 else MaskTo(tasks, n - 1) + if Runnable(tasks[n - 1]) then BitAt(n - 1) else 0
  }

  lemma MaskToEnd(tasks: seq<Task>)
    requires |tasks| == TASK_COUNT
    ensures MaskTo(tasks, TASK_COUNT) == ReadyMask(tasks)
  {
    assert MaskTo(tasks, 2) == 2 * Bit(Runnable(tasks[1]));
    assert MaskTo(tasks, 3) == MaskTo(tasks, 2) + 4 * Bit(Runnable(tasks[2]));
    assert MaskTo(tasks, 4) == MaskTo(tasks, 3) + 8 * Bit(Runnable(tasks[3]));
    assert MaskTo(tasks, 5) == MaskTo(tasks, 4) + 16 * Bit(Runnable(tasks[4]));
  }

  method MaskOfReady(tasks: array<Task>) returns (mask: u32)
    requires tasks.Length == TASK_COUNT
    ensures mask == ReadyMask(tasks[..])
  {
    mask := 0;
    for index := 1 to TASK_COUNT
      invariant mask == MaskTo(tasks[..], index)
    {
      if Runnable(tasks[index]) {
        mask := mask + BitAt(index);
      }
    }
    MaskToEnd(tasks[..]);
  }

  lemma NoRunnerUp(c: Choice)
    requires Shaped(c)
    ensures RunnerUp(c, 1) == INVALID
  {
  }

  lemma NextRunnerUp(c: Choice, n: nat)
    requires Shaped(c) && 1 <= n < TASK_COUNT
    ensures var best := RunnerUp(c, n);
      RunnerUp(c, n + 1) == if n == c.selected || n == c.excluded || !Listed(c, n) then best
                            else if best == INVALID || Before(c.tasks[n], c.tasks[best]) then n else best
  {
  }

  /** The best listed task that is neither selected nor excluded. */
  method FindRunnerUp(tasks: array<Task>, ghost c: Choice, selected: u8, incumbent: u8, excluded: u8, purpose: u8)
      returns (runnerUp: u8)
    requires Shaped(c) && c == Choice(tasks[..], selected, incumbent, excluded, purpose)
    ensures runnerUp == RunnerUp(c, TASK_COUNT)
  {
    hide Before, Indexed, Listed, Countable, RunnerUp;
    runnerUp := INVALID;
    NoRunnerUp(c);
    for index := 1 to TASK_COUNT
      invariant runnerUp == RunnerUp(c, index)
    {
      var ready := tasks[index].state == Ready && tasks[index].jobActive;
      var incumbentRunning := index == incumbent && tasks[index].state == Running && tasks[index].jobActive
          && purpose != DISPATCH;
      ListedMeans(c, index);
      NextRunnerUp(c, index);
      if index == selected || index == excluded || (!ready && !incumbentRunning) { continue; }
      if runnerUp == INVALID || Before(tasks[index], tasks[runnerUp]) {
        runnerUp := index;
      }
    }
  }

  /** Why the selected task was chosen. */
  method FindReason(tasks: array<Task>, ghost c: Choice, selected: u8, incumbent: u8, excluded: u8, purpose: u8,
                    eligible: nat)
      returns (reason: u8)
    requires Shaped(c) && c == Choice(tasks[..], selected, incumbent, excluded, purpose)
             && eligible == EligibleFrom(c, 1)
    ensures reason == SelectionReason(c)
  {
    hide Before, EligibleFrom, Listed, Countable;
    if selected == IDLE { return IDLE_REASON; }
    if selected == excluded && eligible == 0 { return EXCLUDED_FALLBACK; }
    if eligible <= 1 { return ONLY_READY; }
    var runnerUp := FindRunnerUp(tasks, c, selected, incumbent, excluded, purpose);
    if runnerUp == INVALID
        || tasks[selected].absoluteDeadline != tasks[runnerUp].absoluteDeadline { return BY_DEADLINE; }
    if tasks[selected].priority != tasks[runnerUp].priority { return BY_PRIORITY; }
    return STABLE_TID;
  }

  method CountListed(tasks: array<Task>, ghost c: Choice, incumbent: u8, excluded: u8, purpose: u8)
      returns (count: nat, eligible: nat)
    requires Shaped(c) && c == Choice(tasks[..], c.selected, incumbent, excluded, purpose)
    ensures count == ListedFrom(c, 1) && eligible == EligibleFrom(c, 1)
  {
    count, eligible := 0, 0;
    for index := 1 to TASK_COUNT
      invariant count + ListedFrom(c, index) == ListedFrom(c, 1)
      invariant eligible + EligibleFrom(c, index) == EligibleFrom(c, 1)
    {
      var ready := tasks[index].state == Ready && tasks[index].jobActive;
      var incumbentRunning := index == incumbent && tasks[index].state == Running && tasks[index].jobActive
          && purpose != DISPATCH;
      if ready || incumbentRunning {
        count := count + 1;
        if index != excluded {
          eligible := eligible + 1;
        }
      }
    }
  }

  method WriteSummary(tasks: array<Task>, ghost c: Choice, selected: u8, incumbent: u8, excluded: u8, purpose: u8,
                      inputs: array<Input>)
    requires Shaped(c) && c == Choice(tasks[..], selected, incumbent, excluded, purpose) && inputs.Length == TASK_COUNT
    modifies inputs
    ensures inputs[0] == Summary(c)
  {
    hide SelectionReason, ReadyMask, Runnable, ListedFrom, EligibleFrom;
    var listed, eligible := CountListed(tasks, c, incumbent, excluded, purpose);
    var reason := FindReason(tasks, c, selected, incumbent, excluded, purpose, eligible);
    var mask := MaskOfReady(tasks);
    inputs[0] := Input(TASK_SELECT, 0, selected, TaskWord(incumbent), mask,
                       reason + 0x100 * purpose + 0x1_0000 * excluded + 0x100_0000 * eligible, listed);
  }

  method WriteCandidate(tasks: array<Task>, ghost c: Choice, selected: u8, incumbent: u8, excluded: u8, index: nat,
                        inputs: array<Input>, at: nat)
    requires Shaped(c) && c == Choice(tasks[..], selected, incumbent, excluded, c.purpose)
    requires index < TASK_COUNT && at < inputs.Length
    modifies inputs
    ensures inputs[..] == old(inputs[..])[at := CandidateInput(c, index)]
  {
    var deadline := tasks[index].absoluteDeadline;
    var meta := tasks[index].priority + 0x100 * StateNumber(tasks[index].state) + 0x1_0000 * Bit(index == excluded)
                + 0x2_0000 * Bit(index == incumbent) + 0x4_0000 * Bit(index != excluded);
    inputs[at] := Input(SELECT_CANDIDATE, 0, index, selected, Low32(deadline), High32(deadline), meta);
  }

  /** Fill the input buffer: the summary, then every listed task in id order. */
  method BuildSelection(tasks: array<Task>, selected: u8, incumbent: u8, excluded: u8, purpose: u8,
                        inputs: array<Input>)
      returns (count: nat)
    requires Shaped(Choice(tasks[..], selected, incumbent, excluded, purpose)) && inputs.Length == TASK_COUNT
    modifies inputs
    ensures count <= inputs.Length
    ensures inputs[..count] == SelectionBatch(Choice(tasks[..], selected, incumbent, excluded, purpose))
  {
    hide Summary, CandidateInput, Listed, ListedFrom, CandidatesFrom;
    ghost var c := Choice(tasks[..], selected, incumbent, excluded, purpose);
    WriteSummary(tasks, c, selected, incumbent, excluded, purpose, inputs);
    count := 1;
    ghost var built: seq<Input> := [];
    for index := 1 to TASK_COUNT
      invariant count == 1 + |built| <= inputs.Length && inputs[..count] == [Summary(c)] + built
      invariant built + CandidatesFrom(c, index) == CandidatesFrom(c, 1)
      invariant count + ListedFrom(c, index) <= TASK_COUNT
    {
      var ready := tasks[index].state == Ready && tasks[index].jobActive;
      var incumbentRunning := index == incumbent && tasks[index].state == Running && tasks[index].jobActive
          && purpose != DISPATCH;
      ListedMeans(c, index);
      NextCandidate(c, index);
      if !ready && !incumbentRunning { continue; }
      WriteCandidate(tasks, c, selected, incumbent, excluded, index, inputs, count);
      built := built + [CandidateInput(c, index)];
      count := count + 1;
    }
    NoMoreCandidates(c);
  }

  lemma NextCandidate(c: Choice, k: nat)
    requires Shaped(c) && 1 <= k < TASK_COUNT
    ensures CandidatesFrom(c, k) == (if Listed(c, k) then [CandidateInput(c, k)] else []) + CandidatesFrom(c, k + 1)
    ensures ListedFrom(c, k) == (if Listed(c, k) then 1 else 0) + ListedFrom(c, k + 1)
  {
  }

  lemma NoMoreCandidates(c: Choice)
    requires Shaped(c)
    ensures CandidatesFrom(c, TASK_COUNT) == []
    ensures SelectionBatch(c) == [Summary(c)] + CandidatesFrom(c, 1)
  {
  }

  lemma ListedMeans(c: Choice, k: nat)
    requires Shaped(c) && 1 <= k < TASK_COUNT
    ensures Listed(c, k) <==>
            (c.tasks[k].state == Ready && c.tasks[k].jobActive)
            || (k == c.incumbent && c.tasks[k].state == Running && c.tasks[k].jobActive && c.purpose != DISPATCH)
  {
  }
}
