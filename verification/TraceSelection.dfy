/** Selection batches: the summary and candidate snapshot the kernel emits for
    every scheduling choice, and when the decoder agrees with them. */
module TraceSelection {
  import opened Words
  import opened Scheduler
  import opened TraceTypes
  import opened TraceRules

  /** One selection: the table, the chosen task, who was running, who may not be
      chosen, and why the choice was made. */
  datatype Choice = Choice(tasks: seq<Task>, selected: u8, incumbent: u8, excluded: u8, purpose: u8)

  predicate Shaped(c: Choice) {
    Indexed(c.tasks) && |c.tasks| == TASK_COUNT && c.selected < TASK_COUNT
  }

  function StateNumber(s: State): u8 {
    match s
    case Dormant => 0
    case WaitingRelease => 1
    case Ready => 2
    case Running => 3
    case Sleeping => 4
    case Exiting => 5
  }

  /** READY user tasks are candidates, and in a probe the running incumbent. */
  predicate Listed(c: Choice, k: int)
    requires Shaped(c)
  {
    && 1 <= k < TASK_COUNT
    && (Runnable(c.tasks[k])
        || (k == c.incumbent && c.tasks[k].state == Running && c.tasks[k].jobActive && c.purpose != DISPATCH))
  }

  predicate Countable(c: Choice, k: int)
    requires Shaped(c)
  {
    Listed(c, k) && k != c.excluded
  }

  function EligibleFrom(c: Choice, k: nat): (n: nat)
    requires Shaped(c) && 1 <= k <= TASK_COUNT
    ensures n <= TASK_COUNT - k
    decreases TASK_COUNT - k
  {
    if k == TASK_COUNT then 0 else (if Countable(c, k) then 1 else 0) + EligibleFrom(c, k + 1)
  }

  function ListedFrom(c: Choice, k: nat): (n: nat)
    requires Shaped(c) && 1 <= k <= TASK_COUNT
    ensures n <= TASK_COUNT - k
    decreases TASK_COUNT - k
  {
    if k == TASK_COUNT then 0 else (if Listed(c, k) then 1 else 0) + ListedFrom(c, k + 1)
  }

  /** The best countable task other than the selected one among 1..n-1. */
  function RunnerUp(c: Choice, n: nat): (r: u8)
    requires Shaped(c) && 1 <= n <= TASK_COUNT
    ensures r == INVALID <==> forall k :: k < n && k != c.selected ==> !Countable(c, k)
    ensures r != INVALID ==> r < n && r != c.selected && Countable(c, r)
    ensures r != INVALID ==>
              forall k :: k < n && k != c.selected && k != r && Countable(c, k) ==> Before(c.tasks[r], c.tasks[k])
  {
    if n == 1 then INVALID
    else
      var best := RunnerUp(c, n - 1);
      if n - 1 == c.selected || !Countable(c, n - 1) then best
      else if best == INVALID || Before(c.tasks[n - 1], c.tasks[best]) then n - 1
      else best
  }

  function SelectionReason(c: Choice): u8
    requires Shaped(c)
  {
    var eligible := EligibleFrom(c, 1);
    if c.selected == IDLE then IDLE_REASON
    else if c.selected == c.excluded && eligible == 0 then EXCLUDED_FALLBACK
    else if eligible <= 1 then ONLY_READY
    else
      var r := RunnerUp(c, TASK_COUNT);
      if r == INVALID || c.tasks[c.selected].absoluteDeadline != c.tasks[r].absoluteDeadline then BY_DEADLINE
      else if c.tasks[c.selected].priority != c.tasks[r].priority then BY_PRIORITY
      else STABLE_TID
  }

  function Bit(p: bool): nat {
    if p then 1 else 0
  }

  function ReadyMask(tasks: seq<Task>): u32
    requires |tasks| == TASK_COUNT
  {
    2 * Bit(Runnable(tasks[1])) + 4 * Bit(Runnable(tasks[2])) + 8 * Bit(Runnable(tasks[3]))
        + 16 * Bit(Runnable(tasks[4]))
  }

  function TaskWord(id: u8): u16 {
    if id == INVALID then NO_TASK else id
  }

  function Summary(c: Choice): Input
    requires Shaped(c)
  {
    Input(TASK_SELECT, 0, c.selected, TaskWord(c.incumbent), ReadyMask(c.tasks),
          SelectionReason(c) + 0x100 * c.purpose + 0x1_0000 * c.excluded + 0x100_0000 * EligibleFrom(c, 1),
          ListedFrom(c, 1))
  }

  function Meta(c: Choice, k: nat): u32
    requires Shaped(c) && k < TASK_COUNT
  {
    c.tasks[k].priority + 0x100 * StateNumber(c.tasks[k].state) + 0x1_0000 * Bit(k == c.excluded)
    + 0x2_0000 * Bit(k == c.incumbent) + 0x4_0000 * Bit(k != c.excluded)
  }

  function CandidateInput(c: Choice, k: nat): Input
    requires Shaped(c) && k < TASK_COUNT
  {
    Input(SELECT_CANDIDATE, 0, k, c.selected, Low32(c.tasks[k].absoluteDeadline),
          High32(c.tasks[k].absoluteDeadline), Meta(c, k))
  }

  function CandidatesFrom(c: Choice, k: nat): (r: seq<Input>)
    requires Shaped(c) && 1 <= k <= TASK_COUNT
    ensures |r| == ListedFrom(c, k)
    decreases TASK_COUNT - k
  {
    if k == TASK_COUNT then [] else (if Listed(c, k) then [CandidateInput(c, k)] else []) + CandidatesFrom(c, k + 1)
  }

  /** The whole batch: summary first, then the candidates by task id. */
  function SelectionBatch(c: Choice): (r: seq<Input>)
    requires Shaped(c)
    ensures 1 <= |r| <= TASK_COUNT
  {
    [Summary(c)] + CandidatesFrom(c, 1)
  }

  // ---- The batch as records ----

  function SummaryRecord(c: Choice, tick: u64, first: u32): Record
    requires Shaped(c)
  {
    Stamped(tick, first, Summary(c))
  }

  /** A candidate record as the decoder reads it; its sequence number plays no
      part in the snapshot rules. */
  function Candidate(c: Choice, tick: u64, k: nat, sequence: u32): Record
    requires Shaped(c) && k < TASK_COUNT
  {
    Stamped(tick, sequence, CandidateInput(c, k))
  }

  /** cs are the candidate records for the listed tasks from k on. */
  ghost predicate Snapshot(c: Choice, tick: u64, k: nat, cs: seq<Record>)
    requires Shaped(c) && 1 <= k <= TASK_COUNT
    decreases TASK_COUNT - k
  {
    if k == TASK_COUNT then cs == []
    else if Listed(c, k) then
      cs != [] && cs[0] == Candidate(c, tick, k, cs[0].sequence) && Snapshot(c, tick, k + 1, cs[1..])
    else Snapshot(c, tick, k + 1, cs)
  }

  lemma {:induction false} StampedBatchIsSnapshot(c: Choice, tick: u64, k: nat, cs: seq<Record>)
    requires Shaped(c) && 1 <= k <= TASK_COUNT
    requires |cs| == |CandidatesFrom(c, k)|
    requires forall j :: 0 <= j < |cs| ==> cs[j] == Stamped(tick, cs[j].sequence, CandidatesFrom(c, k)[j])
    ensures Snapshot(c, tick, k, cs)
    decreases TASK_COUNT - k
  {
    if k < TASK_COUNT {
      if Listed(c, k) {
        var t := cs[1..];
        assert CandidatesFrom(c, k)[1..] == CandidatesFrom(c, k + 1);
        forall j | 0 <= j < |t| ensures t[j] == Stamped(tick, t[j].sequence, CandidatesFrom(c, k + 1)[j]) {
          assert t[j] == cs[j + 1];
        }
        StampedBatchIsSnapshot(c, tick, k + 1, t);
      } else {
        StampedBatchIsSnapshot(c, tick, k + 1, cs);
      }
    }
  }

  /** Unpacking a candidate gives back what was packed. */
  lemma MetaUnpacks(c: Choice, tick: u64, k: nat, sequence: u32)
    requires Shaped(c) && k < TASK_COUNT
    ensures var r := Candidate(c, tick, k, sequence);
      && Priority(r) == c.tasks[k].priority && StateCode(r) == StateNumber(c.tasks[k].state)
      && (ExcludedMark(r) <==> k == c.excluded) && (IncumbentMark(r) <==> k == c.incumbent)
      && (EligibleMark(r) <==> k != c.excluded)
      && Deadline(r.value0, r.value1) == c.tasks[k].absoluteDeadline
      && r.value2 <= 0x7_FFFF
      && r.task == k && r.related == c.selected && r.tick == tick && r.event == SELECT_CANDIDATE
  {
    Unpack(c.tasks[k].priority, StateNumber(c.tasks[k].state), Bit(k == c.excluded), Bit(k == c.incumbent),
           Bit(k != c.excluded));
  }

  lemma Unpack(p: u8, s: u8, a: nat, b: nat, d: nat)
    requires a <= 1 && b <= 1 && d <= 1
    ensures var v := p + 0x100 * s + 0x1_0000 * a + 0x2_0000 * b + 0x4_0000 * d;
      && v % 0x100 == p && v / 0x100 % 0x100 == s && v / 0x1_0000 % 2 == a && v / 0x2_0000 % 2 == b
          && v / 0x4_0000 % 2 == d
      && v <= 0x7_FFFF
  {
    var v := p + 0x100 * s + 0x1_0000 * a + 0x2_0000 * b + 0x4_0000 * d;
    assert v / 0x100 == s + 0x100 * a + 0x200 * b + 0x400 * d;
    assert v / 0x1_0000 == a + 2 * b + 4 * d;
    assert v / 0x2_0000 == b + 2 * d;
    assert v / 0x4_0000 == d;
  }

  lemma SummaryUnpacks(c: Choice, tick: u64, first: u32)
    requires Shaped(c)
    ensures var s := SummaryRecord(c, tick, first);
      && Reason(s) == SelectionReason(c) && Purpose(s) == c.purpose && Exclusion(s) == c.excluded
      && EligibleCount(s) == EligibleFrom(c, 1)
  {
    UnpackSummary(SelectionReason(c), c.purpose, c.excluded, EligibleFrom(c, 1));
  }

  lemma UnpackSummary(r: u8, p: u8, e: u8, n: u8)
    ensures var v := r + 0x100 * p + 0x1_0000 * e + 0x100_0000 * n;
      && v % 0x100 == r && v / 0x100 % 0x100 == p && v / 0x1_0000 % 0x100 == e && v / 0x100_0000 == n
  {
    var v := r + 0x100 * p + 0x1_0000 * e + 0x100_0000 * n;
    assert v / 0x100 == p + 0x100 * e + 0x1_0000 * n;
    assert v / 0x1_0000 == e + 0x100 * n;
    assert v / 0x100_0000 == n;
  }

  lemma MaskUnpacks(tasks: seq<Task>)
    requires |tasks| == TASK_COUNT
    ensures ReadyMask(tasks) < 32 && ReadyMask(tasks) % 2 == 0
    ensures forall t: u16 :: User(t) ==> (InMask(ReadyMask(tasks), t) <==> Runnable(tasks[t]))
  {
    UnpackMask(Bit(Runnable(tasks[1])), Bit(Runnable(tasks[2])), Bit(Runnable(tasks[3])), Bit(Runnable(tasks[4])));
  }

  lemma UnpackMask(a: nat, b: nat, c: nat, d: nat)
    requires a <= 1 && b <= 1 && c <= 1 && d <= 1
    ensures var m := 2 * a + 4 * b + 8 * c + 16 * d;
      m / 2 % 2 == a && m / 4 % 2 == b && m / 8 % 2 == c && m / 16 % 2 == d && m % 2 == 0 && m < 32
  {
    var m := 2 * a + 4 * b + 8 * c + 16 * d;
    assert m / 2 == a + 2 * b + 4 * c + 8 * d;
    assert m / 4 == b + 2 * c + 4 * d;
    assert m / 8 == c + 2 * d;
    assert m / 16 == d;
  }

  // ---- Facts about a snapshot ----

  lemma CandidateTask(c: Choice, tick: u64, k: nat, sequence: u32)
    requires Shaped(c) && k < TASK_COUNT
    ensures Candidate(c, tick, k, sequence).task == k
  {
  }

  /** The records are candidates of listed tasks from k on, in task order. */
  ghost predicate Ascending(c: Choice, tick: u64, k: nat, cs: seq<Record>)
    requires Shaped(c) && 1 <= k <= TASK_COUNT
  {
    && (forall j :: 0 <= j < |cs| ==> k <= cs[j].task < TASK_COUNT && Listed(c, cs[j].task)
                                      && cs[j] == Candidate(c, tick, cs[j].task, cs[j].sequence))
    && forall i, j :: 0 <= i < j < |cs| ==> cs[i].task < cs[j].task
  }

  lemma AscendingFrom(c: Choice, tick: u64, k: nat, cs: seq<Record>)
    requires Shaped(c) && 1 <= k < TASK_COUNT && Listed(c, k) && cs != []
    requires cs[0] == Candidate(c, tick, k, cs[0].sequence) && Ascending(c, tick, k + 1, cs[1..])
    ensures Ascending(c, tick, k, cs)
  {
    hide Listed, Candidate;
    CandidateTask(c, tick, k, cs[0].sequence);
    assert forall j :: 0 < j < |cs| ==> cs[j] == cs[1..][j - 1];
  }

  lemma SeenFrom(cs: seq<Record>, t: u16)
    requires cs != []
    ensures Seen(cs, t) <==> cs[0].task == t || Seen(cs[1..], t)
  {
    assert forall j :: 0 < j < |cs| ==> cs[j] == cs[1..][j - 1];
    if Seen(cs[1..], t) {
      var j :| 0 <= j < |cs[1..]| && cs[1..][j].task == t;
      assert cs[j + 1].task == t;
    }
  }

  lemma {:induction false} SnapshotOrder(c: Choice, tick: u64, k: nat, cs: seq<Record>)
    requires Shaped(c) && 1 <= k <= TASK_COUNT && Snapshot(c, tick, k, cs)
    ensures |cs| == ListedFrom(c, k) && Ascending(c, tick, k, cs)
    ensures forall t: u16 :: k <= t < TASK_COUNT && Listed(c, t) ==> Seen(cs, t)
    decreases TASK_COUNT - k
  {
    hide Listed, Candidate, Seen, Ascending;
    if k == TASK_COUNT {
      assert Ascending(c, tick, k, []) by { AscendingNone(c, tick, k); }
    } else if Listed(c, k) {
      CandidateTask(c, tick, k, cs[0].sequence);
      SnapshotOrder(c, tick, k + 1, cs[1..]);
      AscendingFrom(c, tick, k, cs);
      forall t: u16 | k <= t < TASK_COUNT && Listed(c, t) ensures Seen(cs, t) {
        SeenFrom(cs, t);
      }
    } else {
      SnapshotOrder(c, tick, k + 1, cs);
      AscendingLater(c, tick, k, cs);
    }
  }

  lemma AscendingNone(c: Choice, tick: u64, k: nat)
    requires Shaped(c) && 1 <= k <= TASK_COUNT
    ensures Ascending(c, tick, k, [])
  {
  }

  lemma AscendingLater(c: Choice, tick: u64, k: nat, cs: seq<Record>)
    requires Shaped(c) && 1 <= k < TASK_COUNT && Ascending(c, tick, k + 1, cs)
    ensures Ascending(c, tick, k, cs)
  {
    hide Listed, Candidate;
  }

  /** Every record of the snapshot is the candidate of its task, tasks are
      listed and ascend, and every listed task is there. */
  lemma SnapshotMembers(c: Choice, tick: u64, k: nat, cs: seq<Record>)
    requires Shaped(c) && 1 <= k <= TASK_COUNT && Snapshot(c, tick, k, cs)
    ensures |cs| == ListedFrom(c, k)
    ensures forall j :: 0 <= j < |cs| ==> k <= cs[j].task < TASK_COUNT && Listed(c, cs[j].task)
                                          && cs[j] == Candidate(c, tick, cs[j].task, cs[j].sequence)
    ensures forall i, j :: 0 <= i < j < |cs| ==> cs[i].task < cs[j].task
    ensures forall t: u16 :: k <= t < TASK_COUNT && Listed(c, t) ==> Seen(cs, t)
  {
    hide Listed, Candidate, Seen, Snapshot;
    SnapshotOrder(c, tick, k, cs);
  }

  lemma EligiblesUnfold(cs: seq<Record>)
    requires cs != []
    ensures |Eligibles(cs)| == |Eligibles(cs[1..])| + if EligibleMark(cs[0]) then 1 else 0
    ensures MarkedTasks(cs) == (if IncumbentMark(cs[0]) then [cs[0].task] else []) + MarkedTasks(cs[1..])
  {
    hide EligibleMark, IncumbentMark;
  }

  /** How a listed candidate is marked. */
  lemma CandidateMarks(c: Choice, tick: u64, k: nat, sequence: u32)
    requires Shaped(c) && 1 <= k < TASK_COUNT && Listed(c, k)
    ensures var r := Candidate(c, tick, k, sequence);
      r.task == k && (EligibleMark(r) <==> Countable(c, k)) && (IncumbentMark(r) <==> k == c.incumbent)
  {
    hide Candidate, ExcludedMark, IncumbentMark, EligibleMark, StateCode, Priority, Deadline;
    MetaUnpacks(c, tick, k, sequence);
  }

  lemma {:induction false} SnapshotFilters(c: Choice, tick: u64, k: nat, cs: seq<Record>)
    requires Shaped(c) && 1 <= k <= TASK_COUNT && Snapshot(c, tick, k, cs)
    ensures |Eligibles(cs)| == EligibleFrom(c, k)
    ensures MarkedTasks(cs) ==
            if k <= c.incumbent < TASK_COUNT && Listed(c, c.incumbent) then [c.incumbent as u16] else []
    decreases TASK_COUNT - k
  {
    hide Candidate, IncumbentMark, EligibleMark, Listed;
    if k < TASK_COUNT {
      if Listed(c, k) {
        CandidateMarks(c, tick, k, cs[0].sequence);
        EligiblesUnfold(cs);
        SnapshotFilters(c, tick, k + 1, cs[1..]);
      } else {
        SnapshotFilters(c, tick, k + 1, cs);
      }
    }
  }

  lemma {:induction false} SnapshotPicks(c: Choice, tick: u64, k: nat, cs: seq<Record>, t: u16)
    requires Shaped(c) && 1 <= k <= TASK_COUNT && Snapshot(c, tick, k, cs)
    ensures |OfTask(cs, t)| == if k <= t < TASK_COUNT && Listed(c, t) then 1 else 0
    decreases TASK_COUNT - k
  {
    hide Candidate, Runnable;
    if k < TASK_COUNT {
      if Listed(c, k) {
        MetaUnpacks(c, tick, k, cs[0].sequence);
        SnapshotPicks(c, tick, k + 1, cs[1..], t);
      } else {
        SnapshotPicks(c, tick, k + 1, cs, t);
      }
    }
  }

  lemma {:induction false} EligiblesMembers(cs: seq<Record>)
    ensures forall r :: r in Eligibles(cs) <==> r in cs && EligibleMark(r)
    ensures multiset(Eligibles(cs)) <= multiset(cs)
  {
    if cs != [] {
      assert cs == [cs[0]] + cs[1..];
      EligiblesMembers(cs[1..]);
    }
  }

  lemma {:induction false} OfTaskMembers(cs: seq<Record>, t: u16)
    ensures forall r :: r in OfTask(cs, t) <==> r in cs && r.task == t
  {
    if cs != [] {
      assert cs == [cs[0]] + cs[1..];
      OfTaskMembers(cs[1..], t);
    }
  }

  /** With distinct tasks every record occurs once. */
  lemma {:induction false} OnceEach(cs: seq<Record>, r: Record)
    requires forall i, j :: 0 <= i < j < |cs| ==> cs[i].task < cs[j].task
    requires r in cs
    ensures multiset(cs)[r] == 1
  {
    assert cs == [cs[0]] + cs[1..];
    if r == cs[0] {
      forall j | 0 <= j < |cs[1..]| ensures cs[1..][j] != r {
        assert cs[1..][j] == cs[j + 1];
      }
      assert r !in multiset(cs[1..]);
    } else {
      OnceEach(cs[1..], r);
    }
  }

  // ---- When the decoder agrees ----

  /** What every caller in the kernel guarantees about a choice. */
  ghost predicate WellPosed(c: Choice) {
    && Shaped(c)
    && (c.incumbent == INVALID || c.incumbent < TASK_COUNT)
    && (c.excluded == INVALID || 1 <= c.excluded < TASK_COUNT)
    && (if c.purpose == DISPATCH then
          if c.selected == IDLE then c.excluded == INVALID && forall k :: !Listed(c, k)
          else Runnable(c.tasks[c.selected])
               && (c.selected == c.excluded ==> forall k :: !Countable(c, k))
        else
          && (c.purpose == SYSTICK_PROBE || c.purpose == CREATE_PROBE)
          && c.excluded == INVALID && c.incumbent < TASK_COUNT && c.selected != c.incumbent
          && c.selected != IDLE && Runnable(c.tasks[c.selected])
          && (c.incumbent != IDLE ==> c.tasks[c.incumbent].state == Running && c.tasks[c.incumbent].jobActive))
  }

  /** The selected task comes before every other countable candidate. */
  ghost predicate Least(c: Choice)
    requires Shaped(c)
  {
    c.selected != IDLE ==>
      forall k :: Countable(c, k) && k != c.selected ==> Before(c.tasks[c.selected], c.tasks[k])
  }

  lemma {:induction false} CountsAreEmpty(c: Choice, k: nat)
    requires Shaped(c) && 1 <= k <= TASK_COUNT
    ensures EligibleFrom(c, k) == 0 <==> forall j :: Countable(c, j) ==> j < k
    ensures ListedFrom(c, k) == 0 <==> forall j :: Listed(c, j) ==> j < k
    decreases TASK_COUNT - k
  {
    if k < TASK_COUNT {
      CountsAreEmpty(c, k + 1);
    }
  }

  lemma LinkedHolds(c: Choice, tick: u64, first: u32, cs: seq<Record>)
    requires Shaped(c) && Snapshot(c, tick, 1, cs)
    ensures Linked(SummaryRecord(c, tick, first), cs)
  {
    SnapshotMembers(c, tick, 1, cs);
  }

  lemma MaskHolds(c: Choice, tick: u64, first: u32, cs: seq<Record>)
    requires Shaped(c) && Snapshot(c, tick, 1, cs)
    ensures MaskAgrees(SummaryRecord(c, tick, first), cs)
  {
    hide Meta, StateCode, InMask, ReadyMask;
    var s := SummaryRecord(c, tick, first);
    SnapshotMembers(c, tick, 1, cs);
    MaskUnpacks(c.tasks);
    forall k | 0 <= k < |cs| ensures StateCode(cs[k]) == READY_CODE <==> Runnable(c.tasks[cs[k].task]) {
      MetaUnpacks(c, tick, cs[k].task, cs[k].sequence);
    }
    forall t: u16 | User(t) && InMask(s.value0, t)
      ensures exists k :: 0 <= k < |cs| && cs[k].task == t && StateCode(cs[k]) == READY_CODE
    {
      assert Listed(c, t);
      var k :| 0 <= k < |cs| && cs[k].task == t;
      assert StateCode(cs[k]) == READY_CODE;
    }
  }

  lemma MarksHold(c: Choice, tick: u64, first: u32, cs: seq<Record>)
    requires Shaped(c) && Snapshot(c, tick, 1, cs)
    requires c.excluded == INVALID || c.excluded < TASK_COUNT
    ensures MarksAgree(SummaryRecord(c, tick, first), cs)
  {
    hide Meta, Eligibles, ExcludedMark, EligibleMark, Exclusion, EligibleCount;
    SnapshotMembers(c, tick, 1, cs);
    SnapshotFilters(c, tick, 1, cs);
    SummaryUnpacks(c, tick, first);
    forall k | 0 <= k < |cs|
      ensures (ExcludedMark(cs[k]) <==> cs[k].task == c.excluded) && (EligibleMark(cs[k]) <==> cs[k].task != c.excluded)
    {
      MetaUnpacks(c, tick, cs[k].task, cs[k].sequence);
    }
  }

  lemma CandidateStates(c: Choice, tick: u64, cs: seq<Record>)
    requires Shaped(c) && Snapshot(c, tick, 1, cs)
    ensures forall k :: 0 <= k < |cs| ==> cs[k].task < TASK_COUNT && Listed(c, cs[k].task)
                                          && StateCode(cs[k]) == StateNumber(c.tasks[cs[k].task].state)
  {
    hide Meta, StateCode;
    SnapshotMembers(c, tick, 1, cs);
    forall k | 0 <= k < |cs| ensures StateCode(cs[k]) == StateNumber(c.tasks[cs[k].task].state) {
      MetaUnpacks(c, tick, cs[k].task, cs[k].sequence);
    }
  }

  lemma DispatchPurposeHolds(c: Choice, tick: u64, cs: seq<Record>)
    requires WellPosed(c) && c.purpose == DISPATCH && Snapshot(c, tick, 1, cs)
    ensures AllReady(cs) && MarkedTasks(cs) == if Seen(cs, TaskWord(c.incumbent)) then [TaskWord(c.incumbent)] else []
  {
    CandidateStates(c, tick, cs);
    hide Meta, StateCode, Candidate, Snapshot;
    SnapshotMembers(c, tick, 1, cs);
    SnapshotFilters(c, tick, 1, cs);
    if c.incumbent != INVALID && Seen(cs, c.incumbent) {
      var j :| 0 <= j < |cs| && cs[j].task == c.incumbent;
      assert Listed(c, c.incumbent);
    }
  }

  lemma ProbePurposeHolds(c: Choice, tick: u64, cs: seq<Record>)
    requires WellPosed(c) && c.purpose != DISPATCH && Snapshot(c, tick, 1, cs)
    ensures if c.incumbent == IDLE then MarkedTasks(cs) == [] && AllReady(cs)
            else && |cs| >= 2 && MarkedTasks(cs) == [TaskWord(c.incumbent)]
                 && (forall k :: 0 <= k < |cs| ==>
                       StateCode(cs[k]) == if cs[k].task == c.incumbent then RUNNING_CODE else READY_CODE)
  {
    CandidateStates(c, tick, cs);
    hide Meta, StateCode, Candidate, Snapshot;
    SnapshotMembers(c, tick, 1, cs);
    SnapshotFilters(c, tick, 1, cs);
    if c.incumbent != IDLE {
      assert Listed(c, c.incumbent) && Listed(c, c.selected);
      assert Seen(cs, c.incumbent) && Seen(cs, c.selected);
    }
  }

  lemma PurposeHolds(c: Choice, tick: u64, first: u32, cs: seq<Record>)
    requires WellPosed(c) && Snapshot(c, tick, 1, cs)
    ensures PurposeAgrees(SummaryRecord(c, tick, first), cs)
  {
    hide Meta, StateCode, Exclusion, Purpose, MarkedTasks, Seen, AllReady, Snapshot;
    SummaryUnpacks(c, tick, first);
    if c.purpose == DISPATCH { DispatchPurposeHolds(c, tick, cs); } else { ProbePurposeHolds(c, tick, cs); }
  }

  /** The candidates the decoder sorts, seen from the table. */
  lemma EligibleRecord(c: Choice, tick: u64, cs: seq<Record>, r: Record)
    requires Shaped(c) && Snapshot(c, tick, 1, cs)
    ensures r in Eligibles(cs) <==> r in cs && r.task != c.excluded
    ensures r in Eligibles(cs) ==> Countable(c, r.task) && multiset(Eligibles(cs))[r] == 1
  {
    hide Meta, Candidate, EligibleMark;
    SnapshotMembers(c, tick, 1, cs);
    EligiblesMembers(cs);
    if r in cs {
      var j :| 0 <= j < |cs| && cs[j] == r;
      MetaUnpacks(c, tick, r.task, r.sequence);
      OnceEach(cs, r);
      assert multiset(Eligibles(cs))[r] <= multiset(cs)[r];
    }
  }

  lemma SameTaskSameRecord(c: Choice, tick: u64, cs: seq<Record>, r: Record, q: Record)
    requires Shaped(c) && Snapshot(c, tick, 1, cs) && r in cs && q in cs && r.task == q.task
    ensures r == q
  {
    SnapshotMembers(c, tick, 1, cs);
    var i :| 0 <= i < |cs| && cs[i] == r;
    var j :| 0 <= j < |cs| && cs[j] == q;
  }

  /** The decoder's keys are the scheduler's. */
  lemma KeysCompare(c: Choice, tick: u64, cs: seq<Record>, r: Record, q: Record)
    requires Shaped(c) && Snapshot(c, tick, 1, cs) && r in cs && q in cs
    ensures r.task < TASK_COUNT && q.task < TASK_COUNT
    ensures KeyBefore(r, q) <==> Before(c.tasks[r.task], c.tasks[q.task])
  {
    hide Priority, Deadline, Snapshot, Meta;
    SnapshotKeys(c, tick, cs, r);
    SnapshotKeys(c, tick, cs, q);
  }

  lemma RecordOf(cs: seq<Record>, t: u16) returns (r: Record)
    requires Seen(cs, t)
    ensures r in cs && r.task == t
  {
    var j :| 0 <= j < |cs| && cs[j].task == t;
    r := cs[j];
  }

  /** The decoder's recomputed head and reason match exactly when the selected
      task is the least countable candidate. */
  lemma ChoiceHolds(c: Choice, tick: u64, first: u32, cs: seq<Record>)
    requires WellPosed(c) && Snapshot(c, tick, 1, cs) && c.selected != IDLE
    ensures ChoiceAgrees(SummaryRecord(c, tick, first), cs) <==> Least(c)
  {
    hide Meta, Eligibles, OfTask, Ordered, EligibleMark, Exclusion, Reason, SelectionReason, Candidate, Priority,
         Deadline;
    var s := SummaryRecord(c, tick, first);
    SummaryUnpacks(c, tick, first);
    SnapshotMembers(c, tick, 1, cs);
    SnapshotFilters(c, tick, 1, cs);
    CountsAreEmpty(c, 1);
    assert Listed(c, c.selected) && Seen(cs, c.selected);
    if c.selected == c.excluded {
      FallbackHolds(c, tick, cs);
    } else {
      LeastIsHead(c, tick, cs);
      if Least(c) { ReasonHolds(c, tick, cs); }
    }
  }

  lemma FallbackHolds(c: Choice, tick: u64, cs: seq<Record>)
    requires WellPosed(c) && Snapshot(c, tick, 1, cs) && c.selected != IDLE && c.selected == c.excluded
    ensures Eligibles(cs) == [] && Least(c) && SelectionReason(c) == EXCLUDED_FALLBACK
    ensures var o := Ordered(OfTask(cs, c.selected));
      |o| == 1 && o[0].task == c.selected
  {
    CountsAreEmpty(c, 1);
    SnapshotFilters(c, tick, 1, cs);
    SnapshotPicks(c, tick, 1, cs, c.selected);
    OfTaskMembers(cs, c.selected);
    var one := OfTask(cs, c.selected);
    assert one[0] in one;
    assert one == [one[0]];
    OrderedMembers(one);
    assert Ordered(one)[0] in multiset(Ordered(one));
  }

  /** The selected task's record, and its place among the eligible ones. */
  lemma SelectedRecord(c: Choice, tick: u64, cs: seq<Record>) returns (m: Record)
    requires WellPosed(c) && Snapshot(c, tick, 1, cs) && c.selected != IDLE && c.selected != c.excluded
    ensures m in cs && m.task == c.selected && m in Eligibles(cs) && multiset(Eligibles(cs))[m] == 1
    ensures Least(c) ==> forall x :: x in Eligibles(cs) && x != m ==> KeyBefore(m, x)
  {
    hide Meta, Candidate, Eligibles, KeyBefore, EligibleMark;
    SnapshotMembers(c, tick, 1, cs);
    assert Listed(c, c.selected) && Seen(cs, c.selected);
    m := RecordOf(cs, c.selected);
    EligibleRecord(c, tick, cs, m);
    if Least(c) {
      forall x | x in Eligibles(cs) && x != m ensures KeyBefore(m, x) {
        EligibleRecord(c, tick, cs, x);
        if x.task == m.task { SameTaskSameRecord(c, tick, cs, x, m); }
        KeysCompare(c, tick, cs, m, x);
      }
    }
  }

  lemma LeastIsHead(c: Choice, tick: u64, cs: seq<Record>)
    requires WellPosed(c) && Snapshot(c, tick, 1, cs) && c.selected != IDLE && c.selected != c.excluded
    ensures Eligibles(cs) != [] && |Ordered(Eligibles(cs))| == |Eligibles(cs)|
    ensures Ordered(Eligibles(cs))[0].task == c.selected <==> Least(c)
  {
    hide Meta, Candidate, Eligibles, Ordered, KeyBefore, EligibleMark;
    SnapshotMembers(c, tick, 1, cs);
    var m := SelectedRecord(c, tick, cs);
    var e := Eligibles(cs);
    var o := Ordered(e);
    OrderedMembers(e);
    if Least(c) { OrderedHeads(e, m); }
    if o[0].task == c.selected {
      HeadIsSelected(c, tick, cs, m);
      forall k | Countable(c, k) && k != c.selected ensures Before(c.tasks[c.selected], c.tasks[k]) {
        assert Seen(cs, k);
        var x := RecordOf(cs, k);
        EligibleRecord(c, tick, cs, x);
        KeysCompare(c, tick, cs, x, m);
        BeforeIsStrictTotalOrder(c.tasks[c.selected], c.tasks[k], c.tasks[k]);
      }
    }
  }

  lemma HeadIsSelected(c: Choice, tick: u64, cs: seq<Record>, m: Record)
    requires Shaped(c) && Snapshot(c, tick, 1, cs) && m in cs && m in Eligibles(cs)
    requires Ordered(Eligibles(cs)) != [] && Ordered(Eligibles(cs))[0].task == m.task
    ensures forall x :: x in Eligibles(cs) ==> x == m || !KeyBefore(x, m)
  {
    hide Meta, Candidate, Eligibles, Ordered, KeyBefore, EligibleMark;
    var e := Eligibles(cs);
    var o := Ordered(e);
    OrderedMembers(e);
    OrderedIsSorted(e);
    assert o[0] in multiset(o);
    assert o[0] in e;
    EligibleRecord(c, tick, cs, o[0]);
    SameTaskSameRecord(c, tick, cs, o[0], m);
    forall x | x in e && x != m ensures !KeyBefore(x, m) {
      assert x in multiset(e);
      assert x in multiset(o);
      var j :| 0 <= j < |o| && o[j] == x;
    }
  }

  /** With company, the runner-up's record is the least of the others. */
  lemma SecondRecord(c: Choice, tick: u64, cs: seq<Record>, m: Record) returns (q: Record)
    requires WellPosed(c) && Snapshot(c, tick, 1, cs) && c.selected != IDLE && c.selected != c.excluded
    requires m in cs && m.task == c.selected && multiset(Eligibles(cs))[m] == 1 && |Eligibles(cs)| > 1
    ensures RunnerUp(c, TASK_COUNT) != INVALID && q.task == RunnerUp(c, TASK_COUNT)
    ensures q in cs && q in Eligibles(cs) && q != m && multiset(Eligibles(cs))[q] == 1
    ensures forall y :: y in Eligibles(cs) && y != m && y != q ==> KeyBefore(q, y)
  {
    hide Meta, Candidate, Eligibles, KeyBefore, EligibleMark, Before;
    SnapshotMembers(c, tick, 1, cs);
    var e := Eligibles(cs);
    var r := RunnerUp(c, TASK_COUNT);
    SecondExists(e, m);
    var x :| x in e && x != m;
    EligibleRecord(c, tick, cs, x);
    if x.task == m.task { SameTaskSameRecord(c, tick, cs, x, m); }
    assert Countable(c, x.task) && x.task != c.selected;
    assert Seen(cs, r as u16);
    q := RecordOf(cs, r);
    EligibleRecord(c, tick, cs, q);
    forall y | y in e && y != m && y != q ensures KeyBefore(q, y) {
      EligibleRecord(c, tick, cs, y);
      if y.task == m.task { SameTaskSameRecord(c, tick, cs, y, m); }
      if y.task == q.task { SameTaskSameRecord(c, tick, cs, y, q); }
      assert Countable(c, y.task);
      KeysCompare(c, tick, cs, q, y);
    }
  }

  lemma ReasonHolds(c: Choice, tick: u64, cs: seq<Record>)
    requires WellPosed(c) && Snapshot(c, tick, 1, cs) && c.selected != IDLE && c.selected != c.excluded && Least(c)
    ensures Ordered(Eligibles(cs)) != []
    ensures SelectionReason(c) == ExpectedReason(Ordered(Eligibles(cs)), false)
  {
    hide Meta, Candidate, Eligibles, Ordered, KeyBefore, EligibleMark, Before, Priority, Deadline, Snapshot;
    SnapshotFilters(c, tick, 1, cs);
    var m := SelectedRecord(c, tick, cs);
    var e := Eligibles(cs);
    OrderedMembers(e);
    if |e| > 1 {
      var q := SecondRecord(c, tick, cs, m);
      OrderedHeads(e, m);
      assert Ordered(e)[0] == m && Ordered(e)[1] == q;
      SnapshotKeys(c, tick, cs, m);
      SnapshotKeys(c, tick, cs, q);
    }
  }

  lemma SnapshotKeys(c: Choice, tick: u64, cs: seq<Record>, r: Record)
    requires Shaped(c) && Snapshot(c, tick, 1, cs) && r in cs
    ensures r.task < TASK_COUNT
    ensures Priority(r) == c.tasks[r.task].priority && Deadline(r.value0, r.value1) == c.tasks[r.task].absoluteDeadline
  {
    SnapshotMembers(c, tick, 1, cs);
    var j :| 0 <= j < |cs| && cs[j] == r;
    MetaUnpacks(c, tick, r.task, r.sequence);
  }

  lemma SecondExists(e: seq<Record>, m: Record)
    requires |e| > 1 && multiset(e)[m] == 1
    ensures exists x :: x in e && x != m
  {
    if e[0] == m && e[1] == m { TwiceCounted(e, 0, 1); }
    assert e[0] in e && e[1] in e;
  }

  /** The decoder accepts an emitted batch exactly when the choice it records
      is the least countable candidate; the reason then agrees with the one the
      decoder recomputes by sorting. */
  lemma DecoderAgrees(c: Choice, tick: u64, first: u32, cs: seq<Record>)
    requires WellPosed(c) && Snapshot(c, tick, 1, cs)
    ensures SnapshotValid(SummaryRecord(c, tick, first), cs) <==> Least(c)
  {
    hide Linked, MaskAgrees, MarksAgree, PurposeAgrees;
    LinkedHolds(c, tick, first, cs);
    MaskHolds(c, tick, first, cs);
    MarksHold(c, tick, first, cs);
    PurposeHolds(c, tick, first, cs);
    if c.selected == IDLE { IdleHolds(c, tick, first, cs); } else { ChoiceHolds(c, tick, first, cs); }
  }

  lemma IdleHolds(c: Choice, tick: u64, first: u32, cs: seq<Record>)
    requires WellPosed(c) && Snapshot(c, tick, 1, cs) && c.selected == IDLE
    ensures ChoiceAgrees(SummaryRecord(c, tick, first), cs)
  {
    SummaryUnpacks(c, tick, first);
    SnapshotMembers(c, tick, 1, cs);
    CountsAreEmpty(c, 1);
    assert forall k :: 1 <= k < TASK_COUNT && Runnable(c.tasks[k]) ==> Listed(c, k);
  }

  /** The recorded reason in plain numbers: 5 for idle, 6 when only the excluded
      task was left, 1 when the choice had no competitor, and otherwise what
      decided against the second best: 2 the deadline, 3 the priority, 4 the
      number. */
  lemma ReasonTells(c: Choice)
    requires WellPosed(c) && Least(c)
    ensures var n := SelectionReason(c);
      if c.selected == 0 then n == 5
      else if c.selected == c.excluded then n == 6
      else if forall k :: Countable(c, k) ==> k == c.selected then n == 1
      else exists r :: && Countable(c, r) && r != c.selected
                       && (forall k :: Countable(c, k) && k != c.selected && k != r ==> Before(c.tasks[r], c.tasks[k]))
                       && n == (if c.tasks[c.selected].absoluteDeadline < c.tasks[r].absoluteDeadline then 2
                                else if c.tasks[c.selected].priority < c.tasks[r].priority then 3
                                else 4)
  {
    hide RunnerUp, EligibleFrom;
    CountsAreEmpty(c, 1);
    RunnerUpIsLeast(c);
    if c.selected != 0 && c.selected != c.excluded {
      assert Countable(c, c.selected);
      EligibleAlone(c, 1);
    }
  }

  lemma RunnerUpIsLeast(c: Choice)
    requires Shaped(c)
    ensures var r := RunnerUp(c, TASK_COUNT);
      && (r == INVALID <==> forall k :: Countable(c, k) ==> k == c.selected)
      && (r != INVALID ==>
            r < TASK_COUNT && r != c.selected && Countable(c, r)
            && forall k :: Countable(c, k) && k != c.selected && k != r ==> Before(c.tasks[r], c.tasks[k]))
  {
  }

  /** At most one countable task from k on, if the selected one is the only. */
  lemma {:induction false} EligibleAlone(c: Choice, k: nat)
    requires Shaped(c) && 1 <= k <= TASK_COUNT
    ensures (forall j :: Countable(c, j) ==> j == c.selected) ==> EligibleFrom(c, k) <= 1
    ensures EligibleFrom(c, k) <= 1 ==> forall i, j :: k <= i < j < TASK_COUNT ==> !(Countable(c, i) && Countable(c, j))
    decreases TASK_COUNT - k
  {
    if k < TASK_COUNT {
      EligibleAlone(c, k + 1);
      CountsAreEmpty(c, k + 1);
    }
  }
}
