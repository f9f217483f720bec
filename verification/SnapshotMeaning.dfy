/** What a selection snapshot that the decoder accepts means: it is the picture of
    a choice over some task table, and the task it names is the least candidate. */
module SnapshotMeaning {
  import opened Words
  import opened Scheduler
  import opened TraceTypes
  import opened TraceRules
  import opened TraceSelection

  /** A summary and candidates that pass the decoder's rules on single records. */
  predicate Presentable(s: Record, cs: seq<Record>) {
    && s.event == TASK_SELECT && s.schema == SCHEMA && s.flags == 0 && RoleValid(s) && PayloadValid(s)
    && s.value2 == |cs|
    && forall k :: 0 <= k < |cs| ==>
         && cs[k].event == SELECT_CANDIDATE && cs[k].schema == SCHEMA && cs[k].flags == 0
         && RoleValid(cs[k]) && PayloadValid(cs[k])
  }

  predicate Distinct(cs: seq<Record>) {
    forall i, j :: 0 <= i < j < |cs| ==> cs[i].task != cs[j].task
  }

  /** The records show this choice: the summary is its summary, and the
      candidates are its listed tasks, in any order. */
  ghost predicate Pictures(c: Choice, s: Record, cs: seq<Record>) {
    && Shaped(c) && s == SummaryRecord(c, s.tick, s.sequence) && Distinct(cs)
    && (forall k :: 0 <= k < |cs| ==>
          1 <= cs[k].task < TASK_COUNT && Listed(c, cs[k].task)
          && cs[k] == Candidate(c, s.tick, cs[k].task, cs[k].sequence))
    && forall t: u16 :: 1 <= t < TASK_COUNT && Listed(c, t) ==> Seen(cs, t)
  }

  // ---- The table a snapshot shows ----

  /** Position of a task's candidate, or the length. */
  function Find(cs: seq<Record>, t: u16): (r: nat)
    ensures r <= |cs|
    ensures r < |cs| ==> cs[r].task == t
    ensures r == |cs| <==> !Seen(cs, t)
  {
    if cs == [] then 0
    else if cs[0].task == t then 0
    else
      var r := Find(cs[1..], t);
      assert forall k :: 0 < k < |cs| ==> cs[k] == cs[1..][k - 1];
      r + 1
  }

  /** The entry that a candidate shows; a task without one is not there. */
  function Shown(cs: seq<Record>, t: u8): (r: Task)
    ensures r.id == t
  {
    if Find(cs, t) == |cs| then Reset(t)
    else
      var r := cs[Find(cs, t)];
      Reset(t).(state := if StateCode(r) == RUNNING_CODE then Running else Ready, jobActive := true,
                absoluteDeadline := Deadline(r.value0, r.value1), priority := Priority(r))
  }

  function ShownTable(cs: seq<Record>): (r: seq<Task>)
    ensures |r| == TASK_COUNT && Indexed(r)
    ensures forall t :: 1 <= t < TASK_COUNT ==> r[t] == Shown(cs, t)
  {
    [Reset(IDLE).(state := Ready), Shown(cs, 1), Shown(cs, 2), Shown(cs, 3), Shown(cs, 4)]
  }

  function ShownChoice(s: Record, cs: seq<Record>): (c: Choice)
    requires Presentable(s, cs)
    ensures Shaped(c)
  {
    Choice(ShownTable(cs), s.task, if s.related == NO_TASK then INVALID else s.related, Exclusion(s), Purpose(s))
  }

  lemma FindIsUnique(cs: seq<Record>, k: nat)
    requires Distinct(cs) && k < |cs|
    ensures Find(cs, cs[k].task) == k
  {
    assert Seen(cs, cs[k].task);
  }

  lemma LinkedIsDistinct(s: Record, cs: seq<Record>)
    requires Linked(s, cs)
    ensures Distinct(cs)
  {
  }

  // ---- Candidates ----

  lemma {:induction false} MarkedMembers(cs: seq<Record>, t: u16)
    ensures t in MarkedTasks(cs) <==> exists k :: 0 <= k < |cs| && cs[k].task == t && IncumbentMark(cs[k])
  {
    hide IncumbentMark;
    if cs != [] {
      MarkedMembers(cs[1..], t);
      assert forall k :: 0 < k < |cs| ==> cs[k] == cs[1..][k - 1];
      if exists k :: 0 <= k < |cs[1..]| && cs[1..][k].task == t && IncumbentMark(cs[1..][k]) {
        var k :| 0 <= k < |cs[1..]| && cs[1..][k].task == t && IncumbentMark(cs[1..][k]);
        assert cs[k + 1].task == t && IncumbentMark(cs[k + 1]);
      }
    }
  }

  /** A candidate is marked as incumbent exactly when the summary names it. */
  lemma MarkNamesIncumbent(s: Record, cs: seq<Record>, k: nat)
    requires Presentable(s, cs) && SnapshotValid(s, cs) && k < |cs|
    ensures IncumbentMark(cs[k]) <==> cs[k].task == s.related
  {
    hide IncumbentMark, MaskAgrees, MarksAgree, ChoiceAgrees, StateCode, Exclusion, MarkedTasks, RoleValid,
         PayloadValid;
    MarkedMembers(cs, cs[k].task);
    assert cs[k].task != 0;
    if cs[k].task == s.related {
      assert Seen(cs, s.related);
      assert s.related in MarkedTasks(cs);
      var j :| 0 <= j < |cs| && cs[j].task == s.related && IncumbentMark(cs[j]);
    }
  }

  lemma Repacks(v: u32)
    requires v < 0x8_0000
    ensures v == v % 0x100 + 0x100 * (v / 0x100 % 0x100) + 0x1_0000 * (v / 0x1_0000 % 2) + 0x2_0000 * (v / 0x2_0000 % 2)
                 + 0x4_0000 * (v / 0x4_0000 % 2)
  {
    assert v / 0x100 == v / 0x100 % 0x100 + 0x100 * (v / 0x1_0000);
    assert v / 0x1_0000 == v / 0x1_0000 % 2 + 2 * (v / 0x2_0000);
    assert v / 0x2_0000 == v / 0x2_0000 % 2 + 2 * (v / 0x4_0000);
    assert v / 0x4_0000 < 2;
  }

  lemma RepacksSummary(v: u32)
    ensures v == v % 0x100 + 0x100 * (v / 0x100 % 0x100) + 0x1_0000 * (v / 0x1_0000 % 0x100)
                 + 0x100_0000 * (v / 0x100_0000)
  {
    assert v / 0x100 == v / 0x100 % 0x100 + 0x100 * (v / 0x1_0000);
    assert v / 0x1_0000 == v / 0x1_0000 % 0x100 + 0x100 * (v / 0x100_0000);
  }

  lemma DeadlineSplits(low: u32, high: u32)
    ensures Low32(Deadline(low, high)) == low && High32(Deadline(low, high)) == high
  {
  }

  /** Every candidate is the picture of its shown entry. */
  lemma CandidateShown(s: Record, cs: seq<Record>, k: nat)
    requires Presentable(s, cs) && SnapshotValid(s, cs) && k < |cs|
    ensures var c := ShownChoice(s, cs);
      1 <= cs[k].task < TASK_COUNT && cs[k] == Candidate(c, s.tick, cs[k].task, cs[k].sequence)
  {
    hide MaskAgrees, PurposeAgrees, ChoiceAgrees, Find, Deadline, ShownTable;
    var r := cs[k];
    LinkedIsDistinct(s, cs);
    FindIsUnique(cs, k);
    MarkNamesIncumbent(s, cs, k);
    CandidateFields(s, cs, k);
    DeadlineSplits(r.value0, r.value1);
    Repacks(r.value2);
  }

  lemma CandidateFields(s: Record, cs: seq<Record>, k: nat)
    requires Presentable(s, cs) && MarksAgree(s, cs) && Linked(s, cs) && k < |cs|
    ensures var r := cs[k];
      && 1 <= r.task < TASK_COUNT && r.value2 < 0x8_0000 && r.related == s.task && r.tick == s.tick
      && (StateCode(r) == READY_CODE || StateCode(r) == RUNNING_CODE)
      && (ExcludedMark(r) <==> r.task == Exclusion(s)) && (EligibleMark(r) <==> r.task != Exclusion(s))
  {
    hide Eligibles, ExcludedMark, EligibleMark;
  }

  /** The shown table lists exactly the candidates. */
  lemma ListedShown(s: Record, cs: seq<Record>, t: u16)
    requires Presentable(s, cs) && SnapshotValid(s, cs) && 1 <= t < TASK_COUNT
    ensures Listed(ShownChoice(s, cs), t) <==> Seen(cs, t)
    ensures Seen(cs, t) ==> (Runnable(ShownChoice(s, cs).tasks[t]) <==> StateCode(cs[Find(cs, t)]) == READY_CODE)
  {
    hide MaskAgrees, ChoiceAgrees, Find, Deadline, Eligibles, StateCode, ExcludedMark, EligibleMark, MarkedTasks,
         Priority;
    if Seen(cs, t) {
      CandidateFields(s, cs, Find(cs, t));
    }
  }

  lemma MaskBits(v: u32)
    requires v < 32 && v % 2 == 0
    ensures v == 2 * Bit(InMask(v, 1)) + 4 * Bit(InMask(v, 2)) + 8 * Bit(InMask(v, 3)) + 16 * Bit(InMask(v, 4))
  {
    assert v / 2 == v / 2 % 2 + 2 * (v / 4);
    assert v / 4 == v / 4 % 2 + 2 * (v / 8);
    assert v / 8 == v / 8 % 2 + 2 * (v / 16);
    assert v / 16 < 2;
  }

  lemma MaskShown(s: Record, cs: seq<Record>)
    requires Presentable(s, cs) && SnapshotValid(s, cs)
    ensures s.value0 == ReadyMask(ShownTable(cs))
  {
    hide MarksAgree, PurposeAgrees, ChoiceAgrees, Find, StateCode, InMask, RoleValid, PayloadValid;
    MaskBits(s.value0);
    forall t: u16 | 1 <= t < TASK_COUNT ensures InMask(s.value0, t) <==> Runnable(ShownTable(cs)[t]) {
      ListedShown(s, cs, t);
      if InMask(s.value0, t) {
        var k :| 0 <= k < |cs| && cs[k].task == t && StateCode(cs[k]) == READY_CODE;
        LinkedIsDistinct(s, cs);
        FindIsUnique(cs, k);
      }
    }
  }

  // ---- The candidates by task ----

  function Pick(cs: seq<Record>, t: u16): seq<Record> {
    if Find(cs, t) == |cs| then [] else [cs[Find(cs, t)]]
  }

  /** The candidates of tasks from k on, in task order. */
  function ByTask(cs: seq<Record>, k: nat): seq<Record>
    requires 1 <= k <= TASK_COUNT
    decreases TASK_COUNT - k
  {
    if k == TASK_COUNT then [] else Pick(cs, k) + ByTask(cs, k + 1)
  }

  lemma {:induction false} ByTaskIsSnapshot(s: Record, cs: seq<Record>, k: nat)
    requires Presentable(s, cs) && SnapshotValid(s, cs) && 1 <= k <= TASK_COUNT
    ensures Snapshot(ShownChoice(s, cs), s.tick, k, ByTask(cs, k))
    decreases TASK_COUNT - k
  {
    hide SnapshotValid, Presentable, Find, Listed, Candidate, ShownChoice, Seen;
    if k < TASK_COUNT {
      ByTaskIsSnapshot(s, cs, k + 1);
      ListedShown(s, cs, k);
      if Seen(cs, k) {
        CandidateShown(s, cs, Find(cs, k));
        PickFirst(cs[Find(cs, k)], ByTask(cs, k + 1));
      } else {
        assert Pick(cs, k) + ByTask(cs, k + 1) == ByTask(cs, k + 1);
      }
    }
  }

  lemma PickFirst(r: Record, rest: seq<Record>)
    ensures ([r] + rest)[0] == r && ([r] + rest)[1..] == rest
  {
  }

  lemma PickMembers(cs: seq<Record>, t: u16)
    requires Distinct(cs)
    ensures forall r :: r in Pick(cs, t) <==> r in cs && r.task == t
    ensures |Pick(cs, t)| <= 1
  {
    hide Find;
    forall r | r in cs && r.task == t ensures Pick(cs, t) == [r] {
      var j :| 0 <= j < |cs| && cs[j] == r;
      FindIsUnique(cs, j);
    }
    if Seen(cs, t) { assert cs[Find(cs, t)] in cs; }
  }

  lemma DistinctJoin(a: seq<Record>, b: seq<Record>, t: int)
    requires |a| <= 1 && Distinct(b)
    requires forall r :: r in a ==> r.task == t
    requires forall r :: r in b ==> r.task > t
    ensures Distinct(a + b)
  {
    if a != [] {
      assert a[0] in a;
      forall i, j | 0 <= i < j < |a + b| ensures (a + b)[i].task != (a + b)[j].task {
        assert (a + b)[j] == b[j - 1] && b[j - 1] in b;
        if i > 0 { assert (a + b)[i] == b[i - 1]; }
      }
    } else {
      assert a + b == b;
    }
  }

  lemma {:induction false} ByTaskMembers(cs: seq<Record>, k: nat)
    requires Distinct(cs) && 1 <= k <= TASK_COUNT
    ensures forall r :: r in ByTask(cs, k) <==> r in cs && k <= r.task < TASK_COUNT
    ensures Distinct(ByTask(cs, k))
    decreases TASK_COUNT - k
  {
    hide Pick, Distinct;
    if k < TASK_COUNT {
      ByTaskMembers(cs, k + 1);
      PickMembers(cs, k);
      DistinctJoin(Pick(cs, k), ByTask(cs, k + 1), k);
    } else {
      NoneAreDistinct();
    }
  }

  lemma NoneAreDistinct()
    ensures Distinct([])
  {
  }

  lemma {:induction false} OnceInDistinct(cs: seq<Record>, r: Record)
    requires Distinct(cs)
    ensures multiset(cs)[r] == if r in cs then 1 else 0
  {
    if cs != [] {
      assert cs == [cs[0]] + cs[1..];
      assert forall k :: 0 < k < |cs| ==> cs[k] == cs[1..][k - 1];
      OnceInDistinct(cs[1..], r);
    }
  }

  lemma SameMembersSameCounts(a: seq<Record>, b: seq<Record>)
    requires Distinct(a) && Distinct(b) && forall r :: r in a <==> r in b
    ensures multiset(a) == multiset(b) && |a| == |b|
  {
    forall r ensures multiset(a)[r] == multiset(b)[r] {
      OnceInDistinct(a, r);
      OnceInDistinct(b, r);
    }
    assert |multiset(a)| == |a| && |multiset(b)| == |b|;
  }

  lemma {:induction false} EligiblesAreDistinct(cs: seq<Record>)
    requires Distinct(cs)
    ensures Distinct(Eligibles(cs))
  {
    hide EligibleMark;
    if cs != [] {
      assert forall k :: 0 < k < |cs| ==> cs[k] == cs[1..][k - 1];
      EligiblesAreDistinct(cs[1..]);
      EligiblesMembers(cs[1..]);
      forall j | 0 <= j < |Eligibles(cs[1..])| ensures Eligibles(cs[1..])[j].task != cs[0].task {
        assert Eligibles(cs[1..])[j] in cs[1..];
      }
    }
  }

  lemma HeadsAgree(a: seq<Record>, b: seq<Record>)
    requires Sorted(a) && Sorted(b) && a != [] && b != [] && a[0] in b && b[0] in a
    requires a[0] != b[0] ==> KeyBefore(a[0], b[0]) || KeyBefore(b[0], a[0])
    ensures a[0] == b[0]
  {
    hide KeyBefore;
    var i :| 0 <= i < |a| && a[i] == b[0];
    var j :| 0 <= j < |b| && b[j] == a[0];
    assert (i > 0 ==> !KeyBefore(a[i], a[0])) && (j > 0 ==> !KeyBefore(b[j], b[0]));
  }

  lemma TailsAlike(a: seq<Record>, b: seq<Record>)
    requires a != [] && b != [] && a[0] == b[0] && multiset(a) == multiset(b)
    ensures multiset(a[1..]) == multiset(b[1..])
  {
    assert a == [a[0]] + a[1..] && b == [b[0]] + b[1..];
    assert multiset(a[1..]) == multiset(a) - multiset{a[0]};
    assert multiset(b[1..]) == multiset(b) - multiset{a[0]};
  }

  lemma TailIsSorted(a: seq<Record>)
    requires a != [] && Sorted(a)
    ensures Sorted(a[1..])
  {
    hide KeyBefore;
    forall i, j | 0 <= i < j < |a[1..]| ensures !KeyBefore(a[1..][j], a[1..][i]) {
      assert a[1..][j] == a[j + 1] && a[1..][i] == a[i + 1];
    }
  }

  ghost predicate Comparable(a: seq<Record>) {
    forall x, y :: x in a && y in a && x != y ==> KeyBefore(x, y) || KeyBefore(y, x)
  }

  lemma MembersAlike(a: seq<Record>, b: seq<Record>)
    requires multiset(a) == multiset(b)
    ensures (forall r :: r in a <==> r in b) && |a| == |b|
  {
    assert forall r :: r in a <==> r in multiset(a);
    assert forall r :: r in b <==> r in multiset(b);
    assert |multiset(a)| == |a| && |multiset(b)| == |b|;
  }

  /** Two sorted lists of the same distinct candidates are the same list. */
  lemma {:induction false} SortedIsUnique(a: seq<Record>, b: seq<Record>)
    requires Sorted(a) && Sorted(b) && multiset(a) == multiset(b) && Comparable(a)
    ensures a == b
  {
    hide KeyBefore, Sorted;
    MembersAlike(a, b);
    if a != [] {
      HeadsAgree(a, b);
      TailsAlike(a, b);
      TailIsSorted(a);
      TailIsSorted(b);
      SortedIsUnique(a[1..], b[1..]);
      assert a == [a[0]] + a[1..] && b == [b[0]] + b[1..];
    }
  }

  lemma DifferentTasksDiffer(x: Record, y: Record)
    requires x.task != y.task
    ensures KeyBefore(x, y) || KeyBefore(y, x)
  {
  }

  /** The decoder's sorted list does not depend on the order of the records. */
  lemma OrderedAlike(a: seq<Record>, b: seq<Record>)
    requires Distinct(a) && Distinct(b) && forall r :: r in a <==> r in b
    ensures Ordered(a) == Ordered(b)
  {
    hide KeyBefore, Ordered;
    SameMembersSameCounts(a, b);
    OrderedMembers(a);
    OrderedMembers(b);
    OrderedIsSorted(a);
    OrderedIsSorted(b);
    assert forall r :: r in a <==> r in multiset(a);
    assert forall r :: r in Ordered(a) <==> r in multiset(Ordered(a));
    forall x, y | x in Ordered(a) && y in Ordered(a) && x != y ensures KeyBefore(x, y) || KeyBefore(y, x) {
      var i :| 0 <= i < |a| && a[i] == x;
      var j :| 0 <= j < |a| && a[j] == y;
      DifferentTasksDiffer(x, y);
    }
    SortedIsUnique(Ordered(a), Ordered(b));
  }

  lemma EligiblesAlike(a: seq<Record>, b: seq<Record>)
    requires Distinct(a) && Distinct(b) && forall r :: r in a <==> r in b
    ensures Ordered(Eligibles(a)) == Ordered(Eligibles(b)) && |Eligibles(a)| == |Eligibles(b)|
  {
    hide EligibleMark, Eligibles, Ordered;
    EligiblesMembers(a);
    EligiblesMembers(b);
    EligiblesAreDistinct(a);
    EligiblesAreDistinct(b);
    OrderedAlike(Eligibles(a), Eligibles(b));
    SameMembersSameCounts(Eligibles(a), Eligibles(b));
  }

  // ---- The choice ----

  lemma AllByTask(s: Record, cs: seq<Record>)
    requires Presentable(s, cs) && SnapshotValid(s, cs)
    ensures Distinct(cs) && Distinct(ByTask(cs, 1)) && (forall r :: r in cs <==> r in ByTask(cs, 1))
    ensures |ByTask(cs, 1)| == |cs|
    ensures Snapshot(ShownChoice(s, cs), s.tick, 1, ByTask(cs, 1))
  {
    hide MaskAgrees, MarksAgree, PurposeAgrees, ChoiceAgrees, ByTask;
    LinkedIsDistinct(s, cs);
    ByTaskMembers(cs, 1);
    ByTaskIsSnapshot(s, cs, 1);
    forall r | r in cs ensures 1 <= r.task < TASK_COUNT {
      var k :| 0 <= k < |cs| && cs[k] == r;
      CandidateFields(s, cs, k);
    }
    SameMembersSameCounts(cs, ByTask(cs, 1));
  }

  lemma ShownCounts(s: Record, cs: seq<Record>)
    requires Presentable(s, cs) && SnapshotValid(s, cs)
    ensures var c := ShownChoice(s, cs);
      && ListedFrom(c, 1) == |cs| == s.value2 && EligibleFrom(c, 1) == EligibleCount(s) == |Eligibles(cs)|
      && Ordered(Eligibles(cs)) == Ordered(Eligibles(ByTask(cs, 1)))
  {
    hide ShownChoice, ByTask, Snapshot, Eligibles, Ordered, Linked, MaskAgrees, PurposeAgrees, ChoiceAgrees, RoleValid,
         PayloadValid;
    var c := ShownChoice(s, cs);
    AllByTask(s, cs);
    SnapshotMembers(c, s.tick, 1, ByTask(cs, 1));
    SnapshotFilters(c, s.tick, 1, ByTask(cs, 1));
    EligiblesAlike(cs, ByTask(cs, 1));
  }

  lemma ShownIsWellPosed(s: Record, cs: seq<Record>)
    requires Presentable(s, cs) && SnapshotValid(s, cs)
    ensures WellPosed(ShownChoice(s, cs))
  {
    hide MaskAgrees, MarksAgree, Find, StateCode, Eligibles, Ordered, Deadline, Priority, MarkedTasks, IncumbentMark;
    var c := ShownChoice(s, cs);
    ShownCounts(s, cs);
    CountsAreEmpty(c, 1);
    if s.task != 0 {
      ListedShown(s, cs, s.task);
      SelectedIsReady(s, cs);
    }
    if s.related != NO_TASK && s.related != 0 {
      ListedShown(s, cs, s.related);
      if Purpose(s) != DISPATCH { IncumbentRuns(s, cs); }
    }
    if c.selected == c.excluded && c.selected != IDLE { NobodyElse(s, cs); }
  }

  lemma SelectedIsReady(s: Record, cs: seq<Record>)
    requires Presentable(s, cs) && SnapshotValid(s, cs) && s.task != 0
    ensures Seen(cs, s.task) && StateCode(cs[Find(cs, s.task)]) == READY_CODE
  {
    hide MaskAgrees, MarksAgree, Find, StateCode, Eligibles, Ordered, Deadline, Priority, MarkedTasks;
  }

  lemma IncumbentRuns(s: Record, cs: seq<Record>)
    requires Presentable(s, cs) && SnapshotValid(s, cs) && Purpose(s) != DISPATCH && 1 <= s.related < TASK_COUNT
    ensures Seen(cs, s.related) && Shown(cs, s.related).state.Running? && Shown(cs, s.related).jobActive
  {
    hide MaskAgrees, MarksAgree, ChoiceAgrees, Find, StateCode, Eligibles, Ordered, Deadline, Priority, MarkedTasks,
         IncumbentMark;
    MarkedMembers(cs, s.related);
    assert s.related in MarkedTasks(cs);
  }

  /** The excluded task is not among the eligible ones. */
  lemma HeadIsAllowed(s: Record, cs: seq<Record>)
    requires MarksAgree(s, cs)
    ensures Eligibles(cs) != [] ==> Ordered(Eligibles(cs)) != [] && !IsExcluded(s, Ordered(Eligibles(cs))[0].task)
  {
    hide Ordered, Exclusion, EligibleMark, IsExcluded;
    EligiblesMembers(cs);
    OrderedMembers(Eligibles(cs));
    if Eligibles(cs) != [] {
      var head := Ordered(Eligibles(cs))[0];
      assert head in multiset(Ordered(Eligibles(cs)));
      assert head in Eligibles(cs);
      var k :| 0 <= k < |cs| && cs[k] == head;
      assert EligibleMark(cs[k]) <==> !IsExcluded(s, cs[k].task);
    }
  }

  /** When the excluded task itself was chosen, nobody else was eligible. */
  lemma NobodyElse(s: Record, cs: seq<Record>)
    requires Presentable(s, cs) && SnapshotValid(s, cs) && s.task != 0 && s.task == Exclusion(s)
    ensures Eligibles(cs) == [] && Reason(s) == EXCLUDED_FALLBACK
  {
    hide MaskAgrees, PurposeAgrees, StateCode, Ordered, Deadline, Priority, Exclusion, EligibleMark;
    HeadIsAllowed(s, cs);
    OfTaskMembers(cs, s.task);
    LinkedIsDistinct(s, cs);
    OnlyOneOfTask(cs, s.task);
    OrderedMembers(OfTask(cs, s.task));
  }

  lemma {:induction false} OnlyOneOfTask(cs: seq<Record>, t: u16)
    requires Distinct(cs)
    ensures |OfTask(cs, t)| <= 1
    ensures !Seen(cs, t) ==> OfTask(cs, t) == []
  {
    if cs != [] {
      assert forall k :: 0 < k < |cs| ==> cs[k] == cs[1..][k - 1];
      OnlyOneOfTask(cs[1..], t);
      assert cs[0].task == t ==> !Seen(cs[1..], t);
    }
  }

  /** The named task is the least candidate, and the reason is the right one. */
  lemma ShownIsLeast(s: Record, cs: seq<Record>)
    requires Presentable(s, cs) && SnapshotValid(s, cs)
    ensures var c := ShownChoice(s, cs);
      WellPosed(c) && Least(c) && SelectionReason(c) == Reason(s)
  {
    hide Linked, MaskAgrees, MarksAgree, PurposeAgrees, StateCode, Ordered, Eligibles, Deadline, Priority, Snapshot,
         ByTask, WellPosed, SelectionReason, ShownTable, RoleValid, PayloadValid, Reason;
    var c := ShownChoice(s, cs);
    ShownIsWellPosed(s, cs);
    ShownCounts(s, cs);
    AllByTask(s, cs);
    if s.task == 0 {
      ReasonCases(c);
    } else {
      if c.selected == c.excluded {
        NobodyElse(s, cs);
        FallbackHolds(c, s.tick, ByTask(cs, 1));
      } else {
        LeastIsHead(c, s.tick, ByTask(cs, 1));
        HeadNotExcluded(s, cs);
        ReasonHolds(c, s.tick, ByTask(cs, 1));
      }
    }
  }

  lemma ReasonCases(c: Choice)
    requires Shaped(c) && c.selected == IDLE
    ensures SelectionReason(c) == IDLE_REASON
  {
  }

  lemma HeadNotExcluded(s: Record, cs: seq<Record>)
    requires Presentable(s, cs) && SnapshotValid(s, cs) && s.task != 0 && s.task != Exclusion(s)
    ensures !IsExcluded(s, s.task)
  {
  }

  /** A snapshot that the decoder accepts shows a choice that the scheduler
      makes: over the table its candidates show, the named task is the least of
      those that may be chosen, and mask, counts, marks and reason are the ones
      that belong to that choice. */
  lemma AcceptedSnapshotIsAChoice(s: Record, cs: seq<Record>) returns (c: Choice)
    requires Presentable(s, cs) && SnapshotValid(s, cs)
    ensures WellPosed(c) && Least(c) && Pictures(c, s, cs)
  {
    hide SnapshotValid, Presentable, ShownChoice, Find, Listed, Candidate, SummaryRecord, WellPosed, Least;
    c := ShownChoice(s, cs);
    ShownIsLeast(s, cs);
    SummaryShown(s, cs);
    AllByTask(s, cs);
    forall k | 0 <= k < |cs|
      ensures 1 <= cs[k].task < TASK_COUNT && Listed(c, cs[k].task)
              && cs[k] == Candidate(c, s.tick, cs[k].task, cs[k].sequence)
    {
      CandidateShown(s, cs, k);
      assert Seen(cs, cs[k].task);
      ListedShown(s, cs, cs[k].task);
    }
    forall t: u16 | 1 <= t < TASK_COUNT && Listed(c, t) ensures Seen(cs, t) {
      ListedShown(s, cs, t);
    }
  }

  lemma SummaryShown(s: Record, cs: seq<Record>)
    requires Presentable(s, cs) && SnapshotValid(s, cs)
    ensures s == SummaryRecord(ShownChoice(s, cs), s.tick, s.sequence)
  {
    hide SnapshotValid, ShownTable, SelectionReason, EligibleFrom, ListedFrom, ReadyMask, Eligibles, Ordered, RoleValid,
         PayloadValid;
    RepacksSummary(s.value1);
    MaskShown(s, cs);
    ShownCounts(s, cs);
    ShownIsLeast(s, cs);
    SummaryRoles(s, cs);
  }

  lemma SummaryRoles(s: Record, cs: seq<Record>)
    requires Presentable(s, cs)
    ensures s.task < TASK_COUNT && (s.related == NO_TASK || s.related < TASK_COUNT)
  {
  }
}
