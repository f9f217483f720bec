/** What the strict decoder demands of a record list beyond framing: possible
    roles, possible payloads, and selection snapshots whose stated choice and
    reason it recomputes. */
module TraceRules {
  import opened Words
  import opened TraceTypes

  const MAX_TASK: u16 := 4
  const NO_EXCLUSION: u8 := 0xFF

  const ONLY_READY: u8 := 1
  const BY_DEADLINE: u8 := 2
  const BY_PRIORITY: u8 := 3
  const STABLE_TID: u8 := 4
  const IDLE_REASON: u8 := 5
  const EXCLUDED_FALLBACK: u8 := 6

  const DISPATCH: u8 := 1
  const SYSTICK_PROBE: u8 := 2
  const CREATE_PROBE: u8 := 3

  const READY_CODE: u8 := 2
  const RUNNING_CODE: u8 := 3

  predicate TaskValid(t: u16) {
    t == NO_TASK || t <= MAX_TASK
  }

  predicate User(t: u16) {
    1 <= t <= MAX_TASK
  }

  function Deadline(low: u32, high: u32): u64 {
    low + 0x1_0000_0000 * high
  }

  // ---- Packed fields ----

  function Reason(s: Record): u8 { s.value1 % 0x100 }
  function Purpose(s: Record): u8 { s.value1 / 0x100 % 0x100 }
  function Exclusion(s: Record): u8 { s.value1 / 0x1_0000 % 0x100 }
  function EligibleCount(s: Record): u8 { s.value1 / 0x100_0000 }

  function Priority(c: Record): u8 { c.value2 % 0x100 }
  function StateCode(c: Record): u8 { c.value2 / 0x100 % 0x100 }
  predicate ExcludedMark(c: Record) { c.value2 / 0x1_0000 % 2 == 1 }
  predicate IncumbentMark(c: Record) { c.value2 / 0x2_0000 % 2 == 1 }
  predicate EligibleMark(c: Record) { c.value2 / 0x4_0000 % 2 == 1 }

  /** Task t is the task a snapshot names as excluded. */
  predicate IsExcluded(s: Record, t: u16) {
    Exclusion(s) != NO_EXCLUSION && t == Exclusion(s)
  }

  predicate InMask(mask: u32, t: u16) {
    match t
    case 1 => mask / 2 % 2 == 1
    case 2 => mask / 4 % 2 == 1
    case 3 => mask / 8 % 2 == 1
    case 4 => mask / 16 % 2 == 1
    case _ => false
  }

  // ---- Ordering by key ----

  /** Deadline, then priority, then task, as the decoder's sort key compares. */
  predicate KeyBefore(a: Record, b: Record) {
    var da, db := Deadline(a.value0, a.value1), Deadline(b.value0, b.value1);
    da < db || (da == db && (Priority(a) < Priority(b) || (Priority(a) == Priority(b) && a.task < b.task)))
  }

  function Insert(x: Record, s: seq<Record>): seq<Record> {
    if s == [] then [x]
    else if KeyBefore(s[0], x) then [s[0]] + Insert(x, s[1..])
    else [x] + s
  }

  function Ordered(s: seq<Record>): (r: seq<Record>) {
    if s == [] then [] else Insert(s[0], Ordered(s[1..]))
  }

  lemma {:induction false} InsertMembers(x: Record, s: seq<Record>)
    ensures multiset(Insert(x, s)) == multiset(s) + multiset{x}
    ensures |Insert(x, s)| == |s| + 1
  {
    if s != [] {
      assert s == [s[0]] + s[1..];
      if KeyBefore(s[0], x) { InsertMembers(x, s[1..]); }
    }
  }

  lemma {:induction false} OrderedMembers(s: seq<Record>)
    ensures multiset(Ordered(s)) == multiset(s) && |Ordered(s)| == |s|
  {
    if s != [] {
      assert s == [s[0]] + s[1..];
      OrderedMembers(s[1..]);
      InsertMembers(s[0], Ordered(s[1..]));
    }
  }

  ghost predicate Sorted(s: seq<Record>) {
    forall i, j :: 0 <= i < j < |s| ==> !KeyBefore(s[j], s[i])
  }

  lemma {:induction false} InsertKeepsSorted(x: Record, s: seq<Record>)
    requires Sorted(s)
    ensures Sorted(Insert(x, s))
  {
    if s != [] && KeyBefore(s[0], x) {
      InsertKeepsSorted(x, s[1..]);
      InsertMembers(x, s[1..]);
      var r := Insert(x, s[1..]);
      forall j | 0 <= j < |r| ensures !KeyBefore(r[j], s[0]) {
        assert r[j] in multiset(r);
        if r[j] != x {
          assert r[j] in multiset(s[1..]);
          var k :| 0 <= k < |s[1..]| && s[1..][k] == r[j];
          assert s[k + 1] == r[j];
        }
      }
    }
  }

  lemma {:induction false} OrderedIsSorted(s: seq<Record>)
    ensures Sorted(Ordered(s))
  {
    if s != [] {
      OrderedIsSorted(s[1..]);
      InsertKeepsSorted(s[0], Ordered(s[1..]));
    }
  }

  /** The head of the sorted list is the least element, and the second is the
      least of the others. */
  lemma OrderedHeads(s: seq<Record>, m: Record)
    requires m in s && multiset(s)[m] == 1
    requires forall x :: x in s && x != m ==> KeyBefore(m, x)
    ensures |Ordered(s)| == |s| && Ordered(s)[0] == m
    ensures forall r :: r in s && r != m && multiset(s)[r] == 1
                        && (forall x :: x in s && x != m && x != r ==> KeyBefore(r, x))
                        ==> |s| > 1 && Ordered(s)[1] == r
  {
    var o := Ordered(s);
    OrderedMembers(s);
    OrderedIsSorted(s);
    assert forall x :: x in s <==> x in multiset(s);
    assert forall x :: x in o <==> x in multiset(o);
    var i :| 0 <= i < |o| && o[i] == m;
    if i > 0 {
      assert o[0] in s;
      if o[0] == m { TwiceCounted(o, 0, i); }
    }
    forall r | r in s && r != m && multiset(s)[r] == 1 && (forall x :: x in s && x != m && x != r ==> KeyBefore(r, x))
      ensures |s| > 1 && Ordered(s)[1] == r
    {
      var j :| 0 <= j < |o| && o[j] == r;
      if j > 1 {
        assert o[1] in s;
        if o[1] == m { TwiceCounted(o, 0, 1); }
        if o[1] == r { TwiceCounted(o, 1, j); }
      }
    }
  }

  lemma TwiceCounted(s: seq<Record>, i: nat, j: nat)
    requires i < j < |s| && s[i] == s[j]
    ensures multiset(s)[s[i]] >= 2
  {
    assert s == s[..i] + [s[i]] + s[i + 1..j] + [s[j]] + s[j + 1..];
  }

  // ---- Selection snapshots ----

  function Eligibles(cs: seq<Record>): seq<Record> {
    if cs == [] then [] else (if EligibleMark(cs[0]) then [cs[0]] else []) + Eligibles(cs[1..])
  }

  function MarkedTasks(cs: seq<Record>): seq<u16> {
    if cs == [] then [] else (if IncumbentMark(cs[0]) then [cs[0].task] else []) + MarkedTasks(cs[1..])
  }

  function OfTask(cs: seq<Record>, t: u16): seq<Record> {
    if cs == [] then [] else (if cs[0].task == t then [cs[0]] else []) + OfTask(cs[1..], t)
  }

  predicate Seen(cs: seq<Record>, t: u16) {
    exists k :: 0 <= k < |cs| && cs[k].task == t
  }

  /** Candidates are distinct real tasks, linked to the summary by selected
      task and tick. */
  predicate Linked(s: Record, cs: seq<Record>) {
    && (forall k :: 0 <= k < |cs| ==> cs[k].task != NO_TASK && cs[k].task != 0
                                        && cs[k].related == s.task && cs[k].tick == s.tick)
    && (forall j, k :: 0 <= j < k < |cs| ==> cs[j].task != cs[k].task)
  }

  /** The READY mask has only user bits and is the set of READY candidates. */
  predicate MaskAgrees(s: Record, cs: seq<Record>) {
    && s.value0 < 32 && s.value0 % 2 == 0
    && (forall k :: 0 <= k < |cs| && StateCode(cs[k]) == READY_CODE ==> InMask(s.value0, cs[k].task))
    && (forall t: u16 :: User(t) && InMask(s.value0, t) ==>
          exists k :: 0 <= k < |cs| && cs[k].task == t && StateCode(cs[k]) == READY_CODE)
  }

  predicate MarksAgree(s: Record, cs: seq<Record>) {
    && |Eligibles(cs)| == EligibleCount(s)
    && (forall k :: 0 <= k < |cs| ==> (ExcludedMark(cs[k]) <==> IsExcluded(s, cs[k].task)))
    && (forall k :: 0 <= k < |cs| ==> (EligibleMark(cs[k]) <==> !IsExcluded(s, cs[k].task)))
  }

  predicate AllReady(cs: seq<Record>) {
    forall k :: 0 <= k < |cs| ==> StateCode(cs[k]) == READY_CODE
  }

  predicate PurposeAgrees(s: Record, cs: seq<Record>) {
    if Purpose(s) == DISPATCH then
      AllReady(cs) && MarkedTasks(cs) == if Seen(cs, s.related) then [s.related] else []
    else if Purpose(s) == SYSTICK_PROBE || Purpose(s) == CREATE_PROBE then
      && Exclusion(s) == NO_EXCLUSION && s.related != NO_TASK && s.task != s.related
      && (if s.related == 0 then MarkedTasks(cs) == [] && AllReady(cs)
          else && |cs| >= 2 && MarkedTasks(cs) == [s.related]
               && (forall k :: 0 <= k < |cs| ==>
                     StateCode(cs[k]) == if cs[k].task == s.related then RUNNING_CODE else READY_CODE))
    else false
  }

  /** The reason the decoder gives for the head of a sorted list. */
  function ExpectedReason(ordered: seq<Record>, fallback: bool): u8
    requires ordered != []
  {
    if |ordered| == 1 then (if fallback then EXCLUDED_FALLBACK else ONLY_READY)
    else if Deadline(ordered[0].value0, ordered[0].value1) != Deadline(ordered[1].value0, ordered[1].value1) then
      BY_DEADLINE
    else if Priority(ordered[0]) != Priority(ordered[1]) then BY_PRIORITY
    else STABLE_TID
  }

  predicate ChoiceAgrees(s: Record, cs: seq<Record>) {
    if s.task == 0 then
      cs == [] && s.value0 == 0 && EligibleCount(s) == 0 && Exclusion(s) == NO_EXCLUSION
      && Reason(s) == IDLE_REASON && Purpose(s) == DISPATCH
    else
      && Seen(cs, s.task)
      && var eligible := Eligibles(cs);
         var selectable := if eligible == [] && IsExcluded(s, s.task) then OfTask(cs, s.task) else eligible;
         var ordered := Ordered(selectable);
         && ordered != [] && ordered[0].task == s.task
         && Reason(s) == ExpectedReason(ordered, eligible == [] && IsExcluded(s, s.task))
  }

  predicate SnapshotValid(s: Record, cs: seq<Record>) {
    Linked(s, cs) && MaskAgrees(s, cs) && MarksAgree(s, cs) && PurposeAgrees(s, cs) && ChoiceAgrees(s, cs)
  }

  /** Every summary is followed by its whole candidate snapshot, and no
      candidate stands alone. */
  predicate SelectionsValid(rs: seq<Record>)
    decreases |rs|
  {
    if rs == [] then true
    else if rs[0].event != TASK_SELECT then rs[0].event != SELECT_CANDIDATE && SelectionsValid(rs[1..])
    else
      var n := rs[0].value2;
      && n <= MAX_TASK && 1 + n <= |rs|
      && (forall k :: 1 <= k <= n ==> rs[k].event == SELECT_CANDIDATE)
      && SnapshotValid(rs[0], rs[1..1 + n])
      && SelectionsValid(rs[1 + n..])
  }

  // ---- Roles and payloads ----

  predicate RoleValid(r: Record) {
    var known := User(r.related) || r.related == 0;
    if r.event in {KERNEL_START, OVERFLOW} then r.task == NO_TASK && r.related == NO_TASK
    else if r.event == TASK_CREATE then User(r.task) && (r.related == NO_TASK || User(r.related))
    else if r.event == TASK_SELECT then (User(r.task) || r.task == 0) && (r.related == NO_TASK || known)
    else if r.event == SELECT_CANDIDATE then User(r.task) && known
    else if r.event == TASK_PREEMPT then (User(r.task) || r.task == 0) && User(r.related)
    else if r.event == CONTEXT_SWITCH then (r.task == NO_TASK || User(r.task) || r.task == 0) && known
    else if r.event == IDLE_START then r.task == 0 && (r.related == NO_TASK || User(r.related))
    else if r.event == IDLE_STOP then r.task == 0 && User(r.related)
    else User(r.task) && r.related == NO_TASK
  }

  predicate PayloadValid(r: Record) {
    var v0, v1, v2 := r.value0, r.value1, r.value2;
    if r.event == KERNEL_START then v0 == 0 && v1 == 5 && v2 == 0
    else if r.event == TASK_CREATE then v0 <= 1 && v1 <= 0xFF && 1 <= v2 <= 2
    else if r.event in {TASK_RELEASE, TASK_START, TASK_WAKE, DEADLINE_MET, DEADLINE_MISS} then v2 > 0
    else if r.event == TASK_SELECT then
      && ONLY_READY <= Reason(r) <= EXCLUDED_FALLBACK && DISPATCH <= Purpose(r) <= CREATE_PROBE
      && (1 <= Exclusion(r) <= 4 || Exclusion(r) == NO_EXCLUSION)
    else if r.event == SELECT_CANDIDATE then
      v2 <= 0x7_FFFF && (StateCode(r) == READY_CODE || StateCode(r) == RUNNING_CODE)
    else if r.event == TASK_PREEMPT then 1 <= v0 <= 3 && v1 == 0 && v2 == 0
    else if r.event in {TASK_YIELD, IDLE_START, IDLE_STOP} then v0 == 0 && v1 == 0 && v2 == 0
    else if r.event == TASK_SLEEP then v2 > 0 && Deadline(v0, v1) >= r.tick
    else if r.event == TASK_EXIT then v0 > 0 && v2 == 0
    else if r.event == CONTEXT_SWITCH then 1 <= v0 <= 8 && v1 <= 5 && v2 == 0
    else if r.event == ALLOC then v0 > 0 && (if v1 == U32_MAX then v2 == 0 else v2 == 1)
    else if r.event == FREE then v1 == 1 && v2 <= 1 && (v2 == 0 || v0 != U32_MAX)
    else if r.event == TASK_WAIT_PERIOD then v2 == 0 && Deadline(v0, v1) > r.tick
    else if r.event == TASK_RELEASE_SKIPPED then v2 > 0
    else if r.event == OWNER_RELEASE then v0 > 0 && v1 == r.task && v2 == 1
    else if r.event == OVERFLOW then v0 > 0 && v1 >= v2
    else true
  }

  // ---- The rules as a table ----

  datatype Span = Span(low: nat, high: nat)

  const ANY := Span(0, 0xFFFF_FFFF)
  const SOME := Span(1, 0xFFFF_FFFF)
  const ZERO := Span(0, 0)

  predicate Within(x: nat, s: Span) {
    s.low <= x <= s.high
  }

  /** What an event may carry in its three values, by event number. */
  function Spans(event: u8): (Span, Span, Span) {
    match event
    case 1 => (ZERO, Span(5, 5), ZERO)
    case 2 => (Span(0, 1), Span(0, 255), Span(1, 2))
    case 3 | 6 | 10 | 15 | 16 | 9 | 20 => (ANY, ANY, SOME)
    case 7 => (Span(1, 3), ZERO, ZERO)
    case 8 | 13 | 14 => (ZERO, ZERO, ZERO)
    case 11 => (SOME, ANY, ZERO)
    case 12 => (Span(1, 8), Span(0, 5), ZERO)
    case 17 => (SOME, ANY, Span(0, 1))
    case 18 => (ANY, Span(1, 1), Span(0, 1))
    case 19 => (ANY, ANY, ZERO)
    case 21 => (SOME, Span(1, 4), Span(1, 1))
    case 22 => (SOME, ANY, ANY)
    case _ => (ANY, ANY, ANY)
  }

  /** The two roles of an event: a set of task numbers, 65535 for nobody. */
  function Roles(event: u8): (set<int>, set<int>) {
    var users, nobody := {1, 2, 3, 4}, {65535};
    match event
    case 1 | 22 => (nobody, nobody)
    case 2 => (users, users + nobody)
    case 4 => (users + {0}, users + {0} + nobody)
    case 5 => (users, users + {0})
    case 7 => (users + {0}, users)
    case 12 => (users + {0} + nobody, users + {0})
    case 13 => ({0}, users + nobody)
    case 14 => ({0}, users)
    case _ => (users, nobody)
  }

  /** What ties the values of a record to each other and to its tick. */
  predicate Tied(r: Record) {
    var named := r.value0 + 0x1_0000_0000 * r.value1;
    match r.event
    case 4 =>
      1 <= r.value1 % 256 <= 6 && 1 <= r.value1 / 256 % 256 <= 3
      && r.value1 / 65536 % 256 in {1, 2, 3, 4, 255}
    case 5 => r.value2 < 0x8_0000 && r.value2 / 256 % 256 in {2, 3}
    case 9 => named >= r.tick
    case 17 => r.value1 == 0xFFFF_FFFF <==> r.value2 == 0
    case 18 => r.value0 == 0xFFFF_FFFF ==> r.value2 == 0
    case 19 => named > r.tick
    case 21 => r.value1 == r.task
    case 22 => r.value1 >= r.value2
    case _ => true
  }

  /** The role and payload rules of the decoder, event by event. */
  lemma RulesAreTheTable(r: Record)
    requires EventValid(r.event)
    ensures RoleValid(r) <==> r.task as int in Roles(r.event).0 && r.related as int in Roles(r.event).1
    ensures RoleValid(r) ==>
              (PayloadValid(r) <==>
                 && Within(r.value0, Spans(r.event).0) && Within(r.value1, Spans(r.event).1)
                 && Within(r.value2, Spans(r.event).2) && Tied(r))
  {
  }
}
