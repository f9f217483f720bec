/** The bounded trace ring: all-or-nothing batches, a sequence number for every
    attempt, loss counters and closure. */
module TraceRing {
  import opened Words
  import opened TraceTypes

  datatype Ring = Ring(
    capacity: nat,
    fifo: seq<Record>,
    nextSequence: u32,
    attempted: u32,
    emitted: u32,
    dropped: u32,
    reported: u32,
    enabled: bool,
    exhausted: bool)

  function Fresh(capacity: nat): Ring {
    Ring(capacity, [], 0, 0, 0, 0, 0, true, false)
  }

  predicate InputsValid(inputs: seq<Input>) {
    forall i :: 0 <= i < |inputs| ==> EventValid(inputs[i].event) && inputs[i].flags == 0
  }

  predicate Admissible(r: Ring, inputs: seq<Input>) {
    && r.capacity != 0 && r.enabled && inputs != [] && |inputs| <= r.capacity && |inputs| <= MAX_BATCH
    && InputsValid(inputs)
  }

  /** The records of a batch that starts at a sequence number. */
  function Stamp(tick: u64, first: u32, inputs: seq<Input>): (rs: seq<Record>)
    requires first + |inputs| <= U32_MAX + 1
    ensures |rs| == |inputs|
    ensures forall i :: 0 <= i < |inputs| ==> rs[i] == Stamped(tick, first + i, inputs[i])
  {
    seq(|inputs|, i requires 0 <= i < |inputs| => Stamped(tick, first + i, inputs[i]))
  }

  function PushBatch(r: Ring, tick: u64, inputs: seq<Input>): (Ring, bool) {
    if !Admissible(r, inputs) then (r, false)
    else
      var n := |inputs|;
      if r.exhausted || r.nextSequence > U32_MAX - (n - 1) then
        (r.(exhausted := true, attempted := SatAdd(r.attempted, n), dropped := SatAdd(r.dropped, n)), false)
      else
        var next := (r.nextSequence + n) % 0x1_0000_0000;
        var counted := r.(attempted := SatAdd(r.attempted, n), nextSequence := next, exhausted := next == 0);
        if n > r.capacity - |r.fifo| then
          (counted.(dropped := SatAdd(r.dropped, n)), false)
        else
          (counted.(fifo := r.fifo + Stamp(tick, r.nextSequence, inputs), emitted := SatAdd(r.emitted, n)), true)
  }

  function Pop(r: Ring): (Ring, Option<Record>) {
    if r.fifo == [] then (r, None) else (r.(fifo := r.fifo[1..]), Some(r.fifo[0]))
  }

  function OverflowInput(r: Ring): Input {
    Input(OVERFLOW, 0, NO_TASK, NO_TASK, r.dropped, r.attempted, r.emitted)
  }

  predicate OverflowDue(r: Ring) {
    r.enabled && r.capacity != 0 && |r.fifo| < r.capacity && !r.exhausted && r.dropped != r.reported
  }

  function ReportOverflow(r: Ring, tick: u64): (Ring, bool) {
    if !OverflowDue(r) then (r, false)
    else
      var (pushed, ok) := PushBatch(r, tick, [OverflowInput(r)]);
      if !ok then (pushed, false) else (pushed.(reported := r.dropped), true)
  }

  function Close(r: Ring, tick: u64): Option<(Ring, Final)> {
    if !r.enabled then None
    else
      var last := if r.attempted == 0 then U32_MAX
                  else if r.exhausted then U32_MAX
                  else (r.nextSequence - 1) % 0x1_0000_0000;
      Some((r.(enabled := false),
            Final(r.attempted, r.emitted, r.dropped, last, if r.exhausted then 1 else 0, tick)))
  }

  /** What a producer does: report earlier loss if it can, then its own batch. */
  function Produce(r: Ring, tick: u64, inputs: seq<Input>): Ring {
    PushBatch(ReportOverflow(r, tick).0, tick, inputs).0
  }

  // ---- The unbounded history a ring stands for ----

  /** One attempted event and whether the ring kept it. */
  datatype Attempt = Attempt(tick: u64, input: Input, kept: bool)

  /** The records of the kept attempts. The sequence number of a record is the
      position of its attempt: its rank among the kept ones plus the drops
      before it. */
  function Kept(history: seq<Attempt>): seq<Record>
  {
    if history == [] then []
    else
      var n := |history| - 1;
      var before := Kept(history[..n]);
      if history[n].kept && n <= U32_MAX then before + [Stamped(history[n].tick, n, history[n].input)] else before
  }

  function Drops(history: seq<Attempt>): nat {
    if history == [] then 0
    else Drops(history[..|history| - 1]) + if history[|history| - 1].kept then 0 else 1
  }

  /** The ring r, having given out `popped`, is what remains of the history. */
  ghost predicate Stands(r: Ring, history: seq<Attempt>, popped: seq<Record>) {
    && 0 < r.capacity && |r.fifo| <= r.capacity
    && popped + r.fifo == Kept(history)
    && r.attempted == SatAdd(0, |history|)
    && r.dropped == SatAdd(0, Drops(history))
    && r.emitted == SatAdd(0, |Kept(history)|)
    && |history| == |Kept(history)| + Drops(history)
    && (if r.exhausted then |history| > U32_MAX - MAX_BATCH else r.nextSequence == |history|)
  }

  function Attempts(tick: u64, inputs: seq<Input>, kept: bool): (h: seq<Attempt>)
    ensures |h| == |inputs|
    ensures forall i :: 0 <= i < |h| ==> h[i] == Attempt(tick, inputs[i], kept)
  {
    seq(|inputs|, i requires 0 <= i < |inputs| => Attempt(tick, inputs[i], kept))
  }

  lemma OneMore(history: seq<Attempt>, a: Attempt)
    ensures Kept(history + [a])
            == Kept(history)
               + if a.kept && |history| <= U32_MAX then [Stamped(a.tick, |history|, a.input)] else []
    ensures Drops(history + [a]) == Drops(history) + if a.kept then 0 else 1
  {
    assert (history + [a])[..|history|] == history;
  }

  lemma StampMore(tick: u64, first: u32, inputs: seq<Input>, i: Input)
    requires first + |inputs| <= U32_MAX
    ensures Stamp(tick, first, inputs + [i]) == Stamp(tick, first, inputs) + [Stamped(tick, first + |inputs|, i)]
  {
  }

  lemma {:induction false} KeptExtends(history: seq<Attempt>, tick: u64, inputs: seq<Input>, kept: bool)
    requires kept ==> |history| + |inputs| <= U32_MAX + 1
    ensures var h := history + Attempts(tick, inputs, kept);
      && Kept(h) == (if kept then Kept(history) + (if inputs == [] then [] else Stamp(tick, |history|, inputs))
                     else Kept(history))
      && Drops(h) == Drops(history) + if kept then 0 else |inputs|
    decreases |inputs|
  {
    hide Kept, Drops, Stamp, Stamped;
    if inputs == [] {
      assert history + Attempts(tick, inputs, kept) == history;
    } else {
      var n := |inputs| - 1;
      var before := history + Attempts(tick, inputs[..n], kept);
      KeptExtends(history, tick, inputs[..n], kept);
      assert history + Attempts(tick, inputs, kept) == before + [Attempt(tick, inputs[n], kept)];
      OneMore(before, Attempt(tick, inputs[n], kept));
      assert inputs == inputs[..n] + [inputs[n]];
      if kept {
        StampMore(tick, |history|, inputs[..n], inputs[n]);
        assert inputs[..n] == [] ==> Stamp(tick, |history|, inputs[..n]) == [];
      }
    }
  }

  lemma FreshStands(capacity: nat)
    requires capacity > 0
    ensures Stands(Fresh(capacity), [], [])
  {
  }

  /** A push attempt records a batch whole, contiguous and in order, or not at
      all; an inadmissible batch is not an attempt. */
  lemma PushExtendsHistory(r: Ring, tick: u64, inputs: seq<Input>, history: seq<Attempt>, popped: seq<Record>)
    requires Stands(r, history, popped)
    ensures var (r', ok) := PushBatch(r, tick, inputs);
      && Stands(r', if Admissible(r, inputs) then history + Attempts(tick, inputs, ok) else history, popped)
      && (ok <==> Admissible(r, inputs) && |r.fifo| + |inputs| <= r.capacity
                  && !r.exhausted && |history| + |inputs| <= U32_MAX + 1)
      && r'.fifo == if ok then r.fifo + Stamp(tick, |history|, inputs) else r.fifo
  {
    hide Kept, Drops;
    var (r', ok) := PushBatch(r, tick, inputs);
    if Admissible(r, inputs) {
      KeptExtends(history, tick, inputs, ok);
      if ok {
        assert popped + r'.fifo == (popped + r.fifo) + Stamp(tick, |history|, inputs);
      }
    }
  }

  /** First in, first out: a pop hands out the oldest kept record that has not
      been handed out. */
  lemma PopIsOldest(r: Ring, history: seq<Attempt>, popped: seq<Record>)
    requires Stands(r, history, popped)
    ensures match Pop(r).1
            case None => popped == Kept(history) && Pop(r).0 == r
            case Some(record) =>
              && |popped| < |Kept(history)| && record == Kept(history)[|popped|]
              && Stands(Pop(r).0, history, popped + [record])
  {
    if r.fifo != [] {
      assert popped + r.fifo == (popped + [r.fifo[0]]) + r.fifo[1..];
    }
  }

  /** Past its guard a loss report always commits exactly one record, which
      tells how many attempts the ring has dropped, seen and kept before it. */
  lemma DueReportCommitsOne(r: Ring, tick: u64, history: seq<Attempt>, popped: seq<Record>)
    requires Stands(r, history, popped)
    ensures var (r', ok) := ReportOverflow(r, tick);
      && ok == OverflowDue(r)
      && (!ok ==> r' == r)
      && (ok ==> && r'.fifo == r.fifo + [Stamped(tick, |history|, OverflowInput(r))]
                 && r'.reported == r.dropped == r'.dropped
                 && !OverflowDue(r')
                 && Stands(r', history + [Attempt(tick, OverflowInput(r), true)], popped)
                 && var report := r'.fifo[|r.fifo|];
                    && report.event == OVERFLOW && report.tick == tick && report.sequence == |history|
                    && report.value0 == SatAdd(0, Drops(history)) && report.value1 == SatAdd(0, |history|)
                    && report.value2 == SatAdd(0, |Kept(history)|))
  {
    if OverflowDue(r) {
      PushExtendsHistory(r, tick, [OverflowInput(r)], history, popped);
      assert Attempts(tick, [OverflowInput(r)], true) == [Attempt(tick, OverflowInput(r), true)];
      assert Stamp(tick, |history|, [OverflowInput(r)]) == [Stamped(tick, |history|, OverflowInput(r))];
    }
  }

  /** Sequence numbers of the kept records strictly increase, and the k-th one
      is k plus the number of attempts dropped before it. */
  lemma {:induction false} SequenceCountsDrops(history: seq<Attempt>, k: nat)
    requires k < |Kept(history)|
    ensures var s := Kept(history)[k].sequence;
      && s < |history| && history[s].kept
      && s == k + Drops(history[..s])
      && Kept(history)[k] == Stamped(history[s].tick, s, history[s].input)
      && (k > 0 ==> Kept(history)[k - 1].sequence < s)
  {
    var n := |history| - 1;
    var before := history[..n];
    KeptPlusDrops(before);
    if k < |Kept(before)| {
      SequenceCountsDrops(before, k);
      var s := Kept(before)[k].sequence;
      assert before[..s] == history[..s];
    } else {
      assert k == |Kept(before)|;
      if k > 0 { SequenceCountsDrops(before, k - 1); }
    }
  }

  lemma {:induction false} KeptPlusDrops(history: seq<Attempt>)
    ensures |Kept(history)| <= |history| - Drops(history)
    ensures |history| <= U32_MAX + 1 ==> |Kept(history)| + Drops(history) == |history|
  {
    if history != [] {
      KeptPlusDrops(history[..|history| - 1]);
    }
  }

  // ---- Whole runs ----

  datatype Op =
    | ProduceOp(tick: u64, inputs: seq<Input>)
    | PushOp(tick: u64, inputs: seq<Input>)
    | PopOp
    | CloseOp(tick: u64)

  /** A ring with the history it stands for. */
  datatype Traced = Traced(ring: Ring, history: seq<Attempt>, popped: seq<Record>)

  function PushTraced(t: Traced, tick: u64, inputs: seq<Input>): Traced {
    var (r, ok) := PushBatch(t.ring, tick, inputs);
    Traced(r, if Admissible(t.ring, inputs) then t.history + Attempts(tick, inputs, ok) else t.history, t.popped)
  }

  function ReportTraced(t: Traced, tick: u64): Traced {
    var (r, ok) := ReportOverflow(t.ring, tick);
    Traced(r, if ok then t.history + [Attempt(tick, OverflowInput(t.ring), true)] else t.history, t.popped)
  }

  function Apply(t: Traced, op: Op): Traced {
    match op
    case PushOp(tick, inputs) => PushTraced(t, tick, inputs)
    case ProduceOp(tick, inputs) => PushTraced(ReportTraced(t, tick), tick, inputs)
    case PopOp =>
      var (r, out) := Pop(t.ring);
      if out.Some? then Traced(r, t.history, t.popped + [out.value]) else t
    case CloseOp(tick) =>
      if Close(t.ring, tick).Some? then t.(ring := Close(t.ring, tick).value.0) else t
  }

  function Run(t: Traced, ops: seq<Op>): Traced
    decreases |ops|
  {
    if ops == [] then t else Run(Apply(t, ops[0]), ops[1..])
  }

  ghost predicate Faithful(t: Traced) {
    Stands(t.ring, t.history, t.popped)
  }

  lemma ApplyIsFaithful(t: Traced, op: Op)
    requires Faithful(t)
    ensures Faithful(Apply(t, op))
  {
    hide Kept, Drops;
    match op
    case PushOp(tick, inputs) => PushExtendsHistory(t.ring, tick, inputs, t.history, t.popped);
    case ProduceOp(tick, inputs) =>
      DueReportCommitsOne(t.ring, tick, t.history, t.popped);
      var u := ReportTraced(t, tick);
      PushExtendsHistory(u.ring, tick, inputs, u.history, u.popped);
    case PopOp => PopIsOldest(t.ring, t.history, t.popped);
    case CloseOp(tick) =>
  }

  lemma {:induction false} RunStaysFaithful(t: Traced, ops: seq<Op>)
    requires Faithful(t)
    ensures Faithful(Run(t, ops))
    decreases |ops|
  {
    if ops != [] {
      ApplyIsFaithful(t, ops[0]);
      RunStaysFaithful(Apply(t, ops[0]), ops[1..]);
    }
  }

  /** In every run of a fresh ring the records handed out followed by the
      records held are exactly the kept attempts in order, and attempted =
      emitted + dropped until the attempt counter saturates. */
  lemma EveryRunIsFaithful(capacity: nat, ops: seq<Op>)
    requires capacity > 0
    ensures var u := Run(Traced(Fresh(capacity), [], []), ops);
      && Faithful(u)
      && u.popped + u.ring.fifo == Kept(u.history)
      && (u.ring.attempted < U32_MAX ==> u.ring.attempted == u.ring.emitted + u.ring.dropped)
  {
    hide Run;
    FreshStands(capacity);
    RunStaysFaithful(Traced(Fresh(capacity), [], []), ops);
  }

  // ---- Zero loss ----

  /** Consecutive sequence numbers from 0, as the strict decoder demands. */
  predicate Consecutive(rs: seq<Record>) {
    forall k :: 0 <= k < |rs| ==> rs[k].sequence == k
  }

  /** The footer the strict decoder accepts after n records. */
  predicate CompleteFooter(f: Final, n: nat) {
    && f.flags == 0 && f.emitted == n && f.dropped == 0 && f.attempted == f.emitted
    && f.finalSequence == if f.attempted == 0 then U32_MAX else f.attempted - 1
  }

  /** The footer counts the history: attempts, kept and dropped ones, the number
      of the last attempt, and whether the numbers ran out. */
  lemma FooterCountsHistory(r: Ring, history: seq<Attempt>, popped: seq<Record>, tick: u64)
    requires Stands(r, history, popped) && r.enabled
    ensures Close(r, tick).Some?
    ensures var (closed, final) := Close(r, tick).value;
      && closed == r.(enabled := false) && Stands(closed, history, popped) && final.finalTick == tick
      && final.attempted == SatAdd(0, |history|) && final.dropped == SatAdd(0, Drops(history))
      && final.emitted == SatAdd(0, |Kept(history)|) && final.flags == (if r.exhausted then 1 else 0)
      && final.finalSequence
         == (if r.exhausted || history == [] then 0xFFFF_FFFF else (|history| - 1) % 0x1_0000_0000)
      && forall t, inputs :: !PushBatch(closed, t, inputs).1 && PushBatch(closed, t, inputs).0 == closed
  {
    hide Kept, Drops;
  }

  /** Closing a ring that lost nothing, and was not drained before, snapshots a
      footer and leaves records that pass the decoder's continuity and footer
      rules. */
  lemma ZeroLossCloses(r: Ring, history: seq<Attempt>, tick: u64)
    requires Stands(r, history, []) && r.enabled && r.dropped == 0 && !r.exhausted && |r.fifo| < U32_MAX
    ensures Close(r, tick).Some?
    ensures var (closed, final) := Close(r, tick).value;
      && Consecutive(closed.fifo) && CompleteFooter(final, |closed.fifo|) && final.finalTick == tick
      && !PushBatch(closed, tick, [OverflowInput(r)]).1
  {
    assert [] + r.fifo == r.fifo;
    forall k | 0 <= k < |r.fifo| ensures r.fifo[k].sequence == k {
      SequenceCountsDrops(history, k);
      var s := r.fifo[k].sequence;
      DropsGrow(history, s);
    }
  }

  lemma {:induction false} DropsGrow(history: seq<Attempt>, s: nat)
    requires s <= |history|
    ensures Drops(history[..s]) <= Drops(history)
    decreases |history|
  {
    if s < |history| {
      var before := history[..|history| - 1];
      DropsGrow(before, s);
      assert before[..s] == history[..s];
    } else {
      assert history[..s] == history;
    }
  }
}
