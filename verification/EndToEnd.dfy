/** From the kernel to the decoder: the trace of a run that lost nothing and did
    not mislead, closed and drained by the firmware, decodes to exactly the
    events the kernel emitted. */
module EndToEnd {
  import opened Words
  import opened TraceTypes
  import opened TraceRules
  import opened TraceRing
  import opened TraceWire
  import opened Scheduler
  import opened KernelModel
  import opened KernelInvariant
  import opened KernelRuns
  import opened KernelTrace
  import opened KernelTiming
  import opened KernelHonesty
  import TraceDecoder
  import TraceValidator
  import KernelMachine
  import HeapModel

  const RING_CAPACITY := 256

  // ---- The ring of a run ----

  /** The records of a log, numbered from first. */
  function Numbered(log: seq<Batch>, first: nat): (rs: seq<Record>)
    ensures |rs| == Total(log)
  {
    if log == [] then []
    else StampFrom(log[0].tick, first, log[0].inputs) + Numbered(log[1..], first + |log[0].inputs|)
  }

  function Total(log: seq<Batch>): nat {
    if log == [] then 0 else |log[0].inputs| + Total(log[1..])
  }

  function StampFrom(tick: u64, first: nat, inputs: seq<Input>): (rs: seq<Record>)
    ensures |rs| == |inputs|
    ensures forall i :: 0 <= i < |inputs| ==>
              rs[i] == Stamped(tick, if first + i <= U32_MAX then first + i else U32_MAX, inputs[i])
  {
    seq(|inputs|, i requires 0 <= i < |inputs| =>
      Stamped(tick, if first + i <= U32_MAX then first + i else U32_MAX, inputs[i]))
  }

  lemma NumberedUnfolds(log: seq<Batch>, first: nat)
    requires log != []
    ensures Numbered(log, first) == StampFrom(log[0].tick, first, log[0].inputs)
            + Numbered(log[1..], first + |log[0].inputs|)
    ensures Total(log) == |log[0].inputs| + Total(log[1..])
  {
  }

  lemma NumberedNothing(first: nat)
    ensures Numbered([], first) == [] && Total([]) == 0
  {
  }

  lemma {:induction false} NumberedConcat(a: seq<Batch>, b: seq<Batch>, first: nat)
    ensures Numbered(a + b, first) == Numbered(a, first) + Numbered(b, first + Total(a))
    ensures Total(a + b) == Total(a) + Total(b)
    decreases |a|
  {
    hide StampFrom, Numbered, Total;
    if a == [] {
      NumberedNothing(first);
      assert a + b == b;
    } else {
      assert (a + b)[0] == a[0] && (a + b)[1..] == a[1..] + b;
      var more := first + |a[0].inputs|;
      NumberedConcat(a[1..], b, more);
      NumberedUnfolds(a + b, first);
      NumberedUnfolds(a, first);
    }
  }

  /** The ring has lost nothing and holds every record of the log. */
  ghost predicate Lossless(r: Ring, log: seq<Batch>) {
    && r.capacity == RING_CAPACITY && r.enabled && r.reported == 0 && r.dropped == 0 && !r.exhausted
    && r.fifo == Numbered(log, 0) && |r.fifo| <= RING_CAPACITY
    && r.nextSequence == r.attempted == r.emitted == |r.fifo|
  }

  /** Once something has been dropped, or the sequence exhausted, it stays so. */
  predicate Lossy(r: Ring) {
    r.dropped > 0 || r.exhausted
  }

  lemma PushStaysLossy(r: Ring, tick: u64, inputs: seq<Input>)
    requires Lossy(r)
    ensures Lossy(PushBatch(r, tick, inputs).0)
  {
  }

  lemma ProduceStaysLossy(r: Ring, tick: u64, inputs: seq<Input>)
    requires Lossy(r)
    ensures Lossy(Produce(r, tick, inputs))
  {
    hide PushBatch;
    PushStaysLossy(r, tick, [OverflowInput(r)]);
    PushStaysLossy(ReportOverflow(r, tick).0, tick, inputs);
  }

  /** A lossless ring either keeps the whole next batch or loses something. */
  lemma ProduceKeepsOrLoses(r: Ring, log: seq<Batch>, b: Batch)
    requires Lossless(r, log) && Fit(b)
    ensures var r' := Produce(r, b.tick, b.inputs);
      if |r.fifo| + |b.inputs| <= RING_CAPACITY then Lossless(r', log + [b]) else Lossy(r')
  {
    hide Numbered;
    NumberedConcat(log, [b], 0);
    NumberedOne(b, Total(log));
    if |r.fifo| + |b.inputs| <= RING_CAPACITY {
      StampIsStampFrom(b.tick, r.nextSequence, b.inputs);
    }
  }

  lemma NumberedOne(b: Batch, first: nat)
    ensures Numbered([b], first) == StampFrom(b.tick, first, b.inputs)
  {
    assert [b][1..] == [];
    assert Numbered([b], first) == StampFrom(b.tick, first, b.inputs) + [];
  }

  lemma StampIsStampFrom(tick: u64, first: u32, inputs: seq<Input>)
    requires first + |inputs| <= U32_MAX + 1
    ensures Stamp(tick, first, inputs) == StampFrom(tick, first, inputs)
  {
  }

  /** So a ring that ends without loss holds the whole log. */
  lemma {:induction false} NoLossMeansWhole(log: seq<Batch>)
    requires forall i :: 0 <= i < |log| ==> Fit(log[i])
    ensures var r := KernelMachine.Recorded(Fresh(RING_CAPACITY), log);
      Lossy(r) || Lossless(r, log)
    decreases |log|
  {
    hide Produce, Fit;
    if log != [] {
      var n := |log| - 1;
      NoLossMeansWhole(log[..n]);
      var r := KernelMachine.Recorded(Fresh(RING_CAPACITY), log[..n]);
      assert log == log[..n] + [log[n]];
      if Lossy(r) {
        ProduceStaysLossy(r, log[n].tick, log[n].inputs);
      } else {
        ProduceKeepsOrLoses(r, log[..n], log[n]);
      }
    }
  }

  // ---- The records of a good log ----

  lemma {:induction false} SelectionsConcat(a: seq<Record>, b: seq<Record>)
    requires SelectionsValid(a) && SelectionsValid(b)
    ensures SelectionsValid(a + b)
    decreases |a|
  {
    hide SnapshotValid;
    var ab := a + b;
    if a == [] {
      assert ab == b;
    } else if a[0].event != TASK_SELECT {
      assert ab[1..] == a[1..] + b;
      SelectionsConcat(a[1..], b);
    } else {
      var n := a[0].value2;
      assert ab[1..1 + n] == a[1..1 + n] && ab[1 + n..] == a[1 + n..] + b;
      assert forall k :: 1 <= k <= n ==> ab[k] == a[k];
      SelectionsConcat(a[1 + n..], b);
    }
  }

  lemma SegmentStamps(b: Batch, first: nat)
    ensures Stamps(StampFrom(b.tick, first, b.inputs), b)
  {
  }

  lemma SegmentIsMeaningful(b: Batch, first: nat)
    requires BatchOk(b)
    ensures var rs := StampFrom(b.tick, first, b.inputs);
      SelectionsValid(rs) && forall k :: 0 <= k < |rs| ==> RecordOk(rs[k])
  {
    hide RecordOk, SelectionsValid, StampFrom;
    SegmentStamps(b, first);
  }

  lemma TailIsOk(log: seq<Batch>)
    requires LogOk(log) && log != []
    ensures LogOk(log[1..]) && BatchOk(log[0])
  {
    hide BatchOk;
    forall i | 0 <= i < |log[1..]| ensures BatchOk(log[1..][i]) {
      assert log[1..][i] == log[i + 1];
    }
  }

  /** Every record of the log passes the decoder's rules, and so do its
      selection snapshots, one after another. */
  lemma {:induction false} NumberedIsMeaningful(log: seq<Batch>, first: nat)
    requires LogOk(log)
    ensures SelectionsValid(Numbered(log, first))
    ensures forall k :: 0 <= k < |Numbered(log, first)| ==> RecordOk(Numbered(log, first)[k])
  {
    hide RecordOk, SelectionsValid, StampFrom, BatchOk, LogOk;
    NoSelections();
    if log != [] {
      var b := log[0];
      TailIsOk(log);
      SegmentIsMeaningful(b, first);
      NumberedIsMeaningful(log[1..], first + |b.inputs|);
      SelectionsConcat(StampFrom(b.tick, first, b.inputs), Numbered(log[1..], first + |b.inputs|));
    }
  }

  lemma NoSelections()
    ensures SelectionsValid([])
  {
  }

  lemma {:induction false} NumberedInSequence(log: seq<Batch>, first: nat)
    requires first + Total(log) <= U32_MAX
    ensures forall k :: 0 <= k < |Numbered(log, first)| ==> Numbered(log, first)[k].sequence == first + k
  {
    if log != [] {
      NumberedInSequence(log[1..], first + |log[0].inputs|);
    }
  }

  lemma {:induction false} NumberedInTime(log: seq<Batch>, first: nat, low: u64, high: u64)
    requires forall i, j :: 0 <= i < j < |log| ==> log[i].tick <= log[j].tick
    requires forall i :: 0 <= i < |log| ==> low <= log[i].tick <= high
    ensures TicksAscend(Numbered(log, first))
    ensures forall k :: 0 <= k < |Numbered(log, first)| ==> low <= Numbered(log, first)[k].tick <= high
  {
    if log != [] {
      var rest := log[1..];
      assert forall i :: 0 <= i < |rest| ==> rest[i] == log[i + 1];
      NumberedInTime(rest, first + |log[0].inputs|, log[0].tick, high);
    }
  }

  // ---- The whole path ----

  /** The ring after a run, and what closing it snapshots. */
  function RingOf(k: Kernel): Ring {
    KernelMachine.Recorded(Fresh(RING_CAPACITY), k.log)
  }

  /** A lossless ring of a good, timed log closes into a trace that the strict
      decoder accepts. */
  lemma GoodLogIsAcceptable(k: Kernel, tick: u64)
    requires LogOk(k.log) && Timed(k) && k.now <= tick && !Lossy(RingOf(k))
    ensures var r := RingOf(k);
      && r.fifo == Numbered(k.log, 0) && Close(r, tick).Some?
      && Acceptable(r.fifo, Close(r, tick).value.1) && Close(r, tick).value.0.fifo == r.fifo
  {
    hide RecordOk, SelectionsValid, StampFrom, LogOk, Numbered, RoleValid, PayloadValid, FieldsValid, TicksAscend,
         KernelMachine.Recorded, Fit;
    var r := RingOf(k);
    NoLossMeansWhole(k.log);
    NumberedIsMeaningful(k.log, 0);
    NumberedInSequence(k.log, 0);
    NumberedInTime(k.log, 0, 0, k.now);
    RecordsAreFields(r.fifo);
    LosslessCloses(r, k.log, tick);
  }

  /** The footer of a lossless ring accounts for every record. */
  lemma LosslessCloses(r: Ring, log: seq<Batch>, tick: u64)
    requires Lossless(r, log)
    ensures Close(r, tick).Some?
    ensures var (closed, final) := Close(r, tick).value;
      closed.fifo == r.fifo && CompleteFooter(final, |r.fifo|) && final.finalTick == tick
  {
    hide Numbered;
  }

  lemma RecordsAreFields(rs: seq<Record>)
    requires forall k :: 0 <= k < |rs| ==> RecordOk(rs[k])
    ensures forall k :: 0 <= k < |rs| ==> FieldsValid(rs[k])
    ensures forall k :: 0 <= k < |rs| ==> RoleValid(rs[k]) && PayloadValid(rs[k]) && rs[k].event != OVERFLOW
  {
  }

  lemma {:induction false} TranscriptIsShort(rs: seq<Record>, f: Final, banner: bool)
    requires |rs| < MAX_FRAMES
    ensures |Transcript(banner, rs, f)| <= MAX_INPUT
  {
  }

  /** Boot, run honestly, lose nothing, close and drain: what leaves the UART
      encodes exactly the kernel's own events, numbered in order, and nothing
      else. */
  lemma HonestRunsDecode(w0: World, es: seq<Event>, w: World, tick: u64, banner: bool)
    requires Booted(w0) && Leads(w0, es, w) && Honest(w0, es)
    requires w.k.now <= tick && !Lossy(RingOf(w.k))
    ensures var r := RingOf(w.k);
      && Close(r, tick).Some? && r.fifo == Numbered(w.k.log, 0)
      && Encodes(Transcript(banner, r.fifo, Close(r, tick).value.1), Numbered(w.k.log, 0), Close(r, tick).value.1)
  {
    hide Inv, LogOk, Timed, Lossy, RingOf, Numbered, Acceptable, Honest, Leads, Transcript;
    RunFromBoot(w0, es, w);
    GoodLogIsAcceptable(w.k, tick);
    var r := RingOf(w.k);
    AcceptableIsShort(r.fifo, Close(r, tick).value.1);
    TranscriptIsShort(r.fifo, Close(r, tick).value.1, banner);
  }

  lemma AcceptableIsShort(rs: seq<Record>, f: Final)
    requires Acceptable(rs, f)
    ensures |rs| < MAX_FRAMES
  {
  }

  lemma RunFromBoot(w0: World, es: seq<Event>, w: World)
    requires Booted(w0) && Leads(w0, es, w) && Honest(w0, es)
    ensures LogOk(w.k.log) && Timed(w.k)
  {
    hide Inv, LogOk, Boot;
    EmptyRun(w0);
    assert Reachable(w0);
    ReachableIsGood(w0);
    BootedLogIsEmpty(w0);
    EmptyLogIsTimed(w0.k);
    HonestRunsAreWellTraced(w0, es, w);
    RunsAreTimed(w0, es, w);
  }

  lemma EmptyLogIsTimed(k: Kernel)
    requires k.log == []
    ensures Timed(k)
  {
  }

  // ---- Only honest runs decode ----

  lemma {:induction false} SelectionsRest(a: seq<Record>, b: seq<Record>)
    requires SelectionsValid(a) && SelectionsValid(a + b)
    ensures SelectionsValid(b)
    decreases |a|
  {
    hide SnapshotValid;
    var ab := a + b;
    if a == [] {
      assert ab == b;
    } else if a[0].event != TASK_SELECT {
      assert ab[1..] == a[1..] + b;
      SelectionsRest(a[1..], b);
    } else {
      var n := a[0].value2;
      assert ab[1..1 + n] == a[1..1 + n] && ab[1 + n..] == a[1 + n..] + b;
      SelectionsRest(a[1 + n..], b);
    }
  }

  /** A refused batch after good ones spoils the whole record list. */
  lemma RefusalSpoils(log: seq<Batch>, n: nat)
    requires n < |log| && LogOk(log[..n]) && Refused(log[n])
    ensures SelectionsValid(Numbered(log, 0)) ==>
              exists k :: 0 <= k < |Numbered(log, 0)| && !RecordOk(Numbered(log, 0)[k])
  {
    hide RecordOk, SelectionsValid, StampFrom, LogOk, Numbered, Total;
    var b := log[n];
    var before := Numbered(log[..n], 0);
    var at := Total(log[..n]);
    var segment := StampFrom(b.tick, at, b.inputs);
    var rest := Numbered(log[n + 1..], at + |b.inputs|);
    assert log == log[..n] + log[n..] && log[n..][0] == b && log[n..][1..] == log[n + 1..];
    NumberedConcat(log[..n], log[n..], 0);
    NumberedUnfolds(log[n..], at);
    assert Numbered(log, 0) == before + (segment + rest);
    if SelectionsValid(Numbered(log, 0)) {
      NumberedIsMeaningful(log[..n], 0);
      SelectionsRest(before, segment + rest);
      SegmentStamps(b, at);
      var i :| 0 <= i < |segment| && !RecordOk(segment[i]);
      assert Numbered(log, 0)[|before| + i] == segment[i];
    }
  }

  lemma MeaningfulRecordsAreOk(rs: seq<Record>, f: Final)
    requires Acceptable(rs, f)
    ensures SelectionsValid(rs) && forall k :: 0 <= k < |rs| ==> RecordOk(rs[k])
  {
    hide SelectionsValid;
  }

  lemma {:induction false} StreamDetermines(rs: seq<Record>, rs': seq<Record>)
    requires Stream(rs) == Stream(rs')
    ensures rs == rs'
    decreases |rs|
  {
    hide RecordFrame, EncodeRecord, Frame;
    if rs != [] {
      assert |rs'| == |rs|;
      assert Stream(rs)[..48] == RecordFrame(rs[0]) && Stream(rs')[..48] == RecordFrame(rs'[0]);
      assert Stream(rs)[48..] == Stream(rs[1..]) && Stream(rs')[48..] == Stream(rs'[1..]);
      StreamDetermines(rs[1..], rs'[1..]);
      FrameDetermines(rs[0], rs'[0]);
      assert rs == [rs[0]] + rs[1..] && rs' == [rs'[0]] + rs'[1..];
    }
  }

  lemma FrameDetermines(r: Record, r': Record)
    requires RecordFrame(r) == RecordFrame(r')
    ensures r == r'
  {
    hide EncodeRecord, Covered, DecodeRecord;
    FrameParts(RECORD_FRAME, EncodeRecord(r));
    FrameParts(RECORD_FRAME, EncodeRecord(r'));
    RecordRoundTrip(r, []);
    RecordRoundTrip(r', []);
  }

  lemma FooterDetermines(f: Final, f': Final)
    requires Frame(FOOTER_FRAME, EncodeFooter(f)) == Frame(FOOTER_FRAME, EncodeFooter(f'))
    ensures f == f'
  {
    hide EncodeFooter, Covered, DecodeFooter;
    FrameParts(FOOTER_FRAME, EncodeFooter(f));
    FrameParts(FOOTER_FRAME, EncodeFooter(f'));
    FooterRoundTrip(f, []);
    FooterRoundTrip(f', []);
  }

  lemma BodyDetermines(rs: seq<Record>, f: Final, rs': seq<Record>, f': Final)
    requires Body(rs, f) == Body(rs', f')
    ensures rs == rs' && f == f'
  {
    hide Stream, Frame, EncodeFooter;
    assert |rs| == |rs'|;
    var n := 48 * |rs|;
    assert Body(rs, f)[..n] == Stream(rs) && Body(rs', f')[..n] == Stream(rs');
    assert Body(rs, f)[n..] == Frame(FOOTER_FRAME, EncodeFooter(f));
    assert Body(rs', f')[n..] == Frame(FOOTER_FRAME, EncodeFooter(f'));
    StreamDetermines(rs, rs');
    FooterDetermines(f, f');
  }

  /** A transcript determines its records and its footer. */
  lemma TranscriptDetermines(banner: bool, rs: seq<Record>, f: Final, banner': bool, rs': seq<Record>, f': Final)
    requires Transcript(banner, rs, f) == Transcript(banner', rs', f')
    ensures rs == rs' && f == f'
  {
    hide PREAMBLE, TRAILER, MAGIC, Body, TraceValidator.StartsWith;
    var data := Transcript(banner, rs, f);
    TraceValidator.TranscriptShape(data, banner, rs, f);
    TraceValidator.TranscriptShape(data, banner', rs', f');
    TraceValidator.BannerOrBare(data);
    var start := if banner then |PREAMBLE| else 0;
    var tail := if banner then |TRAILER| else 0;
    assert |Body(rs, f)| == |data| - start - tail == |Body(rs', f')|;
    assert data[start..start + |Body(rs, f)|] == Body(rs, f) && data[start..start + |Body(rs, f)|] == Body(rs', f');
    BodyDetermines(rs, f, rs', f');
  }

  // ---- A ring that lost something never decodes ----

  lemma ProduceKeepsOpen(r: Ring, tick: u64, inputs: seq<Input>)
    requires r.enabled && |r.fifo| <= r.capacity
    ensures var r' := Produce(r, tick, inputs);
      r'.enabled && |r'.fifo| <= r'.capacity == r.capacity
  {
  }

  /** Recording never closes the ring and never overfills it. */
  lemma {:induction false} RecordingKeepsOpen(log: seq<Batch>)
    ensures var r := KernelMachine.Recorded(Fresh(RING_CAPACITY), log);
      r.enabled && |r.fifo| <= r.capacity == RING_CAPACITY
    decreases |log|
  {
    hide Produce;
    if log != [] {
      var n := |log| - 1;
      RecordingKeepsOpen(log[..n]);
      ProduceKeepsOpen(KernelMachine.Recorded(Fresh(RING_CAPACITY), log[..n]), log[n].tick, log[n].inputs);
    }
  }

  lemma RingIsOpen(k: Kernel, tick: u64)
    ensures RingOf(k).enabled && |RingOf(k).fifo| <= RING_CAPACITY && Close(RingOf(k), tick).Some?
  {
    RecordingKeepsOpen(k.log);
  }

  /** The footer of a ring that dropped a record or ran out of sequence numbers
      says so, and the decoder refuses it. */
  lemma LossyNeverDecodes(r: Ring, tick: u64, banner: bool)
    requires Lossy(r) && r.enabled
    ensures Close(r, tick).Some?
    ensures forall rs, f :: !Encodes(Transcript(banner, r.fifo, Close(r, tick).value.1), rs, f)
  {
    hide Transcript, Acceptable;
    var final := Close(r, tick).value.1;
    var data := Transcript(banner, r.fifo, final);
    forall rs, f | Encodes(data, rs, f) ensures false {
      var banner' := if data == Transcript(true, rs, f) then true else false;
      TranscriptDetermines(banner, r.fifo, final, banner', rs, f);
      AcceptedFooter(rs, f);
    }
  }

  lemma AcceptedFooter(rs: seq<Record>, f: Final)
    requires Acceptable(rs, f)
    ensures f.dropped == 0 && f.flags == 0
  {
  }

  // ---- The exact condition ----

  /** The drained trace of a run decodes if and only if the run was honest and
      its ring lost nothing. */
  lemma DecodesExactlyHonestRuns(w0: World, es: seq<Event>, w: World, tick: u64, banner: bool)
    requires Booted(w0) && Leads(w0, es, w) && w.k.now <= tick
    ensures Close(RingOf(w.k), tick).Some?
    ensures var r := RingOf(w.k);
      var data := Transcript(banner, r.fifo, Close(r, tick).value.1);
      (exists rs, f :: Encodes(data, rs, f)) <==> Honest(w0, es) && !Lossy(r)
  {
    hide Inv, LogOk, Lossy, RingOf, Numbered, Acceptable, Honest, Leads, Transcript, Close;
    RingIsOpen(w.k, tick);
    if Lossy(RingOf(w.k)) {
      LossyNeverDecodes(RingOf(w.k), tick, banner);
    } else if Honest(w0, es) {
      HonestRunsDecode(w0, es, w, tick, banner);
    } else {
      DishonestNeverDecodes(w0, es, w, tick, banner);
    }
  }

  lemma DishonestNeverDecodes(w0: World, es: seq<Event>, w: World, tick: u64, banner: bool)
    requires Booted(w0) && Leads(w0, es, w) && !Honest(w0, es) && !Lossy(RingOf(w.k))
    requires Close(RingOf(w.k), tick).Some?
    ensures forall rs, f :: !Encodes(Transcript(banner, RingOf(w.k).fifo, Close(RingOf(w.k), tick).value.1), rs, f)
  {
    hide Inv, Lossy, RingOf, Acceptable, Honest, Leads, Transcript, Close, RecordOk, SelectionsValid;
    var r := RingOf(w.k);
    var final := Close(r, tick).value.1;
    var data := Transcript(banner, r.fifo, final);
    DishonestTrace(w0, es, w);
    forall rs, f | Encodes(data, rs, f) ensures false {
      EncodedAsSome(data, rs, f);
      var banner' := if data == Transcript(true, rs, f) then true else false;
      TranscriptDetermines(banner, r.fifo, final, banner', rs, f);
      MeaningfulRecordsAreOk(rs, f);
    }
  }

  lemma EncodedAsSome(data: seq<u8>, rs: seq<Record>, f: Final)
    requires Encodes(data, rs, f)
    ensures Acceptable(rs, f) && (data == Transcript(true, rs, f) || data == Transcript(false, rs, f))
  {
  }

  lemma DishonestTrace(w0: World, es: seq<Event>, w: World)
    requires Booted(w0) && Leads(w0, es, w) && !Honest(w0, es) && !Lossy(RingOf(w.k))
    ensures var rs := RingOf(w.k).fifo;
      SelectionsValid(rs) ==> exists k :: 0 <= k < |rs| && !RecordOk(rs[k])
  {
    hide Inv, LogOk, Boot, RecordOk, SelectionsValid, Numbered, Honest, Leads, Refused, Fit;
    StartFromBoot(w0);
    RunsAreTimed(w0, es, w);
    NoLossMeansWhole(w.k.log);
    var n := DishonestRunsAreRefused(w0, es, w);
    RefusalSpoils(w.k.log, n);
  }

  lemma StartFromBoot(w0: World)
    requires Booted(w0)
    ensures Inv(w0) && LogOk(w0.k.log) && Timed(w0.k)
  {
    hide Inv, LogOk, Boot;
    EmptyRun(w0);
    assert Reachable(w0);
    ReachableIsGood(w0);
    BootedLogIsEmpty(w0);
    EmptyLogIsTimed(w0.k);
  }

  // ---- The executed pieces together ----

  /** Idle finishes the trace of a running system and the host decodes what left
      the UART: it obtains exactly the kernel's events, in order, when the run
      was honest and lost nothing, and an error otherwise. */
  method FinishAndDecode(system: KernelMachine.System, ghost w0: World, ghost es: seq<Event>, ghost w: World)
      returns (r: TraceDecoder.Result<TraceDecoder.Trace>)
    requires system.Valid() && system.State() == w.k && system.emptyRing == Fresh(RING_CAPACITY)
    requires Booted(w0) && Leads(w0, es, w)
    requires system.current == IDLE && system.trace.sent == [] && system.trace.uartAccepts > RING_CAPACITY
    modifies system.trace, system.trace.ring, system.trace.ring.records
    ensures r.Ok? <==> Honest(w0, es) && !Lossy(RingOf(w.k))
    ensures r.Ok? ==> r.value.records == Numbered(w.k.log, 0) && r.value.footer.finalTick == w.k.now
  {
    hide Inv, Leads, Honest, Lossy, Numbered, Encodes, KernelMachine.System.Valid, KernelMachine.System.State, RingOf,
         Body;
    system.Fields();
    RingOfSystem(system, w.k);
    ghost var ring := RingOf(w.k);
    RingIsOpen(w.k, w.k.now);
    ghost var final := Close(ring, w.k.now).value.1;
    var sent := system.trace.Finish(system.current, system.now);
    assert system.trace.sent == Transcript(false, ring.fifo, final);
    DecodesExactlyHonestRuns(w0, es, w, w.k.now, false);
    r := TraceValidator.Decode(system.trace.sent);
    if r.Ok? {
      HonestRunsDecode(w0, es, w, w.k.now, false);
      FinalCarriesTick(ring, w.k.now);
    }
  }

  lemma FinalCarriesTick(r: Ring, tick: u64)
    requires Close(r, tick).Some?
    ensures Close(r, tick).value.1.finalTick == tick
  {
  }

  /** The ring object holds what the log produces into an empty ring. */
  lemma RingOfSystem(system: KernelMachine.System, k: Kernel)
    requires system.Valid() && system.State() == k && system.emptyRing == Fresh(RING_CAPACITY)
    ensures system.trace.Valid() && system.trace.ring.Abs() == RingOf(k)
            && system.trace.ring.Contents() == RingOf(k).fifo
  {
    hide KernelMachine.Recorded;
  }
}
