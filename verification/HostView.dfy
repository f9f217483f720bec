/** What a host learns from a decoded trace: reading its records one by one gives
    the kernel's own view of its tasks and its heap. */
module HostView {
  import opened Words
  import opened TraceTypes
  import opened TraceReplay
  import opened TraceWire
  import opened KernelModel
  import opened KernelInvariant
  import opened KernelRuns
  import opened KernelReplay
  import opened EndToEnd
  import TraceRing
  import KernelTrace

  /** The part of a record that its producer wrote. */
  function InputOf(r: Record): Input {
    Input(r.event, r.flags, r.task, r.related, r.value0, r.value1, r.value2)
  }

  /** The view after a list of records; candidates only explain a selection. */
  function ReadRecords(v: View, rs: seq<Record>): Option<View>
    requires Sized(v)
    decreases |rs|
  {
    if rs == [] then Some(v)
    else if rs[0].event == SELECT_CANDIDATE then ReadRecords(v, rs[1..])
    else
      match See(v, rs[0].tick, InputOf(rs[0]))
      case None => None
      case Some(u) => ReadRecords(u, rs[1..])
  }

  lemma {:induction false} ReadConcat(v: View, a: seq<Record>, b: seq<Record>)
    requires Sized(v) && ReadRecords(v, a).Some?
    ensures Sized(ReadRecords(v, a).value)
    ensures ReadRecords(v, a + b) == ReadRecords(ReadRecords(v, a).value, b)
    decreases |a|
  {
    hide See;
    if a == [] {
      assert a + b == b;
    } else {
      assert (a + b)[0] == a[0] && (a + b)[1..] == a[1..] + b;
      ReadConcat(if a[0].event == SELECT_CANDIDATE then v else See(v, a[0].tick, InputOf(a[0])).value, a[1..], b);
    }
  }

  lemma {:induction false} CandidatesTellNothing(v: View, rs: seq<Record>)
    requires Sized(v) && forall i :: 0 <= i < |rs| ==> rs[i].event == SELECT_CANDIDATE
    ensures ReadRecords(v, rs) == Some(v)
    decreases |rs|
  {
    hide See;
    if rs != [] {
      CandidatesTellNothing(v, rs[1..]);
    }
  }

  /** No view accepts a candidate on its own. */
  lemma CandidateIsNoFact(v: View, tick: u64, i: Input)
    requires Sized(v) && i.event == SELECT_CANDIDATE
    ensures See(v, tick, i).None?
  {
  }

  lemma BatchRead(v: View, b: Batch, first: nat)
    requires Sized(v) && SeeBatch(v, b).Some?
    ensures ReadRecords(v, StampFrom(b.tick, first, b.inputs)) == SeeBatch(v, b)
  {
    hide See;
    var rs := StampFrom(b.tick, first, b.inputs);
    if b.inputs[0].event == SELECT_CANDIDATE { CandidateIsNoFact(v, b.tick, b.inputs[0]); }
    assert InputOf(rs[0]) == b.inputs[0] && rs[0].tick == b.tick;
    CandidatesTellNothing(SeeBatch(v, b).value, rs[1..]);
  }

  lemma {:induction false} LogRead(log: seq<Batch>)
    requires Replay(log).Some?
    ensures ReadRecords(BLANK, Numbered(log, 0)) == Replay(log)
  {
    hide See, SeeBatch, Numbered, StampFrom;
    if log == [] {
      NumberedNothing(0);
    } else {
      var n := |log| - 1;
      LogRead(log[..n]);
      assert log == log[..n] + [log[n]];
      NumberedConcat(log[..n], [log[n]], 0);
      NumberedOne(log[n], Total(log[..n]));
      ReadConcat(BLANK, Numbered(log[..n], 0), Numbered([log[n]], Total(log[..n])));
      BatchRead(Replay(log[..n]).value, log[n], Total(log[..n]));
    }
  }

  /** Whatever decodes from the drained trace of a run tells its reader the
      kernel's table and heap at the end of the run. */
  lemma DecodedTraceTellsTheTable(w0: World, es: seq<Event>, w: World, tick: u64, banner: bool, rs: seq<Record>,
                                  f: Final)
    requires Booted(w0) && Leads(w0, es, w) && w.k.now <= tick
    requires TraceRing.Close(RingOf(w.k), tick).Some?
    requires var r := RingOf(w.k); Encodes(Transcript(banner, r.fifo, TraceRing.Close(r, tick).value.1), rs, f)
    ensures Formed(w.k) && ReadRecords(BLANK, rs) == Some(ViewOf(w.k))
  {
    hide Leads, RingOf, Encodes, Transcript, TraceRing.Close, ViewOf, Replay, ReadRecords, Numbered, Lossy,
         KernelTrace.Honest;
    var r := RingOf(w.k);
    var final := TraceRing.Close(r, tick).value.1;
    DecodesExactlyHonestRuns(w0, es, w, tick, banner);
    HonestRunsDecode(w0, es, w, tick, banner);
    SameTrace(banner, r.fifo, final, rs, f);
    assert Reachable(w);
    TraceTellsTheTable(w);
    LogRead(w.k.log);
  }

  lemma SameTrace(banner: bool, rs: seq<Record>, f: Final, rs': seq<Record>, f': Final)
    requires Encodes(Transcript(banner, rs, f), rs', f')
    ensures rs' == rs
  {
    hide Transcript, Acceptable;
    var banner' := if Transcript(banner, rs, f) == Transcript(true, rs', f') then true else false;
    TranscriptDetermines(banner, rs, f, banner', rs', f');
  }
}
