/** The strict trace decoder. It accepts exactly the byte strings that encode a
    complete zero-loss trace, and returns that trace. */
module TraceDecoder {
  import opened Words
  import opened TraceTypes
  import opened TraceRules
  import opened TraceRing
  import opened TraceWire
  import Crc

  datatype Error =
    | InputTooLong | NoSync | TooManyFrames | TruncatedHeader | BadSync | UnknownVersion | UnknownSchema
    | UnknownKind | BadLength | FrameFlags | TruncatedFrame | CrcMismatch | RecordSchema | UnknownEvent
    | RecordFlags | ImpossibleTasks | SequenceGap | TickGoesBack | NoFooter | FooterFlags | FooterEmitted
    | FooterAttempted | FooterSequence | FooterDropped | FooterTick | TrailingGarbage | BadSelection
    | BadRole | BadPayload | OverflowRecorded

  datatype Result<+T> = Ok(value: T) | Err(error: Error)

  datatype FrameRead = FrameRead(kind: u8, payload: seq<u8>)

  /** The records and footer of a run of frames, and where it ends. */
  datatype Frames = Frames(records: seq<Record>, footer: Final, end: nat, raw: seq<u8>)

  datatype Trace = Trace(records: seq<Record>, footer: Final, raw: seq<u8>)

  // ---- One frame ----

  ghost predicate NoFrameAt(data: seq<u8>, offset: nat) {
    forall kind: u8, payload: seq<u8> :: Payload(kind, payload) ==> !FrameAt(data, offset, kind, payload)
  }

  lemma FrameHasHeader(data: seq<u8>, offset: nat, kind: u8, payload: seq<u8>)
    requires Payload(kind, payload) && FrameAt(data, offset, kind, payload)
    ensures HeaderAt(data, offset, kind)
    ensures data[offset + 12 + PayloadSize(kind)..offset + FrameSize(kind)]
            == Put32(Crc.Crc32(data[offset + 4..offset + 12 + PayloadSize(kind)]))
    ensures payload == data[offset + 12..offset + 12 + PayloadSize(kind)]
  {
    hide Frame, HeaderAt, Put32, Crc.Crc32;
    FramePayload(data, offset, kind, payload);
    FrameIsHeaderAndCrc(data, offset, kind);
  }

  lemma FramePayload(data: seq<u8>, offset: nat, kind: u8, payload: seq<u8>)
    requires Payload(kind, payload) && FrameAt(data, offset, kind, payload)
    ensures payload == data[offset + 12..offset + 12 + PayloadSize(kind)]
  {
    hide Frame, HeaderAt, Put32, Crc.Crc32;
    FrameParts(kind, payload);
    SliceOfSlice(data, offset, offset + FrameSize(kind), 12, 12 + PayloadSize(kind));
  }

  /** What is wrong at this offset, first fault first, in plain numbers; nothing
      when a frame starts here. */
  function FrameFault(data: seq<u8>, offset: nat): Option<Error>
    requires offset <= |data|
  {
    if offset + 12 > |data| then Some(TruncatedHeader)
    else if data[offset..offset + 4] != [0x41, 0x59, 0x4D, 0x54] then Some(BadSync)
    else if data[offset + 4] != 1 then Some(UnknownVersion)
    else if LittleEndian(data[offset + 6..offset + 8]) != 1 then Some(UnknownSchema)
    else if data[offset + 5] != 1 && data[offset + 5] != 2 then Some(UnknownKind)
    else
      var length := if data[offset + 5] == 1 then 32 else 28;
      if LittleEndian(data[offset + 8..offset + 10]) != length then Some(BadLength)
      else if LittleEndian(data[offset + 10..offset + 12]) != 0 then Some(FrameFlags)
      else if offset + 12 + length + 4 > |data| then Some(TruncatedFrame)
      else if LittleEndian(data[offset + 12 + length..offset + 16 + length])
              != Crc.Crc32(data[offset + 4..offset + 12 + length]) then Some(CrcMismatch)
      else None
  }

  lemma GetsLittleEndian(s: seq<u8>)
    ensures |s| == 2 ==> Get16(s) == LittleEndian(s)
    ensures |s| == 4 ==> Get32(s) == LittleEndian(s)
  {
    hide LittleEndian;
    LittleEndianNone();
    if |s| == 2 {
      LittleEndianPair(s[0], s[1], []);
      assert s == [s[0], s[1]] + [];
    } else if |s| == 4 {
      LittleEndianPair(s[0], s[1], s[2..]);
      LittleEndianPair(s[2], s[3], []);
      assert s == [s[0], s[1]] + s[2..] && s[2..] == [s[2], s[3]] + [];
    }
  }

  /** A frame is read exactly when one starts at the offset, and an error names
      the first fault. */
  method ReadFrame(data: seq<u8>, offset: nat) returns (r: Result<FrameRead>)
    requires offset <= |data|
    ensures FrameFault(data, offset) == if r.Ok? then None else Some(r.error)
    ensures r.Ok? ==> Payload(r.value.kind, r.value.payload) && FrameAt(data, offset, r.value.kind, r.value.payload)
    ensures r.Err? ==> NoFrameAt(data, offset)
  {
    hide FrameAt, Put16, Put32, Get16, Get32, Crc.Crc32, Frame, LittleEndian;
    forall kind: u8, payload: seq<u8> | Payload(kind, payload) && FrameAt(data, offset, kind, payload)
      ensures offset + FrameSize(kind) <= |data| && HeaderAt(data, offset, kind)
      ensures data[offset + 12 + PayloadSize(kind)..offset + FrameSize(kind)]
              == Put32(Crc.Crc32(data[offset + 4..offset + 12 + PayloadSize(kind)]))
    {
      FrameFits(data, offset, kind, payload);
      FrameHasHeader(data, offset, kind, payload);
    }
    if |data| - offset < HEADER_SIZE { return Err(TruncatedHeader); }
    if data[offset..offset + 4] != MAGIC { return Err(BadSync); }
    if data[offset + 4] != VERSION { return Err(UnknownVersion); }
    Same16(data[offset + 6..offset + 8], SCHEMA);
    GetsLittleEndian(data[offset + 6..offset + 8]);
    if Get16(data[offset + 6..offset + 8]) != SCHEMA { return Err(UnknownSchema); }
    var kind := data[offset + 5];
    if kind != RECORD_FRAME && kind != FOOTER_FRAME { return Err(UnknownKind); }
    var length := PayloadSize(kind);
    Same16(data[offset + 8..offset + 10], length);
    GetsLittleEndian(data[offset + 8..offset + 10]);
    if Get16(data[offset + 8..offset + 10]) != length { return Err(BadLength); }
    Same16(data[offset + 10..offset + 12], 0);
    GetsLittleEndian(data[offset + 10..offset + 12]);
    if Get16(data[offset + 10..offset + 12]) != 0 { return Err(FrameFlags); }
    if FrameSize(kind) > |data| - offset { return Err(TruncatedFrame); }
    var payloadEnd := offset + HEADER_SIZE + length;
    var crc := Crc.Crc32(data[offset + 4..payloadEnd]);
    Same32(data[payloadEnd..payloadEnd + CRC_SIZE], crc);
    GetsLittleEndian(data[payloadEnd..payloadEnd + CRC_SIZE]);
    if Get32(data[payloadEnd..payloadEnd + CRC_SIZE]) != crc { return Err(CrcMismatch); }
    FrameIsHeaderAndCrc(data, offset, kind);
    return Ok(FrameRead(kind, data[offset + HEADER_SIZE..payloadEnd]));
  }

  lemma FrameFits(data: seq<u8>, offset: nat, kind: u8, payload: seq<u8>)
    requires Payload(kind, payload) && FrameAt(data, offset, kind, payload)
    ensures offset + FrameSize(kind) <= |data|
  {
  }

  lemma Same16(s: seq<u8>, x: u16)
    requires |s| == 2
    ensures Get16(s) == x <==> s == Put16(x)
  {
    hide Get16, Put16;
    Word16(x, s);
  }

  lemma Same32(s: seq<u8>, x: u32)
    requires |s| == 4
    ensures Get32(s) == x <==> s == Put32(x)
  {
    hide Get32, Put32;
    Word32(x, s);
  }

  // ---- The frames of a trace ----

  /** The frames of these records and this footer start here. */
  predicate BodyAt(data: seq<u8>, start: nat, rs: seq<Record>, f: Final) {
    start + |Body(rs, f)| <= |data| && data[start..start + |Body(rs, f)|] == Body(rs, f)
  }

  predicate Candidate(data: seq<u8>, start: nat, rs: seq<Record>, f: Final) {
    |rs| < MAX_FRAMES && Continuous(rs) && BodyAt(data, start, rs, f)
  }

  /** Any trace that starts here begins with the records read so far. */
  ghost predicate OnTrack(data: seq<u8>, start: nat, records: seq<Record>) {
    forall rs, f :: Candidate(data, start, rs, f) ==> |records| <= |rs| && records == rs[..|records|]
  }

  ghost predicate NoTraceAt(data: seq<u8>, start: nat) {
    forall rs, f :: !Candidate(data, start, rs, f)
  }

  /** The next frame of a body. */
  lemma NextFrame(data: seq<u8>, start: nat, rs: seq<Record>, f: Final, n: nat)
    requires BodyAt(data, start, rs, f) && n <= |rs|
    ensures var offset := start + 48 * n;
      if n < |rs| then FrameAt(data, offset, RECORD_FRAME, EncodeRecord(rs[n]))
      else FrameAt(data, offset, FOOTER_FRAME, EncodeFooter(f))
  {
    hide Frame, EncodeRecord, EncodeFooter, RecordFrame;
    var body := Body(rs, f);
    var offset := start + 48 * n;
    var size := if n < |rs| then FrameSize(RECORD_FRAME) else FrameSize(FOOTER_FRAME);
    assert data[offset..offset + size] == body[48 * n..48 * n + size] by {
      SliceOfSlice(data, start, start + |body|, 48 * n, 48 * n + size);
    }
    if n < |rs| {
      StreamAt(rs, n);
      assert body[48 * n..48 * n + 48] == Stream(rs)[48 * n..48 * n + 48];
      RecordFrameIsFrame(rs[n]);
    } else {
      assert body[48 * n..48 * n + size] == Frame(FOOTER_FRAME, EncodeFooter(f));
    }
  }

  lemma RecordFrameIsFrame(r: Record)
    ensures RecordFrame(r) == Frame(RECORD_FRAME, EncodeRecord(r))
  {
  }

  lemma {:induction false} StreamAt(rs: seq<Record>, n: nat)
    requires n < |rs|
    ensures Stream(rs)[48 * n..48 * n + 48] == RecordFrame(rs[n])
  {
    hide RecordFrame;
    StreamConcat(rs[..n], rs[n..]);
    assert rs == rs[..n] + rs[n..];
    assert Stream(rs[n..])[0..48] == RecordFrame(rs[n..][0]);
    SliceOfSum(Stream(rs[..n]), Stream(rs[n..]), 48);
  }

  lemma SliceOfSum(a: seq<u8>, b: seq<u8>, k: nat)
    requires k <= |b|
    ensures (a + b)[|a|..|a| + k] == b[0..k]
  {
  }

  // ---- Reading the frames ----

  /** The rules for a record that follows these. */
  predicate Follows(records: seq<Record>, r: Record) {
    && FieldsValid(r) && r.sequence == |records|
    && (records != [] ==> records[|records| - 1].tick <= r.tick)
  }

  lemma {:induction false} ContinuousExtends(records: seq<Record>, r: Record)
    requires Continuous(records)
    ensures Continuous(records + [r]) <==> Follows(records, r)
  {
    hide FieldsValid;
    var more := records + [r];
    assert more[|records|] == r;
    if Follows(records, r) {
      forall j, k | 0 <= j < k < |more| ensures more[j].tick <= more[k].tick {
        if k == |records| && j < |records| - 1 { assert records[j].tick <= records[|records| - 1].tick; }
      }
    }
    if Continuous(more) {
      assert FieldsValid(more[|records|]);
      if records != [] { assert more[|records| - 1].tick <= more[|records|].tick; }
    }
  }

  /** What is wrong with a record that should be number `count`, first fault
      first: 65535 stands for no task. */
  function RecordFault(r: Record, count: nat, previousTick: u64): Option<Error> {
    if r.schema != 1 then Some(RecordSchema)
    else if !(1 <= r.event <= 22) then Some(UnknownEvent)
    else if r.flags != 0 then Some(RecordFlags)
    else if (r.task > 4 && r.task != 65535) || (r.related > 4 && r.related != 65535) then Some(ImpossibleTasks)
    else if r.sequence != count then Some(SequenceGap)
    else if count > 0 && r.tick < previousTick then Some(TickGoesBack)
    else None
  }

  /** The field, sequence and time rules, in the decoder's order. */
  method CheckRecord(r: Record, count: nat, previousTick: u64) returns (fault: Option<Error>)
    ensures fault == RecordFault(r, count, previousTick)
    ensures fault.None? <==> FieldsValid(r) && r.sequence == count && (count > 0 ==> previousTick <= r.tick)
  {
    if r.schema != SCHEMA { return Some(RecordSchema); }
    if !EventValid(r.event) { return Some(UnknownEvent); }
    if r.flags != 0 { return Some(RecordFlags); }
    if !TaskValid(r.task) || !TaskValid(r.related) { return Some(ImpossibleTasks); }
    if r.sequence != count { return Some(SequenceGap); }
    if count > 0 && r.tick < previousTick { return Some(TickGoesBack); }
    return None;
  }

  /** Without a frame at the next offset no trace starts here. */
  lemma NoFrameNoTrace(data: seq<u8>, start: nat, records: seq<Record>)
    requires OnTrack(data, start, records) && NoFrameAt(data, start + 48 * |records|)
    ensures NoTraceAt(data, start)
  {
    hide BodyAt, Continuous, FrameAt, EncodeRecord, EncodeFooter;
    forall rs, f | Candidate(data, start, rs, f) ensures false {
      NextFrame(data, start, rs, f, |records|);
    }
  }

  lemma NoRoomNoTrace(data: seq<u8>, start: nat, records: seq<Record>)
    requires OnTrack(data, start, records) && (|records| >= MAX_FRAMES || start + 48 * |records| >= |data|)
    ensures NoTraceAt(data, start)
  {
    hide BodyAt, Continuous, EncodeRecord, EncodeFooter, Frame;
    forall rs, f | Candidate(data, start, rs, f) ensures false {
      NextFrame(data, start, rs, f, |records|);
    }
  }

  /** A record frame can only be the next record. */
  lemma RecordContinues(data: seq<u8>, start: nat, records: seq<Record>, payload: seq<u8>)
    requires OnTrack(data, start, records) && Payload(RECORD_FRAME, payload) && Continuous(records)
    requires FrameAt(data, start + 48 * |records|, RECORD_FRAME, payload)
    ensures if Follows(records, DecodeRecord(payload)) then OnTrack(data, start, records + [DecodeRecord(payload)])
            else NoTraceAt(data, start)
  {
    hide BodyAt, Continuous, EncodeRecord, EncodeFooter, FrameAt, Frame, Follows, DecodeRecord;
    var n := |records|;
    var r := DecodeRecord(payload);
    forall rs, f | Candidate(data, start, rs, f) ensures n < |rs| && rs[n] == r && Follows(records, r) {
      NextFrame(data, start, rs, f, n);
      if n == |rs| {
        FrameIsUnique(data, start + 48 * n, RECORD_FRAME, payload, FOOTER_FRAME, EncodeFooter(f));
      } else {
        FrameIsUnique(data, start + 48 * n, RECORD_FRAME, payload, RECORD_FRAME, EncodeRecord(rs[n]));
        RecordRoundTrip(rs[n], []);
        assert rs[..n + 1] == records + [r];
        ContinuousPrefix(rs, n + 1);
        ContinuousExtends(records, r);
      }
    }
    forall rs, f | Candidate(data, start, rs, f) ensures |records + [r]| <= |rs|
        && records + [r] == rs[..|records + [r]|] {
      assert rs[..n + 1] == rs[..n] + [rs[n]];
    }
  }

  lemma ContinuousPrefix(rs: seq<Record>, n: nat)
    requires Continuous(rs) && n <= |rs|
    ensures Continuous(rs[..n])
  {
    hide FieldsValid;
  }

  /** A footer frame ends the trace. */
  lemma FooterEnds(data: seq<u8>, start: nat, records: seq<Record>, payload: seq<u8>)
    requires OnTrack(data, start, records) && Payload(FOOTER_FRAME, payload)
    requires FrameAt(data, start + 48 * |records|, FOOTER_FRAME, payload)
    ensures forall rs, f :: Candidate(data, start, rs, f) ==> rs == records && f == DecodeFooter(payload)
  {
    hide BodyAt, Continuous, EncodeRecord, EncodeFooter, FrameAt, Frame, DecodeFooter;
    var n := |records|;
    forall rs, f | Candidate(data, start, rs, f) ensures rs == records && f == DecodeFooter(payload) {
      NextFrame(data, start, rs, f, n);
      if n == |rs| {
        FrameIsUnique(data, start + 48 * n, FOOTER_FRAME, payload, FOOTER_FRAME, EncodeFooter(f));
        FooterRoundTrip(f, []);
        assert rs[..n] == rs;
      } else {
        FrameIsUnique(data, start + 48 * n, FOOTER_FRAME, payload, RECORD_FRAME, EncodeRecord(rs[n]));
      }
    }
  }

  lemma TrailerIsNoFrame(data: seq<u8>, offset: nat)
    requires offset + |TRAILER| <= |data| && data[offset..offset + |TRAILER|] == TRAILER
    ensures NoFrameAt(data, offset)
  {
    hide FrameAt, Put16, Frame, TRAILER, HeaderAt;
    TrailerFourth(data, offset);
    forall kind: u8, payload: seq<u8> | Payload(kind, payload) && FrameAt(data, offset, kind, payload) ensures false {
      FrameFits(data, offset, kind, payload);
      FrameHasHeader(data, offset, kind, payload);
      HeaderFourth(data, offset, kind);
    }
  }

  lemma TrailerFourth(data: seq<u8>, offset: nat)
    requires offset + |TRAILER| <= |data| && data[offset..offset + |TRAILER|] == TRAILER
    ensures offset + 3 < |data| && data[offset + 3] == 0x4F
  {
    assert data[offset..offset + |TRAILER|][3] == data[offset + 3];
  }

  lemma HeaderFourth(data: seq<u8>, offset: nat, kind: u8)
    requires offset + HEADER_SIZE <= |data| && HeaderAt(data, offset, kind)
    ensures data[offset + 3] == 0x54
  {
    hide Put16;
    assert data[offset..offset + 4][3] == data[offset + 3];
  }

  /** Frames are what the data holds from start, and nothing else can be. */
  ghost predicate Reads(data: seq<u8>, start: nat, r: Result<Frames>) {
    match r
    case Err(_) => NoTraceAt(data, start)
    case Ok(frames) =>
      && Candidate(data, start, frames.records, frames.footer)
      && frames.end == start + |Body(frames.records, frames.footer)| <= |data| && frames.raw == Raw(frames.records)
      && forall rs, f :: Candidate(data, start, rs, f) ==> rs == frames.records && f == frames.footer
  }

  /** Read record frames up to and including the footer. */
  method DecodeFrames(data: seq<u8>, start: nat, banner: bool) returns (r: Result<Frames>)
    requires start <= |data|
    ensures Reads(data, start, r)
  {
    hide FrameAt, Frame, EncodeRecord, EncodeFooter, DecodeRecord, DecodeFooter, Continuous, BodyAt, OnTrack, NoTraceAt,
         NoFrameAt;
    hide Raw, Stream, Body, Candidate, Follows, FieldsValid, FrameFault, RecordFault;
    var offset := start;
    var records: seq<Record> := [];
    var raw: seq<u8> := [];
    var previousTick: u64 := 0;
    StartOnTrack(data, start);
    while offset < |data|
      invariant offset == start + 48 * |records| <= |data|
      invariant data[start..offset] == Stream(records) && raw == Raw(records) && Continuous(records)
      invariant |records| <= MAX_FRAMES
      invariant records != [] ==> previousTick == records[|records| - 1].tick
      invariant OnTrack(data, start, records)
      decreases |data| - offset
    {
      if banner && offset + |TRAILER| <= |data| && data[offset..offset + |TRAILER|] == TRAILER {
        TrailerIsNoFrame(data, offset);
        NoFrameNoTrace(data, start, records);
        return Err(NoFooter);
      }
      if |records| >= MAX_FRAMES {
        NoRoomNoTrace(data, start, records);
        return Err(TooManyFrames);
      }
      var frame := ReadFrame(data, offset);
      if frame.Err? {
        NoFrameNoTrace(data, start, records);
        return Err(frame.error);
      }
      var payload := frame.value.payload;
      if frame.value.kind == FOOTER_FRAME {
        FooterEnds(data, start, records, payload);
        BodyRead(data, start, records, payload);
        return Ok(Frames(records, DecodeFooter(payload), offset + FrameSize(FOOTER_FRAME), raw));
      }
      var record := DecodeRecord(payload);
      RecordContinues(data, start, records, payload);
      var fault := CheckRecord(record, |records|, previousTick);
      assert fault.None? <==> Follows(records, record) by { FollowsMeans(records, record); }
      if fault.Some? { return Err(fault.value); }
      RecordRead(data, start, records, payload);
      ContinuousExtends(records, record);
      records := records + [record];
      raw := raw + payload;
      previousTick := record.tick;
      offset := offset + FrameSize(RECORD_FRAME);
    }
    NoRoomNoTrace(data, start, records);
    return Err(NoFooter);
  }

  lemma StartOnTrack(data: seq<u8>, start: nat)
    ensures OnTrack(data, start, []) && Continuous([]) && Raw([]) == [] && Stream([]) == []
  {
    hide Candidate;
  }

  lemma FollowsMeans(records: seq<Record>, r: Record)
    ensures Follows(records, r) <==>
            FieldsValid(r) && r.sequence == |records| && (records != [] ==> records[|records| - 1].tick <= r.tick)
  {
  }

  lemma RecordRead(data: seq<u8>, start: nat, records: seq<Record>, payload: seq<u8>)
    requires start + 48 * |records| <= |data| && data[start..start + 48 * |records|] == Stream(records)
    requires Payload(RECORD_FRAME, payload) && FrameAt(data, start + 48 * |records|, RECORD_FRAME, payload)
    ensures var more := records + [DecodeRecord(payload)];
      && start + 48 * |more| <= |data| && data[start..start + 48 * |more|] == Stream(more)
      && Raw(more) == Raw(records) + payload
  {
    hide Frame, EncodeRecord, DecodeRecord, Stream, Raw, RecordFrame;
    var r := DecodeRecord(payload);
    var offset := start + 48 * |records|;
    RecordRoundTrip(r, payload);
    StreamConcat(records, [r]);
    StreamOne(r);
    RecordFrameIsFrame(r);
    Joined(data, start, offset, offset + 48);
  }

  lemma BodyRead(data: seq<u8>, start: nat, records: seq<Record>, payload: seq<u8>)
    requires |records| < MAX_FRAMES && Continuous(records)
    requires start + 48 * |records| <= |data| && data[start..start + 48 * |records|] == Stream(records)
    requires Payload(FOOTER_FRAME, payload) && FrameAt(data, start + 48 * |records|, FOOTER_FRAME, payload)
    ensures Candidate(data, start, records, DecodeFooter(payload))
    ensures |Body(records, DecodeFooter(payload))| == 48 * |records| + FrameSize(FOOTER_FRAME)
    ensures start + 48 * |records| + FrameSize(FOOTER_FRAME) <= |data|
  {
    hide Frame, EncodeFooter, DecodeFooter, Stream, Continuous;
    var f := DecodeFooter(payload);
    var offset := start + 48 * |records|;
    FooterRoundTrip(f, payload);
    Joined(data, start, offset, offset + FrameSize(FOOTER_FRAME));
  }
}
