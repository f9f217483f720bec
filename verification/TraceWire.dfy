/** The trace wire format: little-endian records and footer, framed with a
    sync word, a header and a CRC, and the transcripts made of them. */
module TraceWire {
  import opened Words
  import opened TraceTypes
  import opened TraceRules
  import opened TraceRing
  import Crc

  const VERSION: u8 := 1
  const RECORD_FRAME: u8 := 1
  const FOOTER_FRAME: u8 := 2
  const RECORD_SIZE := 32
  const FOOTER_SIZE := 28
  const HEADER_SIZE := 12
  const CRC_SIZE := 4
  const MAX_FRAMES := 4096
  const MAX_INPUT := 1_048_576

  const MAGIC: seq<u8> := [0x41, 0x59, 0x4D, 0x54]

  // "AYMOS READY", CR LF, "TRACE BEGIN", CR LF
  const PREAMBLE: seq<u8> := [
    0x41, 0x59, 0x4D, 0x4F, 0x53, 0x20, 0x52, 0x45, 0x41, 0x44, 0x59, 0x0D, 0x0A,
    0x54, 0x52, 0x41, 0x43, 0x45, 0x20, 0x42, 0x45, 0x47, 0x49, 0x4E, 0x0D, 0x0A]

  // "AYMOS TRACE DONE", CR LF
  const TRAILER: seq<u8> := [
    0x41, 0x59, 0x4D, 0x4F, 0x53, 0x20, 0x54, 0x52, 0x41, 0x43, 0x45, 0x20, 0x44, 0x4F, 0x4E, 0x45, 0x0D, 0x0A]

  // ---- Little-endian words ----

  function Put16(x: u16): (s: seq<u8>)
    ensures |s| == 2
  {
    [x % 0x100, x / 0x100]
  }

  function Put32(x: u32): (s: seq<u8>)
    ensures |s| == 4
  {
    [x % 0x100, x / 0x100 % 0x100, x / 0x1_0000 % 0x100, x / 0x100_0000]
  }

  function Put64(x: u64): (s: seq<u8>)
    ensures |s| == 8
  {
    Put32(Low32(x)) + Put32(High32(x))
  }

  function Get16(s: seq<u8>): u16
    requires |s| == 2
  {
    s[0] as int + 0x100 * (s[1] as int)
  }

  function Get32(s: seq<u8>): u32
    requires |s| == 4
  {
    s[0] as int + 0x100 * (s[1] as int) + 0x1_0000 * (s[2] as int) + 0x100_0000 * (s[3] as int)
  }

  function Get64(s: seq<u8>): u64
    requires |s| == 8
  {
    Get32(s[..4]) + 0x1_0000_0000 * Get32(s[4..])
  }

  lemma Word16(x: u16, s: seq<u8>)
    ensures Get16(Put16(x)) == x
    ensures |s| == 2 ==> Put16(Get16(s)) == s
  {
  }

  lemma Word32(x: u32, s: seq<u8>)
    ensures Get32(Put32(x)) == x
    ensures |s| == 4 ==> Put32(Get32(s)) == s
  {
    Word32Value(x);
    if |s| == 4 { Word32Bytes(s); }
  }

  lemma Word32Value(x: u32)
    ensures Get32(Put32(x)) == x
  {
    assert x / 0x1_0000 == x / 0x100 / 0x100 && x / 0x100_0000 == x / 0x1_0000 / 0x100;
  }

  lemma Word32Bytes(s: seq<u8>)
    requires |s| == 4
    ensures Put32(Get32(s)) == s
  {
    var y := Get32(s);
    assert y / 0x100 == s[1] as int + 0x100 * (s[2] as int) + 0x1_0000 * (s[3] as int);
    assert y / 0x1_0000 == s[2] as int + 0x100 * (s[3] as int);
    assert y / 0x100_0000 == s[3];
  }

  lemma Word64(x: u64, s: seq<u8>)
    ensures Get64(Put64(x)) == x
    ensures |s| == 8 ==> Put64(Get64(s)) == s
  {
    hide Put32, Get32;
    Word32(Low32(x), []);
    Word32(High32(x), []);
    assert Put64(x)[..4] == Put32(Low32(x)) && Put64(x)[4..] == Put32(High32(x));
    if |s| == 8 {
      Word32(0, s[..4]);
      Word32(0, s[4..]);
      assert Low32(Get64(s)) == Get32(s[..4]) && High32(Get64(s)) == Get32(s[4..]);
      assert s == s[..4] + s[4..];
    }
  }

  // ---- Payloads ----

  function EncodeRecord(r: Record): (s: seq<u8>)
    ensures |s| == RECORD_SIZE
  {
    Put64(r.tick) + Put32(r.sequence) + Put16(r.schema) + [r.event, r.flags] + Put16(r.task) + Put16(r.related)
    + Put32(r.value0) + Put32(r.value1) + Put32(r.value2)
  }

  function DecodeRecord(s: seq<u8>): Record
    requires |s| == RECORD_SIZE
  {
    Record(Get64(s[0..8]), Get32(s[8..12]), Get16(s[12..14]), s[14], s[15], Get16(s[16..18]), Get16(s[18..20]),
           Get32(s[20..24]), Get32(s[24..28]), Get32(s[28..32]))
  }

  function EncodeFooter(f: Final): (s: seq<u8>)
    ensures |s| == FOOTER_SIZE
  {
    Put32(f.attempted) + Put32(f.emitted) + Put32(f.dropped) + Put32(f.finalSequence) + Put32(f.flags)
        + Put64(f.finalTick)
  }

  function DecodeFooter(s: seq<u8>): Final
    requires |s| == FOOTER_SIZE
  {
    Final(Get32(s[0..4]), Get32(s[4..8]), Get32(s[8..12]), Get32(s[12..16]), Get32(s[16..20]), Get64(s[20..28]))
  }

  lemma RecordSlices(r: Record)
    ensures var s := EncodeRecord(r);
      && s[0..8] == Put64(r.tick) && s[8..12] == Put32(r.sequence) && s[12..14] == Put16(r.schema)
      && s[14] == r.event && s[15] == r.flags && s[16..18] == Put16(r.task) && s[18..20] == Put16(r.related)
      && s[20..24] == Put32(r.value0) && s[24..28] == Put32(r.value1) && s[28..32] == Put32(r.value2)
  {
    hide Put16, Put32, Put64;
  }

  /** Encoding and decoding a record undo each other, on all records and on all
      payloads. */
  lemma RecordRoundTrip(r: Record, s: seq<u8>)
    ensures DecodeRecord(EncodeRecord(r)) == r
    ensures |s| == RECORD_SIZE ==> EncodeRecord(DecodeRecord(s)) == s
  {
    hide Put16, Put32, Put64, Get16, Get32, Get64;
    RecordSlices(r);
    Word64(r.tick, []);
    Word32(r.sequence, []);
    Word16(r.schema, []);
    Word16(r.task, []);
    Word16(r.related, []);
    Word32(r.value0, []);
    Word32(r.value1, []);
    Word32(r.value2, []);
    if |s| == RECORD_SIZE {
      PayloadRoundTrip(s);
    }
  }

  lemma PayloadRoundTrip(s: seq<u8>)
    requires |s| == RECORD_SIZE
    ensures EncodeRecord(DecodeRecord(s)) == s
  {
    hide Put16, Put32, Put64, Get16, Get32, Get64;
    Word64(0, s[0..8]);
    Word32(0, s[8..12]);
    Word16(0, s[12..14]);
    Word16(0, s[16..18]);
    Word16(0, s[18..20]);
    Word32(0, s[20..24]);
    Word32(0, s[24..28]);
    Word32(0, s[28..32]);
    assert s == s[0..8] + s[8..12] + s[12..14] + [s[14], s[15]] + s[16..18] + s[18..20] + s[20..24] + s[24..28]
           + s[28..32];
  }

  lemma FooterRoundTrip(f: Final, s: seq<u8>)
    ensures DecodeFooter(EncodeFooter(f)) == f
    ensures |s| == FOOTER_SIZE ==> EncodeFooter(DecodeFooter(s)) == s
  {
    hide Put32, Put64, Get32, Get64;
    FooterSlices(f);
    Word32(f.attempted, []);
    Word32(f.emitted, []);
    Word32(f.dropped, []);
    Word32(f.finalSequence, []);
    Word32(f.flags, []);
    Word64(f.finalTick, []);
    if |s| == FOOTER_SIZE {
      Word32(0, s[0..4]);
      Word32(0, s[4..8]);
      Word32(0, s[8..12]);
      Word32(0, s[12..16]);
      Word32(0, s[16..20]);
      Word64(0, s[20..28]);
      assert s == s[0..4] + s[4..8] + s[8..12] + s[12..16] + s[16..20] + s[20..28];
    }
  }

  lemma FooterSlices(f: Final)
    ensures var s := EncodeFooter(f);
      && s[0..4] == Put32(f.attempted) && s[4..8] == Put32(f.emitted) && s[8..12] == Put32(f.dropped)
      && s[12..16] == Put32(f.finalSequence) && s[16..20] == Put32(f.flags) && s[20..28] == Put64(f.finalTick)
  {
    hide Put32, Put64;
  }

  // ---- Frames ----

  function PayloadSize(kind: u8): nat {
    if kind == RECORD_FRAME then RECORD_SIZE else FOOTER_SIZE
  }

  predicate Payload(kind: u8, payload: seq<u8>) {
    (kind == RECORD_FRAME || kind == FOOTER_FRAME) && |payload| == PayloadSize(kind)
  }

  function FrameSize(kind: u8): nat {
    HEADER_SIZE + PayloadSize(kind) + CRC_SIZE
  }

  /** What the CRC covers: everything after the sync word. */
  function Covered(kind: u8, payload: seq<u8>): (s: seq<u8>)
    requires Payload(kind, payload)
    ensures |s| == 8 + |payload|
  {
    [VERSION, kind] + Put16(SCHEMA) + Put16(|payload|) + Put16(0) + payload
  }

  function Frame(kind: u8, payload: seq<u8>): (s: seq<u8>)
    requires Payload(kind, payload)
    ensures |s| == FrameSize(kind)
  {
    MAGIC + Covered(kind, payload) + Put32(Crc.Crc32(Covered(kind, payload)))
  }

  /** A frame starts at this offset. */
  predicate FrameAt(data: seq<u8>, offset: nat, kind: u8, payload: seq<u8>)
    requires Payload(kind, payload)
  {
    offset + FrameSize(kind) <= |data| && data[offset..offset + FrameSize(kind)] == Frame(kind, payload)
  }

  /** The sixteen fixed bytes of a frame and where its payload and CRC lie. */
  predicate HeaderAt(data: seq<u8>, offset: nat, kind: u8)
    requires offset + HEADER_SIZE <= |data|
  {
    && data[offset..offset + 4] == MAGIC && data[offset + 4] == VERSION && data[offset + 5] == kind
    && data[offset + 6..offset + 8] == Put16(SCHEMA) && data[offset + 8..offset + 10] == Put16(PayloadSize(kind))
    && data[offset + 10..offset + 12] == Put16(0)
  }

  lemma FrameParts(kind: u8, payload: seq<u8>)
    requires Payload(kind, payload)
    ensures var s := Frame(kind, payload);
      && HeaderAt(s, 0, kind) && s[12..12 + |payload|] == payload
      && s[4..12 + |payload|] == Covered(kind, payload)
      && s[12 + |payload|..] == Put32(Crc.Crc32(s[4..12 + |payload|]))
  {
    hide Put32, Crc.Crc32, Put16;
    var s := Frame(kind, payload);
    assert s[4..12 + |payload|] == Covered(kind, payload);
  }

  lemma SliceOfSlice(data: seq<u8>, a: nat, b: nat, c: nat, d: nat)
    requires a <= b <= |data| && c <= d <= b - a
    ensures data[a..b][c..d] == data[a + c..a + d]
  {
    var x, y := data[a..b][c..d], data[a + c..a + d];
    assert forall k :: 0 <= k < |x| ==> x[k] == data[a..b][c + k] == data[a + (c + k)] == y[k];
  }

  /** A frame is recognised by its header and its CRC alone. */
  lemma FrameIsHeaderAndCrc(data: seq<u8>, offset: nat, kind: u8)
    requires (kind == RECORD_FRAME || kind == FOOTER_FRAME) && offset + FrameSize(kind) <= |data|
    ensures var payload := data[offset + 12..offset + 12 + PayloadSize(kind)];
      FrameAt(data, offset, kind, payload) <==>
      HeaderAt(data, offset, kind)
      && data[offset + 12 + PayloadSize(kind)..offset + FrameSize(kind)]
         == Put32(Crc.Crc32(data[offset + 4..offset + 12 + PayloadSize(kind)]))
  {
    hide Put32, Crc.Crc32, Put16, Covered;
    var n := PayloadSize(kind);
    var payload := data[offset + 12..offset + 12 + n];
    var s := data[offset..offset + FrameSize(kind)];
    SliceOfSlice(data, offset, offset + FrameSize(kind), 0, 4);
    SliceOfSlice(data, offset, offset + FrameSize(kind), 6, 8);
    SliceOfSlice(data, offset, offset + FrameSize(kind), 8, 10);
    SliceOfSlice(data, offset, offset + FrameSize(kind), 10, 12);
    SliceOfSlice(data, offset, offset + FrameSize(kind), 4, 12 + n);
    SliceOfSlice(data, offset, offset + FrameSize(kind), 12, 12 + n);
    SliceOfSlice(data, offset, offset + FrameSize(kind), 12 + n, FrameSize(kind));
    assert HeaderAt(data, offset, kind) <==> HeaderAt(s, 0, kind);
    if s == Frame(kind, payload) {
      FrameParts(kind, payload);
    }
    if HeaderAt(data, offset, kind) {
      CoveredByHeader(data, offset, kind);
      assert s == s[0..4] + s[4..12 + n] + s[12 + n..FrameSize(kind)];
    }
  }

  lemma CoveredByHeader(data: seq<u8>, offset: nat, kind: u8)
    requires (kind == RECORD_FRAME || kind == FOOTER_FRAME) && offset + FrameSize(kind) <= |data|
             && HeaderAt(data, offset, kind)
    ensures data[offset + 4..offset + 12 + PayloadSize(kind)]
            == Covered(kind, data[offset + 12..offset + 12 + PayloadSize(kind)])
  {
    hide Put16;
    var n := PayloadSize(kind);
    var a := offset + 4;
    Joined(data, a, a + 2, a + 4);
    Joined(data, a, a + 4, a + 6);
    Joined(data, a, a + 6, a + 8);
    Joined(data, a, a + 8, a + 8 + n);
    assert data[a..a + 2] == [data[a], data[a + 1]];
  }

  lemma Joined(data: seq<u8>, a: nat, b: nat, c: nat)
    requires a <= b <= c <= |data|
    ensures data[a..c] == data[a..b] + data[b..c]
  {
  }

  /** At most one frame starts at an offset. */
  lemma FrameIsUnique(data: seq<u8>, offset: nat, kind: u8, payload: seq<u8>, kind': u8, payload': seq<u8>)
    requires Payload(kind, payload) && Payload(kind', payload')
    requires FrameAt(data, offset, kind, payload) && FrameAt(data, offset, kind', payload')
    ensures kind == kind' && payload == payload'
  {
    hide Put32, Crc.Crc32, Put16, Covered;
    FrameParts(kind, payload);
    FrameParts(kind', payload');
    assert Frame(kind, payload)[5] == data[offset + 5] == Frame(kind', payload')[5];
  }

  lemma PutJoins(b0: u8, b1: u8, b2: u8, b3: u8)
    ensures Put32(Crc.Join(b0, b1, b2, b3)) == [b0, b1, b2, b3]
  {
    var y := Crc.Join(b0, b1, b2, b3);
    assert y / 0x100 == b1 + 0x100 * b2 + 0x1_0000 * b3;
    assert y / 0x1_0000 == b2 + 0x100 * b3;
    assert y / 0x100_0000 == b3;
  }

  /** Data followed by its own check, lowest byte first, always has this check:
      the residue of the CRC-32 of section 8 of RFC 1952. */
  lemma CrcResidue(data: seq<u8>)
    ensures Crc.Crc32(data + Put32(Crc.Crc32(data))) == 0x2144_DF1C
  {
    hide Crc.Register, Crc.Flip, Crc.Number, Crc.Bytes, Put32;
    var c := Crc.Flip(Crc.Register(Crc.ALL_ONES, data));
    var s := Crc.Bytes(c);
    Crc.NumberIsJoined(c);
    PutJoins(s[0], s[1], s[2], s[3]);
    assert s == [s[0], s[1], s[2], s[3]];
    Crc.ResidueRegister(data);
    Crc.ResidueNumber();
  }

  /** So the bytes of every frame after its sync word have that residue. */
  lemma FrameResidue(kind: u8, payload: seq<u8>)
    requires Payload(kind, payload)
    ensures Crc.Crc32(Frame(kind, payload)[4..]) == 0x2144_DF1C
  {
    hide Crc.Crc32, Put32, Covered;
    CrcResidue(Covered(kind, payload));
    var s := Covered(kind, payload) + Put32(Crc.Crc32(Covered(kind, payload)));
    assert Frame(kind, payload) == MAGIC + s;
    assert (MAGIC + s)[4..] == s;
  }

  // ---- Where the bytes lie ----

  /** The number that bytes stand for, lowest first. */
  function LittleEndian(s: seq<u8>): nat {
    if s == [] then 0 else s[0] as int + 256 * LittleEndian(s[1..])
  }

  lemma {:induction false} LittleEndianConcat(a: seq<u8>, b: seq<u8>)
    ensures |a| == 2 ==> LittleEndian(a + b) == LittleEndian(a) + 0x1_0000 * LittleEndian(b)
    ensures |a| == 4 ==> LittleEndian(a + b) == LittleEndian(a) + 0x1_0000_0000 * LittleEndian(b)
  {
    if |a| == 2 {
      LittleEndianPair(a[0], a[1], b);
      LittleEndianPair(a[0], a[1], []);
      assert a + b == [a[0], a[1]] + b && a == [a[0], a[1]] + [];
    } else if |a| == 4 {
      LittleEndianPair(a[0], a[1], a[2..] + b);
      LittleEndianPair(a[2], a[3], b);
      LittleEndianPair(a[0], a[1], a[2..]);
      LittleEndianPair(a[2], a[3], []);
      assert a + b == [a[0], a[1]] + (a[2..] + b) && a == [a[0], a[1]] + a[2..];
      assert a[2..] + b == [a[2], a[3]] + b && a[2..] == [a[2], a[3]] + [];
    }
  }

  lemma LittleEndianPair(x: u8, y: u8, rest: seq<u8>)
    ensures LittleEndian([x, y] + rest) == x + 256 * y + 0x1_0000 * LittleEndian(rest)
  {
    assert ([x, y] + rest)[1..] == [y] + rest && ([y] + rest)[1..] == rest;
  }

  lemma PutsLittleEndian(x: u16, y: u32, z: u64)
    ensures LittleEndian(Put16(x)) == x && LittleEndian(Put32(y)) == y && LittleEndian(Put64(z)) == z
  {
    hide LittleEndian;
    Puts16(x);
    Puts32(y);
    Puts32(Low32(z));
    Puts32(High32(z));
    LittleEndianConcat(Put32(Low32(z)), Put32(High32(z)));
  }

  lemma Puts16(x: u16)
    ensures LittleEndian(Put16(x)) == x
  {
    hide LittleEndian;
    LittleEndianPair(x % 0x100, x / 0x100, []);
    LittleEndianNone();
    assert Put16(x) == [x % 0x100, x / 0x100] + [];
  }

  lemma LittleEndianNone()
    ensures LittleEndian([]) == 0
  {
  }

  lemma Puts32(x: u32)
    ensures LittleEndian(Put32(x)) == x
  {
    hide LittleEndian;
    Word32Value(x);
    var s := Put32(x);
    LittleEndianPair(s[0], s[1], [s[2], s[3]]);
    LittleEndianPair(s[2], s[3], []);
    LittleEndianNone();
    assert s == [s[0], s[1]] + [s[2], s[3]] && [s[2], s[3]] == [s[2], s[3]] + [];
  }

  /** The record payload, byte by byte: eight bytes of tick, four of sequence,
      two of schema, the event, the flags, two each of task and related task,
      and three values of four, all lowest byte first. */
  lemma RecordLayout(r: Record)
    ensures var s := EncodeRecord(r);
      && |s| == 32
      && LittleEndian(s[0..8]) == r.tick && LittleEndian(s[8..12]) == r.sequence
      && LittleEndian(s[12..14]) == r.schema && s[14] == r.event && s[15] == r.flags
      && LittleEndian(s[16..18]) == r.task && LittleEndian(s[18..20]) == r.related
      && LittleEndian(s[20..24]) == r.value0 && LittleEndian(s[24..28]) == r.value1
      && LittleEndian(s[28..32]) == r.value2
  {
    hide Put16, Put32, Put64, LittleEndian;
    RecordSlices(r);
    PutsLittleEndian(r.schema, r.sequence, r.tick);
    PutsLittleEndian(r.task, r.value0, 0);
    PutsLittleEndian(r.related, r.value1, 0);
    PutsLittleEndian(0, r.value2, 0);
  }

  lemma FooterLayout(f: Final)
    ensures var s := EncodeFooter(f);
      && |s| == 28
      && LittleEndian(s[0..4]) == f.attempted && LittleEndian(s[4..8]) == f.emitted
      && LittleEndian(s[8..12]) == f.dropped && LittleEndian(s[12..16]) == f.finalSequence
      && LittleEndian(s[16..20]) == f.flags && LittleEndian(s[20..28]) == f.finalTick
  {
    hide Put32, Put64, LittleEndian;
    FooterSlices(f);
    PutsLittleEndian(0, f.attempted, f.finalTick);
    PutsLittleEndian(0, f.emitted, 0);
    PutsLittleEndian(0, f.dropped, 0);
    PutsLittleEndian(0, f.finalSequence, 0);
    PutsLittleEndian(0, f.flags, 0);
  }

  /** The frame, byte by byte: "AYMT", version 1, kind 1 or 2, schema 1, the
      payload length, no flags, the payload, and the check of all but the sync
      word. */
  lemma FrameLayout(kind: u8, payload: seq<u8>)
    requires Payload(kind, payload)
    ensures var s, n := Frame(kind, payload), |payload|;
      && n == (if kind == 1 then 32 else 28) && |s| == 12 + n + 4
      && s[0] == 0x41 && s[1] == 0x59 && s[2] == 0x4D && s[3] == 0x54
      && s[4] == 1 && s[5] == kind && 1 <= kind <= 2 && LittleEndian(s[6..8]) == 1 && LittleEndian(s[8..10]) == n
      && LittleEndian(s[10..12]) == 0 && s[12..12 + n] == payload
      && LittleEndian(s[12 + n..]) == Crc.Crc32(s[4..12 + n])
  {
    hide Put32, Crc.Crc32, Put16, LittleEndian;
    FrameParts(kind, payload);
    var s := Frame(kind, payload);
    assert s[0] == s[0..4][0] && s[1] == s[0..4][1] && s[2] == s[0..4][2] && s[3] == s[0..4][3];
    PutsLittleEndian(SCHEMA, Crc.Crc32(s[4..12 + |payload|]), 0);
    PutsLittleEndian(|payload|, 0, 0);
    PutsLittleEndian(0, 0, 0);
  }

  /** The sync word and the banner lines, as text. */
  lemma BannersAreText()
    ensures |MAGIC| == |"AYMT"| && forall i :: 0 <= i < |MAGIC| ==> MAGIC[i] == "AYMT"[i] as int
    ensures var text := "AYMOS READY\r\nTRACE BEGIN\r\n";
      |PREAMBLE| == |text| && forall i :: 0 <= i < |text| ==> PREAMBLE[i] == text[i] as int
    ensures var text := "AYMOS TRACE DONE\r\n";
      |TRAILER| == |text| && forall i :: 0 <= i < |text| ==> TRAILER[i] == text[i] as int
  {
  }

  // ---- Transcripts ----

  function RecordFrame(r: Record): (s: seq<u8>)
    ensures |s| == 48
  {
    Frame(RECORD_FRAME, EncodeRecord(r))
  }

  /** The record frames, in order. */
  function Stream(rs: seq<Record>): (s: seq<u8>)
    ensures |s| == 48 * |rs|
  {
    if rs == [] then [] else RecordFrame(rs[0]) + Stream(rs[1..])
  }

  function Body(rs: seq<Record>, f: Final): seq<u8> {
    Stream(rs) + Frame(FOOTER_FRAME, EncodeFooter(f))
  }

  /** A captured trace, bare or between the banner lines of the firmware. */
  function Transcript(banner: bool, rs: seq<Record>, f: Final): seq<u8> {
    if banner then PREAMBLE + Body(rs, f) + TRAILER else Body(rs, f)
  }

  /** The payloads of the record frames, as the decoder hands them out raw. */
  function Raw(rs: seq<Record>): seq<u8> {
    if rs == [] then [] else EncodeRecord(rs[0]) + Raw(rs[1..])
  }

  lemma {:induction false} StreamConcat(a: seq<Record>, b: seq<Record>)
    ensures Stream(a + b) == Stream(a) + Stream(b)
    ensures Raw(a + b) == Raw(a) + Raw(b)
  {
    hide EncodeRecord, RecordFrame;
    if a == [] {
      assert a + b == b;
    } else {
      assert (a + b)[0] == a[0] && (a + b)[1..] == a[1..] + b;
      StreamConcat(a[1..], b);
      assert Stream(a + b) == RecordFrame(a[0]) + (Stream(a[1..]) + Stream(b));
      assert Raw(a + b) == EncodeRecord(a[0]) + (Raw(a[1..]) + Raw(b));
    }
  }

  lemma {:induction false} StreamOne(r: Record)
    ensures Stream([r]) == RecordFrame(r) && Raw([r]) == EncodeRecord(r)
  {
    hide EncodeRecord, RecordFrame;
    assert [r][1..] == [];
  }

  // ---- What a complete zero-loss trace is ----

  predicate FieldsValid(r: Record) {
    r.schema == SCHEMA && EventValid(r.event) && r.flags == 0 && TaskValid(r.task) && TaskValid(r.related)
  }

  predicate TicksAscend(rs: seq<Record>) {
    forall j, k :: 0 <= j < k < |rs| ==> rs[j].tick <= rs[k].tick
  }

  /** The rules on single records, sequence and time. */
  predicate Continuous(rs: seq<Record>) {
    (forall k :: 0 <= k < |rs| ==> FieldsValid(rs[k])) && Consecutive(rs) && TicksAscend(rs)
  }

  predicate FooterAgrees(rs: seq<Record>, f: Final) {
    CompleteFooter(f, |rs|) && (rs != [] ==> rs[|rs| - 1].tick <= f.finalTick)
  }

  predicate Meaningful(rs: seq<Record>) {
    && SelectionsValid(rs)
    && forall k :: 0 <= k < |rs| ==> RoleValid(rs[k]) && PayloadValid(rs[k]) && rs[k].event != OVERFLOW
  }

  predicate Acceptable(rs: seq<Record>, f: Final) {
    |rs| < MAX_FRAMES && Continuous(rs) && FooterAgrees(rs, f) && Meaningful(rs)
  }

  /** The bytes are the encoding of this acceptable trace. */
  predicate Encodes(data: seq<u8>, rs: seq<Record>, f: Final) {
    && |data| <= MAX_INPUT && Acceptable(rs, f)
    && (data == Transcript(true, rs, f) || data == Transcript(false, rs, f))
  }
}
