/** A payload corrupted within four consecutive bytes never decodes. */
module TraceCorruption {
  import opened Words
  import opened TraceTypes
  import opened TraceRing
  import opened TraceWire
  import opened TraceDecoder
  import opened TraceValidator
  import Crc

  /** data' is data with some bytes of one window changed. */
  predicate DiffersWithin(data: seq<u8>, data': seq<u8>, at: nat, width: nat) {
    && |data| == |data'| && at + width <= |data| && data != data'
    && data[..at] == data'[..at] && data[at + width..] == data'[at + width..]
  }

  lemma SliceBefore(data: seq<u8>, data': seq<u8>, at: nat, a: nat, b: nat)
    requires a <= b <= at <= |data| && at <= |data'| && data[..at] == data'[..at]
    ensures data[a..b] == data'[a..b]
  {
    assert data[..at][a..b] == data[a..b] && data'[..at][a..b] == data'[a..b];
  }

  lemma SliceAfter(data: seq<u8>, data': seq<u8>, at: nat, a: nat, b: nat)
    requires at <= a <= b <= |data| == |data'| && data[at..] == data'[at..]
    ensures data[a..b] == data'[a..b]
  {
    assert data[at..][a - at..b - at] == data[a..b] && data'[at..][a - at..b - at] == data'[a..b];
  }

  /** The covered bytes of a frame differ inside the same window. */
  lemma CoveredDiffers(data: seq<u8>, data': seq<u8>, at: nat, width: nat, a: nat, b: nat)
    requires DiffersWithin(data, data', at, width) && a <= at && at + width <= b <= |data|
    ensures DiffersWithin(data[a..b], data'[a..b], at - a, width)
  {
    SliceBefore(data, data', at, a, at);
    SliceAfter(data, data', at + width, at + width, b);
    assert data[a..b][..at - a] == data[a..at] && data'[a..b][..at - a] == data'[a..at];
    assert data[a..b][at + width - a..] == data[at + width..b] && data'[a..b][at + width - a..] == data'[at + width..b];
    assert data == data[..a] + data[a..b] + data[b..] && data' == data'[..a] + data'[a..b] + data'[b..];
    SliceBefore(data, data', at, 0, a);
    assert data[..a] == data[0..a] && data'[..a] == data'[0..a];
    SliceAfter(data, data', at + width, b, |data|);
    assert data[b..] == data[b..|data|] && data'[b..] == data'[b..|data|];
  }

  /** A frame whose payload is damaged inside a small window is no frame. */
  lemma DamagedFrameIsNoFrame(data: seq<u8>, data': seq<u8>, offset: nat, kind: u8, payload: seq<u8>, at: nat,
                              width: nat)
    requires Payload(kind, payload) && FrameAt(data, offset, kind, payload)
    requires DiffersWithin(data, data', at, width) && width <= 4
    requires offset + 12 <= at && at + width <= offset + 12 + PayloadSize(kind)
    ensures NoFrameAt(data', offset)
  {
    hide FrameAt, Frame, Put16, Put32, Crc.Crc32, DiffersWithin;
    FrameFits(data, offset, kind, payload);
    FrameHasHeader(data, offset, kind, payload);
    var n := PayloadSize(kind);
    assert |data| == |data'| && data[..at] == data'[..at] && data[at + width..] == data'[at + width..]
           && at + width <= |data| by {
      DiffersMeans(data, data', at, width);
    }
    SliceAfter(data, data', at + width, offset + 12 + n, offset + FrameSize(kind));
    CoveredDiffers(data, data', at, width, offset + 4, offset + 12 + n);
    DiffersMeans(data[offset + 4..offset + 12 + n], data'[offset + 4..offset + 12 + n], at - (offset + 4), width);
    Crc.WindowCorruptionIsDetected(data[offset + 4..offset + 12 + n], data'[offset + 4..offset + 12 + n],
                                   at - (offset + 4), width);
    assert data[offset + 5] == data'[offset + 5] by {
      SliceBefore(data, data', at, offset + 5, offset + 6);
      OneByte(data, data', offset + 5);
    }
    forall kind': u8, payload': seq<u8> | Payload(kind', payload')
        && FrameAt(data', offset, kind', payload') ensures false {
      FrameFits(data', offset, kind', payload');
      FrameHasHeader(data', offset, kind', payload');
      Word32Value(Crc.Crc32(data[offset + 4..offset + 12 + n]));
      Word32Value(Crc.Crc32(data'[offset + 4..offset + 12 + n]));
    }
  }

  lemma DiffersMeans(data: seq<u8>, data': seq<u8>, at: nat, width: nat)
    requires DiffersWithin(data, data', at, width)
    ensures |data| == |data'| && at + width <= |data| && data != data'
    ensures data[..at] == data'[..at] && data[at + width..] == data'[at + width..]
  {
  }

  lemma OneByte(data: seq<u8>, data': seq<u8>, k: nat)
    requires k < |data| && k < |data'| && data[k..k + 1] == data'[k..k + 1]
    ensures data[k] == data'[k]
  {
    assert data[k..k + 1][0] == data[k] && data'[k..k + 1][0] == data'[k];
  }

  /** Where the payload of frame n lies in a transcript. */
  function PayloadStart(banner: bool, n: nat): nat {
    (if banner then |PREAMBLE| else 0) + 48 * n + 12
  }

  /** Frames before the damage are untouched, so any trace the damaged data
      might encode would have to read them the same way and then find a frame
      where there is none. */
  lemma {:induction false} UntouchedPrefix(data: seq<u8>, data': seq<u8>, start: nat, rs: seq<Record>, f: Final, n: nat,
                                           at: nat)
    requires BodyAt(data, start, rs, f) && Continuous(rs) && n <= |rs| && start + 48 * n <= at <= |data| == |data'|
    requires data[..at] == data'[..at]
    ensures OnTrack(data', start, rs[..n])
  {
    hide BodyAt, Continuous, Follows, FrameAt, EncodeRecord, EncodeFooter, Frame;
    if n == 0 {
      StartOnTrack(data', start);
      assert rs[..0] == [];
    } else {
      UntouchedPrefix(data, data', start, rs, f, n - 1, at);
      var offset := start + 48 * (n - 1);
      NextFrame(data, start, rs, f, n - 1);
      FrameSurvives(data, data', offset, rs[n - 1], at);
      ContinuousPrefix(rs, n - 1);
      ContinuousPrefix(rs, n);
      assert rs[..n] == rs[..n - 1] + [rs[n - 1]];
      ContinuousExtends(rs[..n - 1], rs[n - 1]);
      RecordRoundTrip(rs[n - 1], []);
      RecordContinues(data', start, rs[..n - 1], EncodeRecord(rs[n - 1]));
    }
  }

  lemma FrameSurvives(data: seq<u8>, data': seq<u8>, offset: nat, r: Record, at: nat)
    requires FrameAt(data, offset, RECORD_FRAME, EncodeRecord(r)) && offset + 48 <= at <= |data| == |data'|
    requires data[..at] == data'[..at]
    ensures FrameAt(data', offset, RECORD_FRAME, EncodeRecord(r))
  {
    hide EncodeRecord, Frame;
    SliceBefore(data, data', at, offset, offset + 48);
  }

  /** Damage of at most four consecutive bytes inside the payload of any frame
      of any encoded trace leaves nothing that decodes. */
  lemma CorruptPayloadNeverDecodes(data: seq<u8>, data': seq<u8>, banner: bool, rs: seq<Record>, f: Final, n: nat,
                                   at: nat, width: nat)
    requires Encodes(data, rs, f) && Opens(data, banner) && n <= |rs|
    requires DiffersWithin(data, data', at, width) && width <= 4
    requires PayloadStart(banner, n) <= at
    requires at + width <= PayloadStart(banner, n) + PayloadSize(if n < |rs| then RECORD_FRAME else FOOTER_FRAME)
    ensures forall rs', f' :: !Encodes(data', rs', f')
  {
    hide PREAMBLE, TRAILER, Body, BodyAt, Continuous, FrameAt, Frame, EncodeRecord, EncodeFooter, FooterAgrees,
         Meaningful, DiffersWithin;
    hide Transcript, Closes, StartsWith;
    var start := if banner then |PREAMBLE| else 0;
    EncodedBody(data, banner, rs, f);
    DiffersMeans(data, data', at, width);
    UntouchedPrefix(data, data', start, rs, f, n, at);
    NextFrame(data, start, rs, f, n);
    if n < |rs| {
      DamagedFrameIsNoFrame(data, data', start + 48 * n, RECORD_FRAME, EncodeRecord(rs[n]), at, width);
    } else {
      DamagedFrameIsNoFrame(data, data', start + 48 * n, FOOTER_FRAME, EncodeFooter(f), at, width);
    }
    NoFrameNoTrace(data', start, rs[..n]);
    forall rs', f' | Encodes(data', rs', f') ensures false {
      OpensTheSame(data, data', banner, at);
      EncodedBody(data', banner, rs', f');
    }
  }

  lemma OpensTheSame(data: seq<u8>, data': seq<u8>, banner: bool, at: nat)
    requires if banner then |PREAMBLE| <= at else |MAGIC| <= at
    requires Opens(data, banner) && at <= |data| == |data'| && data[..at] == data'[..at]
    ensures Opens(data', banner)
  {
    hide PREAMBLE, MAGIC;
    var prefix := if banner then PREAMBLE else MAGIC;
    SliceBefore(data, data', at, 0, |prefix|);
    assert data[0..|prefix|] == data[..|prefix|] && data'[0..|prefix|] == data'[..|prefix|];
  }
}
