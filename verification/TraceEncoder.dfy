/** The firmware side of the wire format: bytes written in place into frame
    buffers, the CRC loop, and the drain that sends a closed ring. */
module TraceEncoder {
  import opened Words
  import opened TraceTypes
  import opened TraceRing
  import opened TraceWire
  import opened Scheduler
  import opened TraceSelection
  import TraceEmitter
  import TraceRingMachine
  import Crc

  // ---- Bytes in place ----

  method PutU16(output: array<u8>, at: nat, value: u16)
    requires at + 2 <= output.Length
    modifies output
    ensures output[..at + 2] == old(output[..at]) + Put16(value)
  {
    output[at] := value % 0x100;
    output[at + 1] := value / 0x100;
    assert output[..at] == old(output[..at]);
  }

  method PutU32(output: array<u8>, at: nat, value: u32)
    requires at + 4 <= output.Length
    modifies output
    ensures output[..at + 4] == old(output[..at]) + Put32(value)
  {
    output[at] := value % 0x100;
    output[at + 1] := value / 0x100 % 0x100;
    output[at + 2] := value / 0x1_0000 % 0x100;
    output[at + 3] := value / 0x100_0000;
    assert output[..at] == old(output[..at]);
  }

  method PutU64(output: array<u8>, at: nat, value: u64)
    requires at + 8 <= output.Length
    modifies output
    ensures output[..at + 8] == old(output[..at]) + Put64(value)
  {
    hide Put32, Low32, High32;
    PutU32(output, at, Low32(value));
    PutU32(output, at + 4, High32(value));
  }

  method PutByte(output: array<u8>, at: nat, value: u8)
    requires at + 1 <= output.Length
    modifies output
    ensures output[..at + 1] == old(output[..at]) + [value]
  {
    output[at] := value;
    assert output[..at] == old(output[..at]);
  }

  method WriteRecord(record: Record, payload: array<u8>)
    requires payload.Length == RECORD_SIZE
    modifies payload
    ensures payload[..] == EncodeRecord(record)
  {
    hide Put16, Put32, Put64;
    PutU64(payload, 0, record.tick);
    PutU32(payload, 8, record.sequence);
    PutU16(payload, 12, record.schema);
    PutByte(payload, 14, record.event);
    PutByte(payload, 15, record.flags);
    PutU16(payload, 16, record.task);
    PutU16(payload, 18, record.related);
    PutU32(payload, 20, record.value0);
    PutU32(payload, 24, record.value1);
    PutU32(payload, 28, record.value2);
    assert payload[..] == payload[..32];
    assert [record.event] + [record.flags] == [record.event, record.flags];
  }

  method WriteFooter(final: Final, payload: array<u8>)
    requires payload.Length == FOOTER_SIZE
    modifies payload
    ensures payload[..] == EncodeFooter(final)
  {
    hide Put32, Put64;
    PutU32(payload, 0, final.attempted);
    PutU32(payload, 4, final.emitted);
    PutU32(payload, 8, final.dropped);
    PutU32(payload, 12, final.finalSequence);
    PutU32(payload, 16, final.flags);
    PutU64(payload, 20, final.finalTick);
    assert payload[..] == payload[..28];
  }

  // ---- The CRC loop ----

  function BitSteps(c: bv32, n: nat): bv32 {
    if n == 0 then c else Crc.Step(BitSteps(c, n - 1))
  }

  lemma FourBitSteps(c: bv32, n: nat)
    ensures BitSteps(c, n + 4) == Crc.Step4(BitSteps(c, n))
  {
    hide Crc.Step;
    assert BitSteps(c, n + 1) == Crc.Step(BitSteps(c, n));
    assert BitSteps(c, n + 2) == Crc.Step(BitSteps(c, n + 1));
    assert BitSteps(c, n + 3) == Crc.Step(BitSteps(c, n + 2));
  }

  lemma EightBitSteps(c: bv32)
    ensures BitSteps(c, 8) == Crc.Step8(c)
  {
    hide Crc.Step;
    FourBitSteps(c, 0);
    FourBitSteps(c, 4);
  }

  lemma {:induction false} RegisterTakesLast(c: bv32, data: seq<u8>, b: u8)
    ensures Crc.Register(c, data + [b]) == Crc.Feed(Crc.Register(c, data), b)
  {
    hide Crc.Feed;
    Crc.RegisterConcat(c, data, [b]);
    assert [b][1..] == [];
  }

  method Crc32Of(data: array<u8>, from: nat, length: nat) returns (crc: u32)
    requires from + length <= data.Length
    ensures crc == Crc.Crc32(data[from..from + length])
  {
    hide Crc.Step, Crc.Number, Crc.Flip, Crc.Xor, Crc.Bits, Crc.Register;
    var register := Crc.ALL_ONES;
    assert Crc.Register(Crc.ALL_ONES, data[from..from]) == register by { RegisterOfNothing(data[from..from]); }
    for index := 0 to length
      invariant register == Crc.Register(Crc.ALL_ONES, data[from..from + index])
    {
      var b := data[from + index];
      register := Crc.Xor(register, Crc.Bits(b));
      ghost var folded := register;
      for bit := 0 to 8
        invariant register == BitSteps(folded, bit)
      {
        register := Crc.Step(register);
      }
      EightBitSteps(folded);
      RegisterTakesLast(Crc.ALL_ONES, data[from..from + index], b);
      assert data[from..from + index + 1] == data[from..from + index] + [b];
    }
    return Crc.Number(Crc.Flip(register));
  }

  lemma RegisterOfNothing(nothing: seq<u8>)
    requires nothing == []
    ensures Crc.Register(Crc.ALL_ONES, nothing) == Crc.ALL_ONES
  {
  }

  // ---- Frames and the drain ----

  function Header(kind: u8, length: u16): (s: seq<u8>)
    ensures |s| == HEADER_SIZE
  {
    MAGIC + [VERSION, kind] + Put16(SCHEMA) + Put16(length) + Put16(0)
  }

  method BuildHeader(kind: u8, length: u16, frame: array<u8>)
    requires frame.Length >= HEADER_SIZE
    modifies frame
    ensures frame[..HEADER_SIZE] == Header(kind, length)
  {
    hide Put16;
    PutByte(frame, 0, MAGIC[0]);
    PutByte(frame, 1, MAGIC[1]);
    PutByte(frame, 2, MAGIC[2]);
    PutByte(frame, 3, MAGIC[3]);
    assert frame[..4] == MAGIC;
    PutByte(frame, 4, VERSION);
    PutByte(frame, 5, kind);
    PutU16(frame, 6, SCHEMA);
    PutU16(frame, 8, length);
    PutU16(frame, 10, 0);
  }

  lemma FrameFromHeader(kind: u8, payload: seq<u8>)
    requires Payload(kind, payload)
    ensures Header(kind, |payload|) + payload == MAGIC + Covered(kind, payload)
    ensures Frame(kind, payload) == Header(kind, |payload|) + payload + Put32(Crc.Crc32(Covered(kind, payload)))
  {
    hide Put16, Put32, Crc.Crc32;
  }

  /** Lay out one frame at the start of a buffer. */
  method BuildFrame(kind: u8, payload: array<u8>, frame: array<u8>)
    requires Payload(kind, payload[..]) && frame.Length == FrameSize(RECORD_FRAME) && frame != payload
    modifies frame
    ensures frame[..FrameSize(kind)] == Frame(kind, payload[..])
  {
    hide Put16, Put32, Crc.Crc32, Header, Covered, Frame;
    BuildHeader(kind, payload.Length, frame);
    for index := 0 to payload.Length
      invariant frame[..12 + index] == Header(kind, payload.Length) + payload[..index]
    {
      PutByte(frame, HEADER_SIZE + index, payload[index]);
      assert payload[..index + 1] == payload[..index] + [payload[index]];
    }
    var crcOffset := HEADER_SIZE + payload.Length;
    assert payload[..payload.Length] == payload[..];
    FrameFromHeader(kind, payload[..]);
    assert frame[4..4 + (8 + payload.Length)] == Covered(kind, payload[..]) by {
      assert frame[..crcOffset] == MAGIC + Covered(kind, payload[..]);
    }
    var crc := Crc32Of(frame, 4, 8 + payload.Length);
    PutU32(frame, crcOffset, crc);
  }

  /** The trace side of the kernel: the ring and the bytes that have left over
      the UART, which may stop accepting frames. */
  class TraceRuntime {
    const ring: TraceRingMachine.RingBuffer
    var sent: seq<u8>
    var uartAccepts: nat

    constructor (ring: TraceRingMachine.RingBuffer, uartAccepts: nat)
      ensures this.ring == ring && sent == [] && this.uartAccepts == uartAccepts
    {
      this.ring := ring;
      this.sent := [];
      this.uartAccepts := uartAccepts;
    }

    /** Hand a finished frame to the UART. */
    method Write(bytes: seq<u8>) returns (ok: bool)
      modifies this
      ensures ok == (old(uartAccepts) > 0)
      ensures sent == old(sent) + if ok then bytes else []
      ensures uartAccepts == if ok then old(uartAccepts) - 1 else 0
    {
      ok := uartAccepts > 0;
      if ok {
        sent := sent + bytes;
        uartAccepts := uartAccepts - 1;
      }
    }

    /** Send a payload as one frame; payloads of any other size are refused. */
    method SendFrame(kind: u8, payload: array<u8>) returns (ok: bool)
      requires kind == RECORD_FRAME || kind == FOOTER_FRAME
      requires payload.Length == RECORD_SIZE || payload.Length == FOOTER_SIZE ==> payload.Length == PayloadSize(kind)
      modifies this
      ensures if payload.Length == PayloadSize(kind) then
                && ok == (old(uartAccepts) > 0)
                && sent == old(sent) + (if ok then Frame(kind, payload[..]) else [])
                && uartAccepts == if ok then old(uartAccepts) - 1 else 0
              else !ok && sent == old(sent) && uartAccepts == old(uartAccepts)
    {
      hide Frame;
      if payload.Length != RECORD_SIZE && payload.Length != FOOTER_SIZE { return false; }
      var frame := new u8[FrameSize(RECORD_FRAME)];
      BuildFrame(kind, payload, frame);
      ok := Write(frame[..FrameSize(kind)]);
    }

    ghost predicate Valid()
      reads this, ring
    {
      ring.Valid()
    }

    /** Report earlier loss if that is due, then record one event. */
    method Emit(tick: u64, input: Input)
      requires Valid()
      modifies ring, ring.records
      ensures Valid() && ring.records == old(ring.records)
      ensures ring.Abs() == Produce(old(ring.Abs()), tick, [input])
    {
      var reported := ring.ReportOverflow(tick);
      var pushed := ring.PushBatch(tick, [input]);
    }

    /** Record one scheduling choice as a batch: all of it or nothing. */
    method EmitSelection(tick: u64, tasks: array<Task>, selected: u8, incumbent: u8, excluded: u8, purpose: u8)
      requires Valid() && Shaped(Choice(tasks[..], selected, incumbent, excluded, purpose))
      modifies ring, ring.records
      ensures Valid() && ring.records == old(ring.records)
      ensures var c := Choice(tasks[..], selected, incumbent, excluded, purpose);
        ring.Abs() == Produce(old(ring.Abs()), tick, SelectionBatch(c))
    {
      hide TraceRing.PushBatch, TraceRing.ReportOverflow, SelectionBatch;
      var inputs := new Input[TASK_COUNT];
      var count := TraceEmitter.BuildSelection(tasks, selected, incumbent, excluded, purpose, inputs);
      var reported := ring.ReportOverflow(tick);
      var pushed := ring.PushBatch(tick, inputs[..count]);
    }

    /** Send what a closed ring holds, oldest first, until it is empty or the
        UART refuses a frame. */
    method Drain() returns (ok: bool)
      requires Valid() && !ring.enabled
      modifies this, ring, ring.records
      ensures Valid() && !ring.enabled && ring.records == old(ring.records)
      ensures var held := old(ring.Contents());
        && ok == (|held| <= old(uartAccepts))
        && sent == old(sent) + Stream(if ok then held else held[..old(uartAccepts)])
        && (ok ==> uartAccepts == old(uartAccepts) - |held| && ring.Contents() == [])
    {
      hide Frame, EncodeRecord, Stream, TraceRingMachine.Unrolled;
      ghost var held := old(ring.Contents());
      ghost var i: nat := 0;
      var payload := new u8[RECORD_SIZE];
      StreamOfNothing();
      assert held[..0] == [] && held[0..] == held;
      while true
        invariant Valid() && fresh(payload) && !ring.enabled && ring.records == old(ring.records)
        invariant i <= |held| && i <= old(uartAccepts) && uartAccepts == old(uartAccepts) - i
        invariant ring.Contents() == held[i..]
        invariant sent == old(sent) + Stream(held[..i])
        decreases |held| - i
      {
        var record := ring.Pop();
        if record.None? { break; }
        assert record == Some(held[i]);
        WriteRecord(record.value, payload);
        ok := SendFrame(RECORD_FRAME, payload);
        if !ok { return false; }
        StreamTakesNext(held, i);
        i := i + 1;
      }
      assert i == |held| && held[..i] == held;
      ok := true;
    }

    /** Close the ring and send everything it holds, oldest first, then the
        footer. Only idle may finish, and only once; a refusing UART ends the
        drain after the frames it accepted. */
    method Finish(currentTask: u8, tick: u64) returns (ok: bool)
      requires Valid()
      modifies this, ring, ring.records
      ensures Valid()
      ensures var closed := TraceRing.Close(old(ring.Abs()), tick);
        var held := old(ring.Contents());
        if currentTask != 0 || closed.None? then !ok && sent == old(sent) && ring.Abs() == old(ring.Abs())
        else
          && ok == (|held| < old(uartAccepts)) && !ring.enabled
          && (ok ==> sent == old(sent) + Body(held, closed.value.1) && ring.Contents() == [])
          && (!ok ==> sent == old(sent) + Stream(held[..old(uartAccepts)]))
    {
      hide Frame, EncodeFooter, EncodeRecord, Stream, TraceRingMachine.Unrolled;
      if currentTask != 0 { return false; }
      var final := ring.Close(tick);
      if final.None? { return false; }
      ok := Drain();
      if !ok { return false; }
      var footer := new u8[FOOTER_SIZE];
      WriteFooter(final.value, footer);
      ok := SendFrame(FOOTER_FRAME, footer);
      ghost var held := old(ring.Contents());
      assert held[..|held|] == held;
    }
  }

  lemma StreamOfNothing()
    ensures Stream([]) == []
  {
  }

  lemma {:induction false} StreamTakesNext(rs: seq<Record>, n: nat)
    requires n < |rs|
    ensures Stream(rs[..n + 1]) == Stream(rs[..n]) + Frame(RECORD_FRAME, EncodeRecord(rs[n]))
  {
    hide Frame, EncodeRecord;
    assert rs[..n + 1] == rs[..n] + [rs[n]];
    StreamConcat(rs[..n], [rs[n]]);
    StreamOne(rs[n]);
  }
}
