/** The trace ring in the source's own form: a circular array with read and
    write indices, updated in place. */
module TraceRingMachine {
  import opened Words
  import opened TraceTypes
  import opened TraceRing

  /** Position i of a circular buffer of n slots, i at most one turn ahead. */
  function Wrap(i: nat, n: nat): int {
    if i < n then i else i - n
  }

  /** The c records that start at index r of circular storage. */
  function Unrolled(storage: seq<Record>, r: nat, c: nat): (s: seq<Record>)
    requires r < |storage| && c <= |storage|
    ensures |s| == c
  {
    if r + c <= |storage| then storage[r..r + c] else storage[r..] + storage[..r + c - |storage|]
  }

  lemma UnrolledGrows(storage: seq<Record>, r: nat, c: nat, x: Record)
    requires r < |storage| && c < |storage|
    ensures Unrolled(storage[Wrap(r + c, |storage|) := x], r, c + 1) == Unrolled(storage, r, c) + [x]
  {
    var after := Unrolled(storage[Wrap(r + c, |storage|) := x], r, c + 1);
    forall k | 0 <= k < c + 1 ensures after[k] == (Unrolled(storage, r, c) + [x])[k] {
    }
  }

  class RingBuffer {
    var records: array<Record>
    var readIndex: nat
    var writeIndex: nat
    var count: nat
    var nextSequence: u32
    var attempted: u32
    var emitted: u32
    var dropped: u32
    var reported: u32
    var enabled: bool
    var exhausted: bool

    ghost predicate Valid()
      reads this
    {
      && 0 < records.Length && readIndex < records.Length && count <= records.Length
      && writeIndex == Wrap(readIndex + count, records.Length)
    }

    /** The held records, oldest first. */
    ghost function Contents(): seq<Record>
      reads this, records
      requires Valid()
    {
      Unrolled(records[..], readIndex, count)
    }

    ghost function Abs(): Ring
      reads this, records
      requires Valid()
    {
      Ring(records.Length, Contents(), nextSequence, attempted, emitted, dropped, reported, enabled, exhausted)
    }

    constructor (storage: array<Record>)
      requires storage.Length > 0
      ensures Valid() && records == storage && Abs() == Fresh(storage.Length)
    {
      records := storage;
      readIndex, writeIndex, count := 0, 0, 0;
      nextSequence, attempted, emitted, dropped, reported := 0, 0, 0, 0, 0;
      enabled, exhausted := true, false;
    }

    /** Check every input, then either drop the whole batch or write it behind
        the records already held. */
    method PushBatch(tick: u64, inputs: seq<Input>) returns (ok: bool)
      requires Valid()
      modifies this, records
      ensures Valid() && records == old(records)
      ensures (Abs(), ok) == TraceRing.PushBatch(old(Abs()), tick, inputs)
    {
      hide Stamp, Unrolled;
      if !enabled || inputs == [] || |inputs| > records.Length || |inputs| > MAX_BATCH { return false; }
      for i := 0 to |inputs|
        invariant forall k :: 0 <= k < i ==> EventValid(inputs[k].event) && inputs[k].flags == 0
      {
        if !EventValid(inputs[i].event) || inputs[i].flags != 0 { return false; }
      }
      var n := |inputs|;
      if exhausted || nextSequence > U32_MAX - (n - 1) {
        exhausted := true;
        Count(n);
        Lose(n);
        return false;
      }
      var first := nextSequence;
      Count(n);
      nextSequence := (nextSequence + n) % 0x1_0000_0000;
      if nextSequence == 0 {
        exhausted := true;
      }
      if n > records.Length - count {
        Lose(n);
        return false;
      }
      Append(tick, first, inputs);
      Emit(n);
      return true;
    }

    method Emit(n: nat)
      modifies this`emitted
      ensures emitted == SatAdd(old(emitted), n)
    {
      for i := 0 to n
        invariant emitted == SatAdd(old(emitted), i)
      {
        emitted := SatInc(emitted);
      }
    }

    method Count(n: nat)
      modifies this`attempted
      ensures attempted == SatAdd(old(attempted), n)
    {
      for i := 0 to n
        invariant attempted == SatAdd(old(attempted), i)
      {
        attempted := SatInc(attempted);
      }
    }

    method Lose(n: nat)
      modifies this`dropped
      ensures dropped == SatAdd(old(dropped), n)
    {
      for i := 0 to n
        invariant dropped == SatAdd(old(dropped), i)
      {
        dropped := SatInc(dropped);
      }
    }

    /** Write a batch in place at the write index, wrapping at the end. */
    method Append(tick: u64, first: u32, inputs: seq<Input>)
      requires Valid() && |inputs| <= records.Length - count && first + |inputs| <= U32_MAX + 1
      modifies this`writeIndex, this`count, records
      ensures Valid() && Contents() == old(Contents()) + Stamp(tick, first, inputs)
    {
      hide Unrolled;
      ghost var held, added := Contents(), Stamp(tick, first, inputs);
      var write: nat := writeIndex;
      for i := 0 to |inputs|
        invariant count == |held| && writeIndex == old(writeIndex)
        invariant write == Wrap(readIndex + count + i, records.Length) && write < records.Length
        invariant Unrolled(records[..], readIndex, count + i) == held + added[..i]
      {
        UnrolledGrows(records[..], readIndex, count + i, added[i]);
        records[write] := Stamped(tick, first + i, inputs[i]);
        write := if write + 1 == records.Length then 0 else write + 1;
        assert added[..i + 1] == added[..i] + [added[i]];
      }
      writeIndex := write;
      count := count + |inputs|;
      assert added[..|inputs|] == added;
    }

    method Pop() returns (record: Option<Record>)
      requires Valid()
      modifies this`readIndex, this`count
      ensures Valid() && (Abs(), record) == TraceRing.Pop(old(Abs()))
    {
      if count == 0 { return None; }
      record := Some(records[readIndex]);
      readIndex := if readIndex + 1 == records.Length then 0 else readIndex + 1;
      count := count - 1;
      assert Contents() == old(Contents())[1..];
    }

    method ReportOverflow(tick: u64) returns (ok: bool)
      requires Valid()
      modifies this, records
      ensures Valid() && records == old(records)
      ensures (Abs(), ok) == TraceRing.ReportOverflow(old(Abs()), tick)
    {
      if !enabled || count >= records.Length || exhausted || dropped == reported { return false; }
      var lost := dropped;
      var pushed := PushBatch(tick, [Input(OVERFLOW, 0, NO_TASK, NO_TASK, dropped, attempted, emitted)]);
      if !pushed { return false; }
      reported := lost;
      return true;
    }

    method Close(tick: u64) returns (final: Option<Final>)
      requires Valid()
      modifies this`enabled
      ensures Valid()
      ensures match TraceRing.Close(old(Abs()), tick)
              case None => final == None && Abs() == old(Abs())
              case Some(closed) => final == Some(closed.1) && Abs() == closed.0
    {
      if !enabled { return None; }
      enabled := false;
      var last: u32 := if attempted == 0 then U32_MAX
                       else if exhausted then U32_MAX
                       else (nextSequence - 1) % 0x1_0000_0000;
      return Some(Final(attempted, emitted, dropped, last, if exhausted then 1 else 0, tick));
    }
  }
}
