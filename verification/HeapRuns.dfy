/** Conservation over whole runs of the allocator. */
module HeapRuns {
  import opened Words
  import opened HeapChain
  import opened HeapModel
  import opened HeapLaws

  datatype Op = AllocOp(size: u32, owner: u16) | FreeOp(pointer: nat, owner: u16) | ReleaseOp(owner: u16)

  function Apply(h: Heap, op: Op): Heap
    requires HasAddr(h.chain, h.nextFit)
  {
    match op
    case AllocOp(size, owner) => Alloc(h, size, owner).0
    case FreeOp(pointer, owner) => FreeBlock(h, pointer, owner).0
    case ReleaseOp(owner) => ReleaseOwner(h, owner).0
  }

  /** Allocations minus frees, counted exactly until the allocation counter
      saturates. */
  ghost predicate CountsAgree(h: Heap) {
    h.successfulAllocations < U32_MAX ==> h.successfulAllocations == h.successfulFrees + |Live(h.chain)|
  }

  lemma ApplyKeepsInv(h: Heap, op: Op)
    requires HeapInv(h)
    ensures HeapInv(Apply(h, op))
    ensures Apply(h, op).begin == h.begin && Apply(h, op).end == h.end
    ensures Apply(h, op).highWatermark == Max(h.highWatermark, Apply(h, op).allocatedBytes)
    ensures CountsAgree(h) ==> CountsAgree(Apply(h, op))
  {
    match op
    case AllocOp(size, owner) =>
      AllocKeepsInv(h, size, owner);
      AllocFailsExactly(h, size, owner);
      if Serviceable(h, size, owner) { var i := AllocIsNextFit(h, size, owner); }
    case FreeOp(pointer, owner) =>
      FreeKeepsInv(h, pointer, owner);
      if pointer != 0 { FreeRemovesExactlyThatBlock(h, pointer, owner); }
    case ReleaseOp(owner) =>
      if owner != NO_OWNER { ReleaseKeepsInvAndOthers(h, owner); }
  }

  function Run(h: Heap, ops: seq<Op>): Heap
    requires HeapInv(h)
    decreases |ops|
  {
    if ops == [] then h else ApplyKeepsInv(h, ops[0]); Run(Apply(h, ops[0]), ops[1..])
  }

  /** The largest number of allocated bytes in any state of the run. */
  function Peak(h: Heap, ops: seq<Op>): int
    requires HeapInv(h)
    decreases |ops|
  {
    if ops == [] then h.allocatedBytes
    else ApplyKeepsInv(h, ops[0]); Max(h.allocatedBytes, Peak(Apply(h, ops[0]), ops[1..]))
  }

  lemma {:induction false} RunKeeps(h: Heap, ops: seq<Op>)
    requires HeapInv(h) && CountsAgree(h)
    ensures HeapInv(Run(h, ops)) && CountsAgree(Run(h, ops))
    ensures Run(h, ops).begin == h.begin && Run(h, ops).end == h.end
    ensures Run(h, ops).highWatermark == Max(h.highWatermark, Peak(h, ops))
    decreases |ops|
  {
    if ops != [] {
      ApplyKeepsInv(h, ops[0]);
      RunKeeps(Apply(h, ops[0]), ops[1..]);
    }
  }

  /** In every run from a fresh arena: payload plus one header per block is the
      whole arena; the byte counter is the sum over the allocated blocks; the
      high watermark is the most ever allocated; allocations minus frees is the
      number of allocated blocks; and the list is canonical. */
  lemma HeapIsConserved(arena: u32, size: u32, ops: seq<Op>)
    requires Init(arena, size).Some?
    ensures HeapInv(Init(arena, size).value)
    ensures var h := Run(Init(arena, size).value, ops);
      && HeapInv(h)
      && TotalCapacity(h.chain) + HEADER * |h.chain| == h.end - h.begin
      && h.allocatedBytes == TotalCapacity(Live(h.chain))
      && h.highWatermark == Peak(Init(arena, size).value, ops)
      && (h.successfulAllocations < U32_MAX ==>
            h.successfulAllocations - h.successfulFrees == |Live(h.chain)|)
  {
    InitHolds(arena, size);
    var h0 := Init(arena, size).value;
    LiveOne(h0.chain[0]);
    assert h0.chain == [h0.chain[0]];
    RunKeeps(h0, ops);
    var h := Run(h0, ops);
    TotalIsSpan(h.chain, h.begin, h.end);
    LiveBytesOfLive(h.chain);
    PeakIsAtLeastNow(h0, ops);
  }

  lemma PeakIsAtLeastNow(h: Heap, ops: seq<Op>)
    requires HeapInv(h)
    ensures Peak(h, ops) >= h.allocatedBytes
  {
  }
}
