/** The task-owned next-fit allocator as a state machine on heap values. */
module HeapModel {
  import opened Words
  import opened HeapChain

  const SPLIT_MINIMUM := HEADER + ALIGNMENT

  datatype Heap = Heap(
    begin: nat,
    end: nat,
    chain: seq<Block>,
    nextFit: nat,
    allocatedBytes: int,
    highWatermark: int,
    successfulAllocations: u32,
    successfulFrees: u32,
    failedAllocations: u32,
    invalidFrees: u32)

  /** What every reachable heap satisfies. */
  ghost predicate HeapInv(h: Heap) {
    && 0 < h.begin && h.begin % ALIGNMENT == 0 && h.end % ALIGNMENT == 0 && h.end <= U32_MAX
    && h.chain != [] && Tiles(h.chain, h.begin, h.end)
    && GoodCapacities(h.chain)
    && Canonical(h.chain)
    && HasAddr(h.chain, h.nextFit)
    && h.allocatedBytes == LiveBytes(h.chain) <= h.highWatermark <= h.end
  }

  /** The cursor names a block of the list. */
  ghost predicate HasCursor(h: Heap) {
    HasAddr(h.chain, h.nextFit)
  }

  // ---- Initialisation ----

  function AlignUp(value: u32): u32 {
    if value > U32_MAX - (ALIGNMENT - 1) then U32_MAX
    else (value + (ALIGNMENT - 1)) / ALIGNMENT * ALIGNMENT
  }

  function AlignDown(value: u32): u32 {
    value / ALIGNMENT * ALIGNMENT
  }

  /** The heap over the aligned interior of the arena, or None when the arena
      is null, wraps the address space, or cannot hold one block. */
  function Init(arena: u32, size: u32): Option<Heap> {
    if arena == 0 || size < ALIGNMENT || size > U32_MAX - arena then None
    else
      var begin := AlignUp(arena);
      var end := AlignDown(arena + size);
      if begin < arena || end > arena + size || end <= begin || end - begin < SPLIT_MINIMUM then None
      else
        Some(Heap(begin, end, [Block(begin, end - begin - HEADER, NO_OWNER)], begin, 0, 0, 0, 0, 0, 0))
  }

  lemma InitHolds(arena: u32, size: u32)
    ensures Init(arena, size).Some? ==> HeapInv(Init(arena, size).value)
    ensures Init(arena, size).Some? ==>
              var h := Init(arena, size).value;
              arena <= h.begin < arena + 8 && h.end <= arena + size < h.end + 8
    ensures arena != 0 && size <= U32_MAX - arena && size >= SPLIT_MINIMUM + 2 * ALIGNMENT && arena <= U32_MAX - 7
            ==> Init(arena, size).Some?
  {
    if Init(arena, size).Some? {
      var h := Init(arena, size).value;
      assert h.begin % ALIGNMENT == 0 && h.end % ALIGNMENT == 0;
      assert h.chain[1..] == [];
      assert h.chain[0].addr == h.nextFit;
      assert GoodCapacity(h.chain[0]);
    }
  }

  // ---- Next-fit search ----

  function Fits(b: Block, need: nat): bool {
    IsFree(b) && b.capacity >= need
  }

  function Step(n: nat, at: nat): nat {
    if at + 1 < n then at + 1 else 0
  }

  /** The position d steps round the list from at. */
  function Around(n: nat, at: nat, d: nat): nat
    requires at < n
  {
    if at + d < n then at + d else at + d - n
  }

  /** Examine at most left blocks, starting at position at and wrapping. */
  function Search(c: seq<Block>, need: nat, at: nat, left: nat): (r: Option<nat>)
    requires at < |c| && left <= |c|
    ensures r.Some? ==> r.value < |c| && Fits(c[r.value], need)
    decreases left
  {
    if left == 0 then None
    else if Fits(c[at], need) then Some(at)
    else Search(c, need, Step(|c|, at), left - 1)
  }

  /** The search returns the first fitting block in circular order from its
      start, and fails only when no examined block fits. */
  lemma {:induction false} SearchIsFirstFit(c: seq<Block>, need: nat, at: nat, left: nat)
    requires at < |c| && left <= |c|
    ensures match Search(c, need, at, left)
            case None => forall d :: 0 <= d < left ==> !Fits(c[Around(|c|, at, d)], need)
            case Some(i) =>
              exists d :: && 0 <= d < left && i == Around(|c|, at, d)
                          && forall e :: 0 <= e < d ==> !Fits(c[Around(|c|, at, e)], need)
    decreases left
  {
    var n := |c|;
    if left == 0 {
    } else if Fits(c[at], need) {
      assert Around(n, at, 0) == at;
    } else {
      var next := Step(n, at);
      SearchIsFirstFit(c, need, next, left - 1);
      assert forall d :: 0 <= d < left - 1 ==> Around(n, next, d) == Around(n, at, d + 1);
      assert Around(n, at, 0) == at;
      match Search(c, need, next, left - 1)
      case None =>
        forall d | 0 <= d < left ensures !Fits(c[Around(n, at, d)], need) {
          if d > 0 { assert Around(n, next, d - 1) == Around(n, at, d); }
        }
      case Some(i) =>
        var d :| 0 <= d < left - 1 && i == Around(n, next, d)
                 && forall e :: 0 <= e < d ==> !Fits(c[Around(n, next, e)], need);
        forall e | 0 <= e < d + 1 ensures !Fits(c[Around(n, at, e)], need) {
          if e > 0 { assert Around(n, next, e - 1) == Around(n, at, e); }
        }
        assert i == Around(n, at, d + 1);
    }
  }

  /** A full turn examines every block, so a failed search means that no free
      block of the list has the capacity. */
  lemma FullTurnIsComplete(c: seq<Block>, need: nat, at: nat)
    requires at < |c|
    ensures Search(c, need, at, |c|).None? <==> forall i :: 0 <= i < |c| ==> !Fits(c[i], need)
  {
    SearchIsFirstFit(c, need, at, |c|);
    if Search(c, need, at, |c|).None? {
      forall i | 0 <= i < |c| ensures !Fits(c[i], need) {
        var d := if i >= at then i - at else i + |c| - at;
        assert Around(|c|, at, d) == i;
      }
    }
  }

  /** Position of the block at an address, or the list length. */
  function IndexOf(c: seq<Block>, addr: nat): (r: nat)
    ensures r <= |c|
    ensures r < |c| ==> c[r].addr == addr
    ensures r == |c| <==> !HasAddr(c, addr)
  {
    if c == [] then 0
    else if c[0].addr == addr then 0
    else
      var r := IndexOf(c[1..], addr);
      assert forall i :: 0 < i < |c| ==> c[i] == c[1..][i - 1];
      1 + r
  }

  // ---- Allocation ----

  /** Request size rounded up to the payload alignment; None on overflow. */
  function Rounded(size: u32): Option<u32> {
    if size > U32_MAX - (ALIGNMENT - 1) then None
    else
      var aligned := (size + (ALIGNMENT - 1)) / ALIGNMENT * ALIGNMENT;
      if aligned != 0 then Some(aligned) else None
  }

  predicate Splits(b: Block, need: nat) {
    b.capacity >= need && b.capacity - need >= SPLIT_MINIMUM
  }

  function Head(b: Block, need: nat, owner: u16): Block {
    Block(b.addr, need, owner)
  }

  function Remainder(b: Block, need: nat): Block
    requires Splits(b, need)
  {
    Block(b.addr + HEADER + need, b.capacity - need - HEADER, NO_OWNER)
  }

  /** The list after block i has been given to an owner: split when the rest
      can hold a block of its own, whole otherwise. */
  function Place(c: seq<Block>, i: nat, need: nat, owner: u16): seq<Block>
    requires i < |c| && Fits(c[i], need)
  {
    if Splits(c[i], need) then c[..i] + [Head(c[i], need, owner), Remainder(c[i], need)] + c[i + 1..]
    else c[i := c[i].(owner := owner)]
  }

  function CursorAfter(c: seq<Block>, i: nat, need: nat): nat
    requires i < |c| && Fits(c[i], need)
  {
    if Splits(c[i], need) then Remainder(c[i], need).addr
    else if i + 1 < |c| then c[i + 1].addr
    else c[0].addr
  }

  function Max(a: int, b: int): int {
    if a > b then a else b
  }

  /** The heap after the block at position i has been handed out. */
  function GrantAt(h: Heap, i: nat, need: nat, owner: u16): Heap
    requires i < |h.chain| && Fits(h.chain[i], need)
  {
    var total := h.allocatedBytes + if Splits(h.chain[i], need) then need else h.chain[i].capacity;
    h.(chain := Place(h.chain, i, need, owner),
       nextFit := CursorAfter(h.chain, i, need),
       allocatedBytes := total,
       highWatermark := Max(h.highWatermark, total),
       successfulAllocations := SatInc(h.successfulAllocations))
  }

  /** The new heap and the payload address, 0 standing for NULL. */
  function Alloc(h: Heap, size: u32, owner: u16): (Heap, nat)
    requires HasAddr(h.chain, h.nextFit)
  {
    if size == 0 || owner == NO_OWNER || Rounded(size).None? then
      (h.(failedAllocations := SatInc(h.failedAllocations)), 0)
    else
      var need := Rounded(size).value;
      match Search(h.chain, need, IndexOf(h.chain, h.nextFit), |h.chain|)
      case None => (h.(failedAllocations := SatInc(h.failedAllocations)), 0)
      case Some(i) =>
        (GrantAt(h, i, need, owner), Payload(h.chain[i]))
  }

  // ---- Release ----

  /** The block whose payload starts at the pointer, or the list length. */
  function FindPayload(h: Heap, pointer: nat): (r: nat)
    ensures r <= |h.chain|
  {
    if pointer % ALIGNMENT != 0 || pointer < h.begin + HEADER || pointer >= h.end then |h.chain|
    else IndexOf(h.chain, pointer - HEADER)
  }

  function Freed(b: Block): Block {
    b.(owner := NO_OWNER)
  }

  /** The heap after the live block at position i has been freed. */
  function FreeAt(h: Heap, i: nat): Heap
    requires i < |h.chain|
  {
    var marked := h.chain[i := Freed(h.chain[i])];
    h.(chain := Coalesce(marked),
       nextFit := MovedCursor(marked, h.nextFit),
       allocatedBytes := h.allocatedBytes - h.chain[i].capacity,
       successfulFrees := SatInc(h.successfulFrees))
  }

  function FreeBlock(h: Heap, pointer: nat, owner: u16): (Heap, bool) {
    if pointer == 0 then (h, true)
    else
      var i := FindPayload(h, pointer);
      if owner == NO_OWNER || i == |h.chain| || IsFree(h.chain[i]) || h.chain[i].owner != owner then
        (h.(invalidFrees := SatInc(h.invalidFrees)), false) else
        (FreeAt(h, i), true)
  }

  /** Every block of one owner marked free, in place. */
  function Swept(c: seq<Block>, owner: u16): (r: seq<Block>)
    ensures |r| == |c|
    ensures forall i :: 0 <= i < |c| ==> r[i] == if c[i].owner == owner then Freed(c[i]) else c[i]
  {
    if c == [] then [] else [if c[0].owner == owner then Freed(c[0]) else c[0]] + Swept(c[1..], owner)
  }

  function OwnedCount(c: seq<Block>, owner: u16): (r: nat)
    ensures r <= |c|
    ensures r == 0 <==> forall i :: 0 <= i < |c| ==> c[i].owner != owner
  {
    if c == [] then 0 else (if c[0].owner == owner then 1 else 0) + OwnedCount(c[1..], owner)
  }

  function OwnedBytes(c: seq<Block>, owner: u16): nat {
    if c == [] then 0 else (if c[0].owner == owner then c[0].capacity else 0) + OwnedBytes(c[1..], owner)
  }

  function ReleaseOwner(h: Heap, owner: u16): (Heap, nat) {
    if owner == NO_OWNER then (h, 0)
    else
      var count := OwnedCount(h.chain, owner);
      if count == 0 || h.chain == [] then (h, 0)
      else
        var marked := Swept(h.chain, owner);
        (h.(chain := Coalesce(marked),
            nextFit := h.begin,
            allocatedBytes := h.allocatedBytes - OwnedBytes(h.chain, owner),
            successfulFrees := SatAdd(h.successfulFrees, count)), count)
  }

  // ---- Inspection ----

  /** How many free blocks are too small for a rounded request. */
  function FragmentCount(c: seq<Block>, need: nat): (r: nat)
    ensures r <= |c|
  {
    if c == [] then 0 else (if IsFree(c[0]) && c[0].capacity < need then 1 else 0) + FragmentCount(c[1..], need)
  }

  /** The fragment count is the number of positions that hold a free block too
      small for the request. */
  lemma {:induction false} FragmentsAreCounted(c: seq<Block>, need: nat)
    ensures FragmentCount(c, need) == |set i | 0 <= i < |c| && c[i].owner == 0xFFFF && c[i].capacity < need|
  {
    var here := set i | 0 <= i < |c| && c[i].owner == 0xFFFF && c[i].capacity < need;
    if c == [] {
      assert here == {};
    } else {
      var n := |c| - 1;
      FragmentsAreCounted(c[..n], need);
      CountsExtend(c[..n], c[n], 0, need);
      assert c == c[..n] + [c[n]];
      var before := set i | 0 <= i < n && c[..n][i].owner == 0xFFFF && c[..n][i].capacity < need;
      if IsFree(c[n]) && c[n].capacity < need {
        assert here == before + {n};
      } else {
        assert here == before;
      }
    }
  }

  lemma {:induction false} CountsExtend(c: seq<Block>, b: Block, owner: u16, need: nat)
    ensures OwnedCount(c + [b], owner) == OwnedCount(c, owner) + if b.owner == owner then 1 else 0
    ensures OwnedBytes(c + [b], owner) == OwnedBytes(c, owner) + if b.owner == owner then b.capacity else 0
    ensures FragmentCount(c + [b], need) == FragmentCount(c, need) + if IsFree(b) && b.capacity < need then 1 else 0
    ensures TotalCapacity(c + [b]) == TotalCapacity(c) + b.capacity
    ensures LiveBytes(c + [b]) == LiveBytes(c) + if IsFree(b) then 0 else b.capacity
    ensures |Live(c + [b])| == |Live(c)| + if IsFree(b) then 0 else 1
  {
    if c == [] {
      assert [b][1..] == [] && c + [b] == [b];
    } else {
      CountsExtend(c[1..], b, owner, need);
      assert (c + [b])[1..] == c[1..] + [b] && (c + [b])[0] == c[0];
    }
  }
}
