/** The allocator in the source's own form: headers in memory, linked by
    address, updated in place. Every operation is proved to move the list it
    represents exactly as the heap model says. */
module AllocatorMachine {
  import opened Words
  import opened HeapChain
  import opened HeapModel
  import opened HeapLaws
  import opened HeapImage

  datatype Stats = Stats(
    heapBytes: int,
    payloadCapacity: nat,
    allocatedBytes: int,
    freeBytes: nat,
    largestFree: nat,
    highWatermark: int,
    allocatedBlocks: nat,
    freeBlocks: nat,
    successfulAllocations: u32,
    successfulFrees: u32,
    failedAllocations: u32,
    invalidFrees: u32)

  class Allocator {
    var heapBegin: nat
    var heapEnd: nat
    var firstBlock: nat
    var nextFit: nat
    var allocatedBytes: int
    var highWatermark: int
    var successfulAllocations: u32
    var successfulFrees: u32
    var failedAllocations: u32
    var invalidFrees: u32
    var cookie: Cookie
    var initialized: bool
    var memory: Memory
    ghost var chain: seq<Block>

    ghost function Abs(): Heap
      reads this
    {
      Heap(heapBegin, heapEnd, chain, nextFit, allocatedBytes, highWatermark,
           successfulAllocations, successfulFrees, failedAllocations, invalidFrees)
    }

    predicate CanHold(addr: nat)
      reads this
    {
      addr >= heapBegin && addr % ALIGNMENT == 0 && addr <= heapEnd && heapEnd - addr >= HEADER
    }

    /** Any place that can hold a header can be read as one. */
    ghost predicate Readable()
      reads this
    {
      forall a :: CanHold(a) ==> a in memory
    }

    ghost predicate Valid()
      reads this
    {
      initialized && firstBlock == heapBegin && HeapInv(Abs()) && Represents(memory, chain, cookie) && Readable()
    }

    /** What the self-check is meant to accept: memory holds a true partition
        of the arena that the bookkeeping fields agree with. */
    ghost predicate Accepted(c: seq<Block>)
      reads this
    {
      && initialized && heapBegin != 0 && heapBegin < heapEnd
      && heapBegin % ALIGNMENT == 0 && heapEnd % ALIGNMENT == 0
      && firstBlock == heapBegin && nextFit != 0 && CanHold(nextFit)
      && Tiles(c, heapBegin, heapEnd)
      && (forall i :: 0 <= i < |c| ==> c[i].capacity % ALIGNMENT == 0)
      && Represents(memory, c, cookie)
      && |c| <= (heapEnd - heapBegin) / (HEADER + ALIGNMENT)
      && HasAddr(c, nextFit)
      && LiveBytes(c) == allocatedBytes <= highWatermark
    }

    constructor ()
      ensures !initialized && memory == map[]
    {
      initialized := false;
      memory := map[];
      heapBegin, heapEnd, firstBlock, nextFit, cookie := 0, 0, 0, 0, Cookie(0, 0);
      allocatedBytes, highWatermark := 0, 0;
      successfulAllocations, successfulFrees, failedAllocations, invalidFrees := 0, 0, 0, 0;
      chain := [];
    }

    /** Header i of the walked prefix is in place, its forward link naming the
        block walked next. */
    ghost predicate Linked(built: seq<Block>, block: nat, i: nat)
      reads this
      requires i < |built|
    {
      && built[i].addr in memory
      && memory[built[i].addr]
         == HeaderOf(built, i, cookie).(next := if i + 1 < |built| then built[i + 1].addr else block)
    }

    lemma ExtendLinked(built: seq<Block>, b: Block, block: nat, next: nat)
      requires forall i :: 0 <= i < |built| ==> Linked(built, block, i)
      requires b.addr == block && block in memory
      requires memory[block] == Header(Marker(cookie, block), b.capacity, next,
                                       if built == [] then 0 else built[|built| - 1].addr,
                                       b.owner, if IsFree(b) then 0 else 1, CLEAR)
      ensures forall i :: 0 <= i < |built| + 1 ==> Linked(built + [b], next, i)
    {
      var d := built + [b];
      forall i | 0 <= i < |d| ensures Linked(d, next, i) {
        if i < |built| {
          assert Linked(built, block, i);
          assert d[i] == built[i];
        }
      }
    }

    /** The checks the walk makes on the header at a block: marker, back link,
        flag, reserved bytes, capacity and owner. */
    predicate HeaderSound(block: nat, previous: nat)
      reads this
      requires block in memory
    {
      var h := memory[block];
      && h.marker == Marker(cookie, block) && h.previous == previous && (h.used == 0 || h.used == 1)
      && h.reserved == CLEAR && h.capacity % ALIGNMENT == 0 && h.capacity <= heapEnd - block - HEADER
      && (h.used == 0 ==> h.owner == NO_OWNER) && (h.used != 0 ==> h.owner != NO_OWNER)
    }

    /** The forward link is NULL at the end of the arena and the adjacent
        address before it. */
    predicate NextSound(block: nat)
      reads this
      requires block in memory
    {
      var expected := block + HEADER + memory[block].capacity;
      if expected == heapEnd then memory[block].next == 0
      else CanHold(expected) && memory[block].next == expected
    }

    function BlockAt(block: nat): Block
      reads this
      requires block in memory
    {
      Block(block, memory[block].capacity, memory[block].owner)
    }

    function LastAddr(c: seq<Block>): nat {
      if c == [] then 0 else c[|c| - 1].addr
    }

    /** The blocks walked so far tile the arena up to the next one to visit. */
    ghost predicate Walked(built: seq<Block>, block: nat)
      reads this
    {
      && Tiles(built, heapBegin, if block == 0 then heapEnd else block)
      && (block == 0 ==> built != [])
      && (forall i :: 0 <= i < |built| ==> built[i].capacity % ALIGNMENT == 0)
      && (forall i :: 0 <= i < |built| ==> Linked(built, block, i))
    }

    lemma WalkExtends(built: seq<Block>, block: nat)
      requires Readable() && Walked(built, block) && CanHold(block) && block != 0
      requires HeaderSound(block, LastAddr(built)) && NextSound(block)
      ensures Walked(built + [BlockAt(block)], memory[block].next)
      ensures LiveBytes(built + [BlockAt(block)])
              == LiveBytes(built) + if memory[block].used != 0 then memory[block].capacity else 0
      ensures HasAddr(built + [BlockAt(block)], nextFit) <==> HasAddr(built, nextFit) || block == nextFit
    {
      var b := BlockAt(block);
      ExtendTiling(built, heapBegin, b);
      LiveConcat(built, [b]);
      LiveOne(b);
      ExtendHasAddr(built, b, nextFit);
      ExtendLinked(built, b, block, memory[block].next);
    }

    /** The walk is still on the list w. */
    ghost predicate Follows(w: seq<Block>, built: seq<Block>, block: nat) {
      |built| <= |w| && built == w[..|built|] && block == if |built| < |w| then w[|built|].addr else 0
    }

    lemma FollowingPasses(w: seq<Block>, built: seq<Block>, block: nat)
      requires Readable() && Accepted(w) && Follows(w, built, block) && block != 0
      ensures |built| < (heapEnd - heapBegin) / (HEADER + ALIGNMENT)
      ensures CanHold(block) && HeaderSound(block, LastAddr(built)) && NextSound(block)
      ensures Follows(w, built + [BlockAt(block)], memory[block].next)
    {
      var i := |built|;
      assert Holds(memory, w, cookie, i);
      TilesAt(w, heapBegin, heapEnd, i);
      TilesAlign(w, heapBegin, heapEnd);
      if i + 1 < |w| { TilesAt(w, heapBegin, heapEnd, i + 1); }
      assert w[i] == BlockAt(block);
      assert w[..i + 1] == built + [BlockAt(block)];
    }

    lemma FollowedToTheEnd(w: seq<Block>, built: seq<Block>)
      requires Accepted(w) && Follows(w, built, 0)
      ensures built == w
    {
      if |built| < |w| { TilesAt(w, heapBegin, heapEnd, |built|); }
    }

    /** The self-check accepts every reachable allocator state, its bound on
        the number of blocks included. */
    lemma ReachableIsAccepted()
      requires Valid()
      ensures Accepted(chain)
    {
      TotalIsSpan(chain, heapBegin, heapEnd);
      CapacityFloor(chain);
      forall i | 0 <= i < |chain| ensures chain[i].capacity % ALIGNMENT == 0 {
        assert GoodCapacity(chain[i]);
      }
      var i :| 0 <= i < |chain| && chain[i].addr == nextFit;
      TilesAt(chain, heapBegin, heapEnd, i);
      AddressAligned(chain, heapBegin, heapEnd, i);
    }

    /** The self-check walks the links and accepts exactly the memories that
        hold a true partition. */
    method BlockChainValid() returns (b: bool)
      requires Readable()
      ensures b <==> exists c :: Accepted(c)
      ensures Valid() ==> b
    {
      hide Live, GoodCapacities, Canonical, HeaderSound, NextSound;
      if Valid() { ReachableIsAccepted(); }
      ghost var some := exists c :: Accepted(c);
      ghost var w: seq<Block> := [];
      if some { w :| Accepted(w); }
      if !initialized || heapBegin == 0 || heapEnd == 0 || firstBlock == 0 || nextFit == 0 {
        return false;
      }
      if heapBegin >= heapEnd || heapBegin % ALIGNMENT != 0 || heapEnd % ALIGNMENT != 0
         || firstBlock != heapBegin || !CanHold(nextFit) {
        return false;
      }
      var previous: nat := 0;
      var block: nat := firstBlock;
      var found := false;
      var computed: nat := 0;
      var visited := 0;
      var maximum := (heapEnd - heapBegin) / (HEADER + ALIGNMENT);
      ghost var built: seq<Block> := [];
      while block != 0
        invariant visited == |built| <= maximum
        invariant Walked(built, block)
        invariant previous == LastAddr(built)
        invariant computed == LiveBytes(built)
        invariant found <==> HasAddr(built, nextFit)
        invariant some ==> Follows(w, built, block)
        decreases maximum - visited, block
      {
        if some { FollowingPasses(w, built, block); }
        visited := visited + 1;
        if visited > maximum || !CanHold(block) || !HeaderSound(block, previous) || !NextSound(block) {
          return false;
        }
        WalkExtends(built, block);
        if memory[block].used != 0 {
          computed := computed + memory[block].capacity;
        }
        if block == nextFit {
          found := true;
        }
        built := built + [BlockAt(block)];
        previous := block;
        block := memory[block].next;
      }
      b := found && computed == allocatedBytes && highWatermark >= allocatedBytes;
      WalkEnds(built);
      if b { assert Accepted(built); }
      if some { FollowedToTheEnd(w, built); }
    }

    lemma WalkEnds(built: seq<Block>)
      requires Walked(built, 0)
      ensures Represents(memory, built, cookie)
    {
      forall i | 0 <= i < |built| ensures Holds(memory, built, cookie, i) {
        assert Linked(built, 0, i);
      }
    }

    /** Lay one free block over the aligned interior of an arena whose bytes
        read as `contents` beforehand. */
    method Init(arena: u32, size: u32, contents: Memory) returns (ok: bool)
      requires forall a :: arena <= a && a + HEADER <= arena + size && a % ALIGNMENT == 0 ==> a in contents
      modifies this
      ensures ok == HeapModel.Init(arena, size).Some?
      ensures !ok ==> !initialized
      ensures ok ==> Valid() && Abs() == HeapModel.Init(arena, size).value
    {
      initialized := false;
      heapBegin, heapEnd, firstBlock, nextFit, cookie := 0, 0, 0, 0, Cookie(0, 0);
      allocatedBytes, highWatermark := 0, 0;
      successfulAllocations, successfulFrees, failedAllocations, invalidFrees := 0, 0, 0, 0;
      if arena == 0 || size < ALIGNMENT || size > U32_MAX - arena { return false; }
      var begin := AlignUp(arena);
      var end := AlignDown(arena + size);
      if begin < arena || end > arena + size || end <= begin || end - begin < SPLIT_MINIMUM { return false; }
      InitHolds(arena, size);
      LayFirstBlock(begin, end, contents, HeapModel.Init(arena, size).value);
      ok := BlockChainValid();
    }

    method LayFirstBlock(begin: nat, end: nat, contents: Memory, ghost h: Heap)
      requires HeapInv(h) && h == Heap(begin, end, [h.chain[0]], begin, 0, 0, 0, 0, 0, 0)
      requires h.chain[0] == Block(begin, h.chain[0].capacity, NO_OWNER) && begin + HEADER + h.chain[0].capacity == end
      requires forall a :: begin <= a && a + HEADER <= end && a % ALIGNMENT == 0 ==> a in contents
      requires allocatedBytes == 0 && highWatermark == 0
      requires successfulAllocations == successfulFrees == failedAllocations == invalidFrees == 0
      modifies this
      ensures Valid() && Abs() == h
    {
      hide HeapInv;
      heapBegin, heapEnd := begin, end;
      cookie := Cookie(begin, end);
      memory := contents[begin := Header(Marker(cookie, begin), end - begin - HEADER, 0, 0, NO_OWNER, 0, CLEAR)];
      firstBlock, nextFit := begin, begin;
      initialized := true;
      chain := h.chain;
      assert Holds(memory, chain, cookie, 0);
    }

    method Validate() returns (b: bool)
      requires Readable()
      ensures b <==> exists c :: Accepted(c)
      ensures Valid() ==> b
    {
      b := BlockChainValid();
    }

    /** Position of a listed address, as a ghost of the pointer. */
    lemma PositionIsUnique(i: nat)
      requires Valid() && i < |chain|
      ensures IndexOf(chain, chain[i].addr) == i
    {
      TilingAscends(chain, heapBegin, heapEnd);
      var j := IndexOf(chain, chain[i].addr);
      assert chain[j].addr == chain[i].addr;
    }

    method Refuse() returns (p: nat)
      requires Valid()
      modifies this`failedAllocations
      ensures p == 0 && Valid() && Abs() == old(Abs()).(failedAllocations := SatInc(old(failedAllocations)))
    {
      failedAllocations := SatInc(failedAllocations);
      p := 0;
    }

    method Alloc(size: u32, owner: u16) returns (p: nat)
      requires initialized ==> Valid()
      modifies this
      ensures !old(initialized) ==> p == 0 && !initialized
      ensures old(initialized) ==> Valid() && (Abs(), p) == HeapModel.Alloc(old(Abs()), size, owner)
    {
      if !initialized { return 0; }
      var sound := BlockChainValid();
      if !sound || size == 0 || owner == NO_OWNER {
        p := Refuse();
        return;
      }
      var aligned := Rounded(size);
      if aligned.None? {
        p := Refuse();
        return;
      }
      ghost var target := Search(chain, aligned.value, IndexOf(chain, nextFit), |chain|);
      var block := FindFit(aligned.value);
      if block == 0 {
        p := Refuse();
      } else {
        p := Grant(block, aligned.value, owner, target.value);
      }
    }

    /** Walk the list once round from the cursor, looking for a free block with
        the capacity. */
    method FindFit(need: nat) returns (found: nat)
      requires Valid()
      ensures match Search(chain, need, IndexOf(chain, nextFit), |chain|)
              case None => found == 0
              case Some(i) => found != 0 && found == chain[i].addr
    {
      var start: nat := nextFit;
      var block: nat := start;
      ghost var at0: nat := IndexOf(chain, nextFit);
      ghost var at: nat := at0;
      ghost var left: nat := |chain|;
      while true
        invariant 0 < left <= |chain| && at < |chain|
        invariant block == chain[at].addr
        invariant at == Around(|chain|, at0, |chain| - left)
        invariant Search(chain, need, at, left) == Search(chain, need, at0, |chain|)
        decreases left
      {
        assert Holds(memory, chain, cookie, at);
        TilesAt(chain, heapBegin, heapEnd, at);
        if memory[block].used == 0 && memory[block].capacity >= need {
          return block;
        }
        if at + 1 < |chain| { TilesAt(chain, heapBegin, heapEnd, at + 1); }
        block := if memory[block].next != 0 then memory[block].next else firstBlock;
        at := Step(|chain|, at);
        left := left - 1;
        PositionIsUnique(at);
        if block == start {
          return 0;
        }
      }
    }

    /** The body of the search loop once a block fits. */
    method Grant(block: nat, need: nat, owner: u16, ghost i: nat) returns (p: nat)
      requires Valid() && owner != NO_OWNER && need % ALIGNMENT == 0 && need >= ALIGNMENT
      requires i < |chain| && block == chain[i].addr && Fits(chain[i], need)
      modifies this
      ensures Valid() && p == block + HEADER
      ensures Abs() == GrantAt(old(Abs()), i, need, owner)
    {
      hide Tiles, GoodCapacities, Canonical, Live, LiveBytes, HasAddr;
      ghost var h := Abs();
      GrantKeepsInv(h, i, need, owner);
      Settle(block, need, owner, i);
      allocatedBytes := allocatedBytes + memory[block].capacity;
      if allocatedBytes > highWatermark {
        highWatermark := allocatedBytes;
      }
      successfulAllocations := SatInc(successfulAllocations);
      assert Abs() == GrantAt(h, i, need, owner);
      var sound := BlockChainValid();
      return if sound then block + HEADER else 0;
    }

    /** Give the block at position i to an owner, splitting it when its tail is
        big enough, and advance the cursor. */
    method Settle(block: nat, need: nat, owner: u16, ghost i: nat)
      requires Valid() && owner != NO_OWNER && need % ALIGNMENT == 0 && need >= ALIGNMENT
      requires i < |chain| && block == chain[i].addr && Fits(chain[i], need)
      modifies this`memory, this`chain, this`nextFit
      ensures chain == Place(old(chain), i, need, owner) && nextFit == CursorAfter(old(chain), i, need)
      ensures Represents(memory, chain, cookie) && Readable()
      ensures block in memory
      ensures memory[block].capacity == Granted(old(chain), i, need, owner).capacity
    {
      hide GoodCapacities, Canonical, LiveBytes, HasAddr;
      ghost var c := chain;
      PlaceTiles(c, heapBegin, heapEnd, i, need, owner);
      TilesAt(c, heapBegin, heapEnd, i);
      TilingAscends(c, heapBegin, heapEnd);
      assert Holds(memory, c, cookie, i);
      if memory[block].capacity - need >= SPLIT_MINIMUM {
        TilingAscends(Place(c, i, need, owner), heapBegin, heapEnd);
        SplitThenTag(c, i, need, owner);
        nextFit := Carve(block, need, i);
      } else {
        if i + 1 < |c| { TilesAt(c, heapBegin, heapEnd, i + 1); }
        nextFit := if memory[block].next != 0 then memory[block].next else firstBlock;
      }
      RetaggedIsHeld(memory, chain, cookie, i, owner);
      memory := memory[block := memory[block].(used := 1, owner := owner)];
      chain := chain[i := chain[i].(owner := owner)];
      assert Holds(memory, chain, cookie, i);
    }

    /** Split the free tail off a block and link it in. */
    method Carve(block: nat, need: nat, ghost i: nat) returns (split: nat)
      requires i < |chain| && block == chain[i].addr && block != 0 && IsFree(chain[i]) && Splits(chain[i], need)
      requires Represents(memory, chain, cookie) && Ascending(SplitAt(chain, i, need)) && Readable()
      modifies this`memory, this`chain
      ensures chain == SplitAt(old(chain), i, need) && Represents(memory, chain, cookie) && Readable()
      ensures split == Remainder(old(chain)[i], need).addr
    {
      ghost var c, before := chain, memory;
      SplitIsHeld(memory, c, cookie, i, need);
      split := block + HEADER + need;
      var remainder := memory[block].capacity - need;
      memory := memory[split := Header(Marker(cookie, split), remainder - HEADER, memory[block].next, block,
                                       NO_OWNER, 0, CLEAR)];
      if memory[block].next != 0 {
        var following := memory[block].next;
        memory := memory[following := memory[following].(previous := split)];
      }
      memory := memory[block := memory[block].(capacity := need, next := split)];
      ghost var d := SplitAt(c, i, need);
      assert d[i] == Head(c[i], need, c[i].owner) && d[i + 1] == Remainder(c[i], need);
      if i + 1 < |c| { assert d[i + 2] == c[i + 1]; }
      assert memory == SplitMemory(before, c, cookie, i, need);
      chain := d;
    }

    /** Address of the block whose payload starts at the pointer, or 0. */
    method FindPayloadBlock(pointer: nat) returns (found: nat)
      requires Valid()
      ensures var i := FindPayload(Abs(), pointer);
        if i < |chain| then found != 0 && found == chain[i].addr else found == 0
    {
      if pointer % ALIGNMENT != 0 || pointer < heapBegin + HEADER || pointer >= heapEnd { return 0; }
      var block: nat := firstBlock;
      ghost var i: nat := 0;
      while block != 0
        invariant i <= |chain| && block == if i < |chain| then chain[i].addr else 0
        invariant forall k :: 0 <= k < i ==> Payload(chain[k]) != pointer
        decreases |chain| - i
      {
        assert Holds(memory, chain, cookie, i);
        if block + HEADER == pointer {
          PositionIsUnique(i);
          return block;
        }
        if i + 1 < |chain| { TilesAt(chain, heapBegin, heapEnd, i + 1); }
        block := memory[block].next;
        i := i + 1;
      }
      if i < |chain| { TilesAt(chain, heapBegin, heapEnd, i); }
      var none := IndexOf(chain, pointer - HEADER);
      return 0;
    }

    method Free(pointer: nat, owner: u16) returns (ok: bool)
      requires initialized ==> Valid()
      modifies this
      ensures !old(initialized) ==> !ok && !initialized
      ensures old(initialized) ==> Valid() && (Abs(), ok) == FreeBlock(old(Abs()), pointer, owner)
    {
      if !initialized { return false; }
      if pointer == 0 { return true; }
      var sound := BlockChainValid();
      if !sound || owner == NO_OWNER {
        invalidFrees := SatInc(invalidFrees);
        return false;
      }
      var block := FindPayloadBlock(pointer);
      ghost var i := FindPayload(Abs(), pointer);
      assert block != 0 ==> Holds(memory, chain, cookie, i);
      if block == 0 || memory[block].used == 0 || memory[block].owner != owner {
        invalidFrees := SatInc(invalidFrees);
        return false;
      }
      ok := FreeFound(block, i, owner);
    }

    method FreeFound(block: nat, ghost i: nat, owner: u16) returns (ok: bool)
      requires Valid() && i < |chain| && block == chain[i].addr && chain[i].owner == owner != NO_OWNER
      modifies this
      ensures Valid() && ok
      ensures Abs() == FreeAt(old(Abs()), i)
    {
      hide Canonical, LiveBytes;
      ghost var h := Abs();
      FreeAtKeepsInv(h, i);
      assert Holds(memory, chain, cookie, i);
      allocatedBytes := allocatedBytes - memory[block].capacity;
      SetFree(block, i);
      CoalesceAll();
      successfulFrees := SatInc(successfulFrees);
      assert Abs() == FreeAt(h, i);
      ok := BlockChainValid();
    }

    /** Mark one block free in place. */
    method SetFree(block: nat, ghost i: nat)
      requires Tiled() && GoodCapacities(chain) && i < |chain| && block == chain[i].addr
      modifies this`memory, this`chain
      ensures Tiled() && GoodCapacities(chain) && chain == old(chain)[i := Freed(old(chain)[i])]
    {
      TilingAscends(chain, heapBegin, heapEnd);
      RetaggedIsHeld(memory, chain, cookie, i, NO_OWNER);
      FreedKeepsTiling(chain, heapBegin, heapEnd, i);
      memory := memory[block := memory[block].(owner := NO_OWNER, used := 0, reserved := CLEAR)];
      chain := chain[i := Freed(chain[i])];
    }

    /** A held tiling, canonical or not: what the list is between marking and
        coalescing. */
    ghost predicate Tiled()
      reads this
    {
      && heapBegin > 0 && firstBlock == heapBegin && chain != [] && Tiles(chain, heapBegin, heapEnd)
      && Represents(memory, chain, cookie) && Readable()
    }

    /** Merge every run of free neighbours, one left-to-right pass. */
    method CoalesceAll()
      requires Tiled()
      modifies this`memory, this`chain, this`nextFit
      ensures Tiled()
      ensures chain == Coalesce(old(chain)) && nextFit == MovedCursor(old(chain), old(nextFit))
    {
      hide LiveBytes, Canonical, GoodCapacities, Coalesce, MovedCursor, Tiles;
      var block: nat := firstBlock;
      ghost var i: nat := 0;
      assert chain[0..] == chain;
      ForwardLink(0);
      FirstIsBegin();
      while block != 0 && memory[block].next != 0
        invariant Tiled() && i < |chain| && block == chain[i].addr && block in memory
        invariant memory[block].next == NextOf(chain, i) && (NextOf(chain, i) == 0 <==> i + 1 == |chain|)
        invariant block != 0
        invariant chain[..i] + Coalesce(chain[i..]) == Coalesce(old(chain))
        invariant MovedCursor(chain[i..], nextFit) == MovedCursor(old(chain), old(nextFit))
        decreases |chain| - i
      {
        ForwardLink(i + 1);
        assert Holds(memory, chain, cookie, i) && Holds(memory, chain, cookie, i + 1);
        var next := memory[block].next;
        if memory[block].used == 0 && memory[next].used == 0 {
          PassMerge(chain, i, nextFit);
          MergeWithNext(block, i);
        } else {
          PassOver(chain, i, nextFit);
          block := next;
          i := i + 1;
        }
        ForwardLink(i);
      }
      PassDone(chain, i, nextFit);
    }

    lemma FirstIsBegin()
      requires Tiled()
      ensures chain[0].addr == firstBlock
    {
    }

    /** The forward link of the block in position i, NULL only at the end. */
    lemma ForwardLink(i: nat)
      requires Tiled() && i < |chain|
      ensures chain[i].addr != 0 && chain[i].addr in memory
      ensures memory[chain[i].addr].next == NextOf(chain, i)
      ensures NextOf(chain, i) == 0 <==> i + 1 == |chain|
    {
      assert Holds(memory, chain, cookie, i);
      TilesAt(chain, heapBegin, heapEnd, i);
      if i + 1 < |chain| { TilesAt(chain, heapBegin, heapEnd, i + 1); }
    }

    /** Absorb the free block after a free block; a cursor on it moves back. */
    method MergeWithNext(block: nat, ghost i: nat)
      requires Tiled() && i + 1 < |chain| && block == chain[i].addr
      requires IsFree(chain[i]) && IsFree(chain[i + 1])
      modifies this`memory, this`chain, this`nextFit
      ensures Tiled() && chain == MergedAt(old(chain), i) && block in memory
      ensures nextFit == if old(nextFit) == old(chain)[i + 1].addr then block else old(nextFit)
    {
      ghost var c, before := chain, memory;
      TilingAscends(c, heapBegin, heapEnd);
      MergedIsHeld(memory, c, cookie, i);
      MergedTiles(c, heapBegin, heapEnd, i);
      assert Holds(memory, c, cookie, i) && Holds(memory, c, cookie, i + 1);
      var removed := memory[block].next;
      if nextFit == removed {
        nextFit := block;
      }
      memory := memory[block := memory[block].(capacity := memory[block].capacity + HEADER + memory[removed].capacity,
                                               next := memory[removed].next)];
      if memory[block].next != 0 {
        if i + 2 < |c| { TilesAt(c, heapBegin, heapEnd, i + 2); }
        var following := memory[block].next;
        memory := memory[following := memory[following].(previous := block)];
      }
      if i + 2 < |c| { TilesAt(c, heapBegin, heapEnd, i + 2); }
      assert memory == MergedMemory(before, c, i);
      chain := MergedAt(c, i);
    }

    /** Free every block of an owner: mark them in one walk, then coalesce
        once and restart the cursor. */
    method ReleaseOwner(owner: u16) returns (released: int)
      requires initialized ==> Valid()
      modifies this
      ensures !old(initialized) ==> released == 0 && !initialized
      ensures old(initialized) ==> Valid() && (Abs(), released) == HeapModel.ReleaseOwner(old(Abs()), owner)
    {
      hide Tiles, Canonical, Live, LiveBytes, GoodCapacities, HasAddr, Coalesce, MovedCursor, Swept;
      released := 0;
      if !initialized || owner == NO_OWNER { return; }
      var sound := BlockChainValid();
      if !sound { return; }
      ghost var h := Abs();
      ReleaseKeepsInvAndOthers(h, owner);
      SweepOfNothing(chain, owner);
      released := MarkOwned(owner);
      if released != 0 {
        CoalesceAll();
        nextFit := firstBlock;
        assert Abs() == HeapModel.ReleaseOwner(h, owner).0;
      } else {
        assert Abs() == h;
      }
      sound := BlockChainValid();
      released := if sound then released else 0;
    }

    method MarkOwned(owner: u16) returns (released: nat)
      requires Valid() && owner != NO_OWNER
      modifies this`memory, this`chain, this`allocatedBytes, this`successfulFrees
      ensures Tiled() && released == OwnedCount(old(chain), owner)
      ensures chain == Swept(old(chain), owner)
      ensures allocatedBytes == old(allocatedBytes) - OwnedBytes(old(chain), owner)
      ensures successfulFrees == SatAdd(old(successfulFrees), released)
    {
      hide Live, LiveBytes, Canonical, HasAddr, OwnedCount, OwnedBytes, Swept;
      ghost var c := chain;
      var block: nat := firstBlock;
      ghost var i: nat := 0;
      released := 0;
      NothingCounted(c, owner);
      FirstIsBegin();
      while block != 0
        invariant Tiled() && GoodCapacities(chain) && MarkedTo(c, chain, i, owner)
        invariant block == if i < |c| then chain[i].addr else 0
        invariant released == OwnedCount(c[..i], owner)
        invariant allocatedBytes == old(allocatedBytes) - OwnedBytes(c[..i], owner)
        invariant successfulFrees == SatAdd(old(successfulFrees), released)
        decreases |c| - i
      {
        assert Holds(memory, chain, cookie, i);
        ForwardLink(i);
        MarkStep(c, chain, i, owner);
        if memory[block].used != 0 && memory[block].owner == owner {
          allocatedBytes := allocatedBytes - memory[block].capacity;
          SetFree(block, i);
          successfulFrees := SatInc(successfulFrees);
          released := released + 1;
          ForwardLink(i);
        }
        block := memory[block].next;
        i := i + 1;
      }
      if i < |c| { ForwardLink(i); }
      assert c[..i] == c;
      SweptIsMarked(c, chain, owner);
    }

    /** The statistics snapshot: every byte of the arena is payload or header,
        and the block and byte totals are those of the list. */
    method GetStats() returns (r: Option<Stats>)
      requires initialized ==> Valid()
      ensures r.Some? <==> initialized
      ensures r.Some? ==>
        var s := r.value;
        && s.heapBytes == heapEnd - heapBegin == s.payloadCapacity + HEADER * (s.allocatedBlocks + s.freeBlocks)
        && s.payloadCapacity == s.allocatedBytes + s.freeBytes
        && s.allocatedBlocks == |Live(chain)| && s.allocatedBlocks + s.freeBlocks == |chain|
        && s.allocatedBytes == TotalCapacity(Live(chain)) <= s.highWatermark == highWatermark
        && LargestFree(chain, s.largestFree, s.freeBlocks)
        && s.successfulAllocations == successfulAllocations && s.successfulFrees == successfulFrees
        && s.failedAllocations == failedAllocations && s.invalidFrees == invalidFrees
    {
      hide Tiles, Canonical, GoodCapacities, HasAddr, TalliedTo, Live, LiveBytes, TotalCapacity, LargestFree;
      if !initialized { return None; }
      var sound := BlockChainValid();
      if !sound { return None; }
      var payload: nat, liveBlocks: nat, freeBlocks: nat, freeBytes: nat, largest: nat := 0, 0, 0, 0, 0;
      var block: nat := firstBlock;
      ghost var i: nat := 0;
      NothingTallied(chain);
      FirstIsBegin();
      while block != 0
        invariant i <= |chain| && block == if i < |chain| then chain[i].addr else 0
        invariant TalliedTo(chain, i, payload, liveBlocks, freeBlocks, freeBytes, largest)
        decreases |chain| - i
      {
        assert Holds(memory, chain, cookie, i);
        ForwardLink(i);
        TallyStep(chain, i, payload, liveBlocks, freeBlocks, freeBytes, largest);
        payload := payload + memory[block].capacity;
        if memory[block].used != 0 {
          liveBlocks := liveBlocks + 1;
        } else {
          freeBlocks := freeBlocks + 1;
          freeBytes := freeBytes + memory[block].capacity;
          if memory[block].capacity > largest {
            largest := memory[block].capacity;
          }
        }
        block := memory[block].next;
        i := i + 1;
      }
      if i < |chain| { ForwardLink(i); }
      TallyDone(chain, payload, liveBlocks, freeBlocks, freeBytes, largest);
      TotalIsSpan(chain, heapBegin, heapEnd);
      LiveBytesOfLive(chain);
      r := Some(Stats(heapEnd - heapBegin, payload, allocatedBytes, freeBytes, largest, highWatermark,
                      liveBlocks, freeBlocks, successfulAllocations, successfulFrees, failedAllocations, invalidFrees));
    }

    /** The number of free blocks smaller than the rounded request; none for a
        void or overflowing request. */
    method CountFragments(size: u32) returns (count: nat)
      requires initialized ==> Valid()
      ensures count == if initialized && size != 0 && Rounded(size).Some?
                       then FragmentCount(chain, Rounded(size).value) else 0
    {
      hide Tiles, Canonical, GoodCapacities, HasAddr, LiveBytes, Live;
      count := 0;
      var aligned := Rounded(size);
      if !initialized || size == 0 || aligned.None? { return; }
      var sound := BlockChainValid();
      if !sound { return; }
      var block: nat := firstBlock;
      ghost var i: nat := 0;
      FirstIsBegin();
      while block != 0
        invariant i <= |chain| && block == if i < |chain| then chain[i].addr else 0
        invariant count == FragmentCount(chain[..i], aligned.value)
        decreases |chain| - i
      {
        assert Holds(memory, chain, cookie, i);
        CountsExtend(chain[..i], chain[i], 0, aligned.value);
        assert chain[..i + 1] == chain[..i] + [chain[i]];
        ForwardLink(i);
        if memory[block].used == 0 && memory[block].capacity < aligned.value {
          count := count + 1;
        }
        block := memory[block].next;
        i := i + 1;
      }
      if i < |chain| { ForwardLink(i); }
      assert chain[..i] == chain;
    }
  }

  /** The largest capacity among the free blocks, 0 when there is none. */
  ghost predicate LargestFree(c: seq<Block>, largest: nat, freeBlocks: nat) {
    && (forall k :: 0 <= k < |c| && IsFree(c[k]) ==> c[k].capacity <= largest)
    && (if freeBlocks > 0 then exists k :: 0 <= k < |c| && IsFree(c[k]) && c[k].capacity == largest else largest == 0)
  }

  lemma NothingTallied(c: seq<Block>)
    ensures TalliedTo(c, 0, 0, 0, 0, 0, 0)
  {
    assert c[..0] == [];
  }

  lemma TallyDone(c: seq<Block>, payload: nat, live: nat, freeBlocks: nat, freeBytes: nat, largest: nat)
    requires TalliedTo(c, |c|, payload, live, freeBlocks, freeBytes, largest)
    ensures payload == TotalCapacity(c) == LiveBytes(c) + freeBytes
    ensures live == |Live(c)| && live + freeBlocks == |c| && LargestFree(c, largest, freeBlocks)
  {
    assert c[..|c|] == c;
  }

  lemma NothingCounted(c: seq<Block>, owner: u16)
    ensures OwnedCount(c[..0], owner) == 0 && OwnedBytes(c[..0], owner) == 0
  {
  }

  lemma {:induction false} SweepOfNothing(c: seq<Block>, owner: u16)
    requires owner != NO_OWNER
    ensures OwnedCount(c, owner) == 0 ==> Swept(c, owner) == c && OwnedBytes(c, owner) == 0
  {
    if c != [] {
      SweepOfNothing(c[1..], owner);
    }
  }

  lemma SweptIsMarked(c: seq<Block>, d: seq<Block>, owner: u16)
    requires MarkedTo(c, d, |c|, owner)
    ensures d == Swept(c, owner)
  {
  }

  lemma MergedTiles(c: seq<Block>, begin: nat, end: nat, i: nat)
    requires Tiles(c, begin, end) && i + 1 < |c|
    ensures Tiles(MergedAt(c, i), begin, end)
  {
    TilesSplit(c, begin, end, i);
    TilesAt(c, begin, end, i);
    var m := [Merged(c[i], c[i + 1])];
    assert m[1..] == [];
    assert c[i + 1..][1..] == c[i + 2..];
    TilesConcat(c[..i], m, begin, c[i].addr, After(c[i + 1]));
    TilesConcat(c[..i] + m, c[i + 2..], begin, After(c[i + 1]), end);
  }

  lemma SplitThenTag(c: seq<Block>, i: nat, need: nat, owner: u16)
    requires i < |c| && Fits(c[i], need) && Splits(c[i], need)
    ensures SplitAt(c, i, need)[i := SplitAt(c, i, need)[i].(owner := owner)] == Place(c, i, need, owner)
    ensures Ascending(Place(c, i, need, owner)) ==> Ascending(SplitAt(c, i, need))
  {
    var d, p := SplitAt(c, i, need), Place(c, i, need, owner);
    assert forall j :: 0 <= j < |d| ==> d[j].addr == p[j].addr;
  }

  lemma {:induction false} CapacityFloor(c: seq<Block>)
    requires GoodCapacities(c)
    ensures TotalCapacity(c) >= ALIGNMENT * |c|
  {
    if c != [] {
      assert GoodCapacity(c[0]);
      CapacityFloor(c[1..]);
    }
  }

  lemma TilesAlign(c: seq<Block>, begin: nat, end: nat)
    requires Tiles(c, begin, end) && begin % ALIGNMENT == 0
    requires forall k :: 0 <= k < |c| ==> c[k].capacity % ALIGNMENT == 0
    ensures forall i :: 0 <= i < |c| ==> c[i].addr % ALIGNMENT == 0
  {
    forall i | 0 <= i < |c| ensures c[i].addr % ALIGNMENT == 0 {
      AddressAligned(c, begin, end, i);
    }
  }

  lemma ExtendTiling(c: seq<Block>, begin: nat, b: Block)
    requires Tiles(c, begin, b.addr)
    ensures Tiles(c + [b], begin, After(b))
  {
    assert [b][1..] == [];
    TilesConcat(c, [b], begin, b.addr, After(b));
  }

  lemma ExtendHasAddr(c: seq<Block>, b: Block, addr: nat)
    ensures HasAddr(c + [b], addr) <==> HasAddr(c, addr) || b.addr == addr
  {
    var d := c + [b];
    if HasAddr(c, addr) {
      var i :| 0 <= i < |c| && c[i].addr == addr;
      assert d[i].addr == addr;
    }
    if b.addr == addr { assert d[|c|].addr == addr; }
    if HasAddr(d, addr) {
      var i :| 0 <= i < |d| && d[i].addr == addr;
      assert i < |c| ==> c[i].addr == addr;
    }
  }
}
