/** What the allocator guarantees: the block list stays a canonical tiling of
    the arena, allocation is a complete next-fit search that a free undoes, and
    the owner sweep equals freeing the owner's blocks one by one. */
module HeapLaws {
  import opened Words
  import opened HeapChain
  import opened HeapModel

  // ---- Allocation ----

  lemma PlaceTiles(c: seq<Block>, begin: nat, end: nat, i: nat, need: nat, owner: u16)
    requires Tiles(c, begin, end) && GoodCapacities(c) && i < |c| && Fits(c[i], need)
    requires need % ALIGNMENT == 0 && need >= ALIGNMENT
    ensures Tiles(Place(c, i, need, owner), begin, end)
    ensures GoodCapacities(Place(c, i, need, owner))
    ensures HasAddr(Place(c, i, need, owner), CursorAfter(c, i, need))
  {
    var p := Place(c, i, need, owner);
    TilesSplit(c, begin, end, i);
    PlaceCapacities(c, i, need, owner);
    if Splits(c[i], need) {
      var middle := [Head(c[i], need, owner), Remainder(c[i], need)];
      assert middle[1..] == [Remainder(c[i], need)];
      assert middle[1..][1..] == [];
      assert After(middle[0]) == middle[1].addr && After(middle[1]) == After(c[i]);
      assert Tiles(middle[1..][1..], After(c[i]), After(c[i]));
      assert Tiles(middle[1..], middle[1].addr, After(c[i]));
      assert Tiles(middle, c[i].addr, After(c[i]));
      TilesConcat(c[..i], middle, begin, c[i].addr, After(c[i]));
      TilesConcat(c[..i] + middle, c[i + 1..], begin, After(c[i]), end);
      assert p[i + 1] == Remainder(c[i], need);
    } else {
      var whole := [c[i].(owner := owner)];
      assert whole[1..] == [];
      TilesConcat(c[..i], whole, begin, c[i].addr, After(c[i]));
      TilesConcat(c[..i] + whole, c[i + 1..], begin, After(c[i]), end);
      assert p == c[..i] + whole + c[i + 1..];
      assert p[if i + 1 < |c| then i + 1 else 0].addr == CursorAfter(c, i, need);
    }
  }

  lemma PlaceCapacities(c: seq<Block>, i: nat, need: nat, owner: u16)
    requires GoodCapacities(c) && i < |c| && Fits(c[i], need)
    requires need % ALIGNMENT == 0 && need >= ALIGNMENT
    ensures GoodCapacities(Place(c, i, need, owner))
  {
    var p := Place(c, i, need, owner);
    assert GoodCapacity(c[i]);
    forall k | 0 <= k < |p| ensures GoodCapacity(p[k]) {
      if k < i {
        assert GoodCapacity(c[k]);
      } else if k > i + (|p| - |c|) {
        assert p[k] == c[k - (|p| - |c|)] && GoodCapacity(c[k - (|p| - |c|)]);
      }
    }
  }

  lemma PlaceIsCanonical(c: seq<Block>, i: nat, need: nat, owner: u16)
    requires Canonical(c) && i < |c| && Fits(c[i], need) && owner != NO_OWNER
    ensures Canonical(Place(c, i, need, owner))
  {
    var p := Place(c, i, need, owner);
    forall k {:trigger p[k]} | 0 <= k < |p| - 1 ensures !(IsFree(p[k]) && IsFree(p[k + 1])) {
      if Splits(c[i], need) {
        if k < i - 1 {
          assert p[k] == c[k] && p[k + 1] == c[k + 1];
        } else if k == i + 1 {
          assert p[k + 1] == c[i + 1];
          assert !(IsFree(c[i]) && IsFree(c[i + 1]));
        } else if k > i + 1 {
          assert p[k] == c[k - 1] && p[k + 1] == c[k - 1 + 1];
        }
      } else if k != i && k + 1 != i {
        assert p[k] == c[k] && p[k + 1] == c[k + 1];
      }
    }
  }

  /** The block handed out when position i is placed. */
  function Granted(c: seq<Block>, i: nat, need: nat, owner: u16): Block
    requires i < |c|
  {
    if Splits(c[i], need) then Head(c[i], need, owner) else c[i].(owner := owner)
  }

  lemma PlaceAddsOneLive(c: seq<Block>, i: nat, need: nat, owner: u16)
    requires i < |c| && Fits(c[i], need) && owner != NO_OWNER
    ensures Live(Place(c, i, need, owner)) == Live(c[..i]) + [Granted(c, i, need, owner)] + Live(c[i + 1..])
    ensures LiveBytes(Place(c, i, need, owner)) == LiveBytes(c) + Granted(c, i, need, owner).capacity
    ensures Live(c) == Live(c[..i]) + Live(c[i + 1..])
  {
    var g := Granted(c, i, need, owner);
    FreeSpot(c, i);
    LiveOne(g);
    if Splits(c[i], need) {
      var r := Remainder(c[i], need);
      LiveOne(r);
      LiveConcat([g], [r]);
      assert [g] + [r] == [g, r];
      assert Live([g, r]) == [g] && LiveBytes([g, r]) == g.capacity;
      LiveConcat(c[..i], [g, r]);
      LiveConcat(c[..i] + [g, r], c[i + 1..]);
    } else {
      LiveAround(c, i, g);
    }
  }

  lemma LiveOne(b: Block)
    ensures Live([b]) == (if IsFree(b) then [] else [b])
    ensures LiveBytes([b]) == (if IsFree(b) then 0 else b.capacity)
  {
    assert [b][1..] == [];
  }

  lemma FreeSpot(c: seq<Block>, i: nat)
    requires i < |c| && IsFree(c[i])
    ensures Live(c) == Live(c[..i]) + Live(c[i + 1..])
    ensures LiveBytes(c) == LiveBytes(c[..i]) + LiveBytes(c[i + 1..])
  {
    LiveOne(c[i]);
    LiveAround(c, i, c[i]);
    assert c[i := c[i]] == c;
    assert Live(c[..i]) + [] == Live(c[..i]);
  }

  lemma GrantKeepsInv(h: Heap, i: nat, need: nat, owner: u16)
    requires HeapInv(h) && i < |h.chain| && Fits(h.chain[i], need) && owner != NO_OWNER
    requires need % ALIGNMENT == 0 && need >= ALIGNMENT
    ensures HeapInv(GrantAt(h, i, need, owner))
  {
    var h' := GrantAt(h, i, need, owner);
    PlaceTiles(h.chain, h.begin, h.end, i, need, owner);
    PlaceIsCanonical(h.chain, i, need, owner);
    PlaceAddsOneLive(h.chain, i, need, owner);
    LiveBytesOfLive(h'.chain);
    TotalIsSpan(h'.chain, h.begin, h.end);
  }

  /** Every allocation attempt keeps the heap canonical and its byte account
      exact. */
  lemma AllocKeepsInv(h: Heap, size: u32, owner: u16)
    requires HeapInv(h)
    ensures HeapInv(Alloc(h, size, owner).0)
    ensures Alloc(h, size, owner).0.begin == h.begin && Alloc(h, size, owner).0.end == h.end
    ensures Alloc(h, size, owner).0.highWatermark == Max(h.highWatermark, Alloc(h, size, owner).0.allocatedBytes)
  {
    if Alloc(h, size, owner).1 != 0 {
      var need := Rounded(size).value;
      GrantKeepsInv(h, Search(h.chain, need, IndexOf(h.chain, h.nextFit), |h.chain|).value, need, owner);
    }
  }

  /** Position i is the first fitting block met in circular order from the
      cursor. */
  ghost predicate FirstFit(h: Heap, need: nat, i: nat)
    requires HasAddr(h.chain, h.nextFit)
  {
    var n, at := |h.chain|, IndexOf(h.chain, h.nextFit);
    exists d :: && 0 <= d < n && i == Around(n, at, d) && Fits(h.chain[i], need)
                && forall e :: 0 <= e < d ==> !Fits(h.chain[Around(n, at, e)], need)
  }

  /** The live allocations gain the block granted at position i, in place. */
  ghost predicate Grants(h: Heap, h': Heap, need: nat, owner: u16, i: nat) {
    && i < |h.chain|
    && Live(h'.chain) == Live(h.chain[..i]) + [Granted(h.chain, i, need, owner)] + Live(h.chain[i + 1..])
    && Live(h.chain) == Live(h.chain[..i]) + Live(h.chain[i + 1..])
  }

  ghost predicate Serviceable(h: Heap, size: u32, owner: u16) {
    && size != 0 && owner != NO_OWNER && Rounded(size).Some?
    && exists i :: 0 <= i < |h.chain| && Fits(h.chain[i], Rounded(size).value)
  }

  /** Allocation fails exactly when the request is void, overflows the
      rounding, or no free block has the rounded size; a refusal changes one
      counter only. */
  lemma AllocFailsExactly(h: Heap, size: u32, owner: u16)
    requires HeapInv(h)
    ensures Alloc(h, size, owner).1 != 0 <==> Serviceable(h, size, owner)
    ensures !Serviceable(h, size, owner) ==>
              Alloc(h, size, owner).0 == h.(failedAllocations := SatInc(h.failedAllocations))
  {
    if size != 0 && owner != NO_OWNER && Rounded(size).Some? {
      FullTurnIsComplete(h.chain, Rounded(size).value, IndexOf(h.chain, h.nextFit));
    }
  }

  /** A successful allocation returns the aligned payload, inside the arena, of
      the first fitting block in circular order from the cursor, and adds
      exactly that block to the live allocations. */
  lemma AllocIsNextFit(h: Heap, size: u32, owner: u16) returns (i: nat)
    requires HeapInv(h) && Serviceable(h, size, owner)
    ensures var (h', p) := Alloc(h, size, owner);
      var need := Rounded(size).value;
      && size <= need < size + ALIGNMENT && need % ALIGNMENT == 0
      && FirstFit(h, need, i) && Grants(h, h', need, owner, i)
      && p == Payload(h.chain[i]) && p % ALIGNMENT == 0 && h.begin + HEADER <= p && p + need <= h.end
  {
    hide Tiles, GoodCapacities, Canonical, Live, LiveBytes;
    var need := Rounded(size).value;
    var at := IndexOf(h.chain, h.nextFit);
    AllocFailsExactly(h, size, owner);
    SearchIsFirstFit(h.chain, need, at, |h.chain|);
    i := Search(h.chain, need, at, |h.chain|).value;
    PlaceAddsOneLive(h.chain, i, need, owner);
    PayloadInArena(h, i);
  }

  lemma PayloadInArena(h: Heap, i: nat)
    requires HeapInv(h) && i < |h.chain|
    ensures var p := Payload(h.chain[i]);
      p % ALIGNMENT == 0 && h.begin + HEADER <= p && p + h.chain[i].capacity <= h.end
  {
    TilesAt(h.chain, h.begin, h.end, i);
    AddressAligned(h.chain, h.begin, h.end, i);
  }

  lemma {:induction false} AddressAligned(c: seq<Block>, begin: nat, end: nat, i: nat)
    requires Tiles(c, begin, end) && begin % ALIGNMENT == 0 && i < |c|
    requires forall k :: 0 <= k < |c| ==> c[k].capacity % ALIGNMENT == 0
    ensures c[i].addr % ALIGNMENT == 0
  {
    if i > 0 {
      AddressAligned(c, begin, end, i - 1);
      TilesAt(c, begin, end, i - 1);
      assert c[i].addr == c[i - 1].addr + HEADER + c[i - 1].capacity;
    }
  }

  // ---- Free ----

  /** The block a successful free removes, with the live blocks around it. */
  ghost predicate Removes(h: Heap, h': Heap, i: nat, pointer: nat, owner: u16) {
    && i < |h.chain| && Payload(h.chain[i]) == pointer && h.chain[i].owner == owner
    && Live(h.chain) == Live(h.chain[..i]) + [h.chain[i]] + Live(h.chain[i + 1..])
    && Live(h'.chain) == Live(h.chain[..i]) + Live(h.chain[i + 1..])
  }

  lemma FreedKeepsTiling(c: seq<Block>, begin: nat, end: nat, i: nat)
    requires Tiles(c, begin, end) && GoodCapacities(c) && i < |c|
    ensures Tiles(c[i := Freed(c[i])], begin, end) && GoodCapacities(c[i := Freed(c[i])])
  {
    TilesSplit(c, begin, end, i);
    var f := [Freed(c[i])];
    assert f[1..] == [];
    TilesConcat(c[..i], f, begin, c[i].addr, After(c[i]));
    TilesConcat(c[..i] + f, c[i + 1..], begin, After(c[i]), end);
    assert c[i := Freed(c[i])] == c[..i] + f + c[i + 1..];
    assert GoodCapacity(c[i]);
  }

  lemma FreedRemovesOneLive(c: seq<Block>, i: nat)
    requires i < |c| && !IsFree(c[i])
    ensures Live(c) == Live(c[..i]) + [c[i]] + Live(c[i + 1..])
    ensures Live(c[i := Freed(c[i])]) == Live(c[..i]) + Live(c[i + 1..])
    ensures LiveBytes(c[i := Freed(c[i])]) == LiveBytes(c) - c[i].capacity
  {
    LiveOne(c[i]);
    LiveOne(Freed(c[i]));
    LiveAround(c, i, c[i]);
    LiveAround(c, i, Freed(c[i]));
    assert c[i := c[i]] == c;
    assert Live(c[..i]) + [] == Live(c[..i]);
  }

  lemma AddressesSurviveMarking(c: seq<Block>, d: seq<Block>, addr: nat)
    requires |c| == |d| && forall i :: 0 <= i < |c| ==> c[i].addr == d[i].addr
    requires HasAddr(c, addr)
    ensures HasAddr(d, addr)
  {
    var i :| 0 <= i < |c| && c[i].addr == addr;
    assert d[i].addr == addr;
  }

  lemma FreeAtKeepsInv(h: Heap, i: nat)
    requires HeapInv(h) && i < |h.chain| && !IsFree(h.chain[i])
    ensures HeapInv(FreeAt(h, i))
  {
    var marked := h.chain[i := Freed(h.chain[i])];
    FreedKeepsTiling(h.chain, h.begin, h.end, i);
    FreedRemovesOneLive(h.chain, i);
    CoalesceTiles(marked, h.begin, h.end);
    CoalesceKeepsLive(marked);
    CoalesceIsCanonical(marked);
    AddressesSurviveMarking(h.chain, marked, h.nextFit);
    CursorStaysInChain(marked, h.nextFit);
  }

  lemma FreeKeepsInv(h: Heap, pointer: nat, owner: u16)
    requires HeapInv(h)
    ensures HeapInv(FreeBlock(h, pointer, owner).0)
    ensures FreeBlock(h, pointer, owner).0.begin == h.begin && FreeBlock(h, pointer, owner).0.end == h.end
  {
    if pointer != 0 && FreeBlock(h, pointer, owner).1 {
      FreeAtKeepsInv(h, FindPayload(h, pointer));
    }
  }

  /** A free succeeds exactly on the payload address of a live block of that
      owner (or on NULL); it then removes that block, and only that block, from
      the live allocations. A refused free changes one counter. */
  lemma FreeRemovesExactlyThatBlock(h: Heap, pointer: nat, owner: u16)
    requires HeapInv(h) && pointer != 0
    ensures var (h', ok) := FreeBlock(h, pointer, owner);
      && (ok <==> exists i :: 0 <= i < |h.chain| && Payload(h.chain[i]) == pointer
                              && !IsFree(h.chain[i]) && h.chain[i].owner == owner)
      && (!ok ==> h' == h.(invalidFrees := SatInc(h.invalidFrees)))
      && (ok ==> exists i :: Removes(h, h', i, pointer, owner))
  {
    forall k | 0 <= k < |h.chain| && Payload(h.chain[k]) == pointer
      ensures FindPayload(h, pointer) == k
    {
      TilesAt(h.chain, h.begin, h.end, k);
      AddressAligned(h.chain, h.begin, h.end, k);
      assert GoodCapacity(h.chain[k]);
      assert h.chain[k].addr == pointer - HEADER;
      var j := IndexOf(h.chain, pointer - HEADER);
      if j < k { AddressesIncrease(h.chain, h.begin, h.end, j, k); }
      if k < j { AddressesIncrease(h.chain, h.begin, h.end, k, j); }
    }
    var i := FindPayload(h, pointer);
    if FreeBlock(h, pointer, owner).1 {
      FreedRemovesOneLive(h.chain, i);
      CoalesceKeepsLive(h.chain[i := Freed(h.chain[i])]);
      assert Removes(h, FreeBlock(h, pointer, owner).0, i, pointer, owner);
    }
  }

  /** Freeing an allocation at once gives back the block list it started from. */
  lemma AllocThenFreeRestoresList(h: Heap, size: u32, owner: u16)
    requires HeapInv(h) && Alloc(h, size, owner).1 != 0
    ensures var (h1, p) := Alloc(h, size, owner);
      var (h2, ok) := FreeBlock(h1, p, owner);
      ok && h2.chain == h.chain && h2.allocatedBytes == h.allocatedBytes
  {
    hide Tiles, GoodCapacities, Canonical, Live, LiveBytes, Search, IndexOf;
    var (h1, p) := Alloc(h, size, owner);
    var h2 := FreeBlock(h1, p, owner).0;
    var need := Rounded(size).value;
    var i := Search(h.chain, need, IndexOf(h.chain, h.nextFit), |h.chain|).value;
    AllocKeepsInv(h, size, owner);
    FreeKeepsInv(h1, p, owner);
    assert h1.chain[i] == Granted(h.chain, i, need, owner);
    FreeRemovesExactlyThatBlock(h1, p, owner);
    var j :| Removes(h1, h2, j, p, owner);
    if j < i { AddressesIncrease(h1.chain, h1.begin, h1.end, j, i); }
    if i < j { AddressesIncrease(h1.chain, h1.begin, h1.end, i, j); }
    PlaceNeighbours(h.chain, i, need, owner);
    FreeSpot(h.chain, i);
    CanonicalIsUnique(h2.chain, h.chain, h.begin, h.end);
  }

  lemma PlaceNeighbours(c: seq<Block>, i: nat, need: nat, owner: u16)
    requires i < |c| && Fits(c[i], need)
    ensures var p := Place(c, i, need, owner);
      p[..i] == c[..i] && Live(p[i + 1..]) == Live(c[i + 1..])
  {
    var p := Place(c, i, need, owner);
    if Splits(c[i], need) {
      var r := Remainder(c[i], need);
      assert p[i + 1..] == [r] + c[i + 1..];
      LiveConcat([r], c[i + 1..]);
      LiveOne(r);
    } else {
      assert p[i + 1..] == c[i + 1..];
    }
  }

  // ---- Owner sweep ----

  /** The live blocks that do not belong to an owner. */
  function Others(c: seq<Block>, owner: u16): seq<Block> {
    if c == [] then [] else (if c[0].owner == owner then [] else [c[0]]) + Others(c[1..], owner)
  }

  lemma {:induction false} OthersConcat(x: seq<Block>, y: seq<Block>, owner: u16)
    ensures Others(x + y, owner) == Others(x, owner) + Others(y, owner)
  {
    if x == [] {
      assert x + y == y;
    } else {
      var first := if x[0].owner == owner then [] else [x[0]];
      OthersConcat(x[1..], y, owner);
      assert (x + y)[0] == x[0] && (x + y)[1..] == x[1..] + y;
      assert Others(x + y, owner) == first + (Others(x[1..], owner) + Others(y, owner));
      assert Others(x, owner) == first + Others(x[1..], owner);
    }
  }

  lemma {:induction false} SweptTiles(c: seq<Block>, begin: nat, end: nat, owner: u16)
    requires Tiles(c, begin, end)
    ensures Tiles(Swept(c, owner), begin, end)
    decreases |c|
  {
    if c != [] {
      SweptTiles(c[1..], After(c[0]), end, owner);
      assert Swept(c, owner)[1..] == Swept(c[1..], owner);
    }
  }

  lemma {:induction false} SweptLive(c: seq<Block>, owner: u16)
    requires owner != NO_OWNER
    ensures Live(Swept(c, owner)) == Others(Live(c), owner)
    ensures LiveBytes(Swept(c, owner)) == LiveBytes(c) - OwnedBytes(c, owner)
  {
    if c != [] {
      SweptLive(c[1..], owner);
      var first := if c[0].owner == owner then Freed(c[0]) else c[0];
      LiveOne(first);
      LiveOne(c[0]);
      LiveConcat([c[0]], c[1..]);
      assert [c[0]] + c[1..] == c;
      LiveConcat([first], Swept(c[1..], owner));
      OthersConcat(Live([c[0]]), Live(c[1..]), owner);
      OthersOne(c[0], owner);
    }
  }

  lemma OthersOne(b: Block, owner: u16)
    ensures Others([b], owner) == if b.owner == owner then [] else [b]
  {
    assert [b][1..] == [];
  }

  lemma {:induction false} OwnedIsTheDifference(c: seq<Block>, owner: u16)
    ensures OwnedCount(c, owner) == |c| - |Others(c, owner)|
  {
    if c != [] {
      OwnedIsTheDifference(c[1..], owner);
    }
  }

  lemma {:induction false} OwnedAreLive(c: seq<Block>, owner: u16)
    requires owner != NO_OWNER
    ensures OwnedCount(c, owner) == OwnedCount(Live(c), owner)
  {
    if c != [] {
      OwnedAreLive(c[1..], owner);
      if !IsFree(c[0]) {
        assert Live(c) == [c[0]] + Live(c[1..]);
        assert Live(c)[1..] == Live(c[1..]);
      } else {
        assert Live(c) == Live(c[1..]);
      }
    }
  }

  lemma {:induction false} OthersWithoutOwned(c: seq<Block>, owner: u16)
    requires forall i :: 0 <= i < |c| ==> c[i].owner != owner
    ensures Others(c, owner) == c
  {
    if c != [] {
      OthersWithoutOwned(c[1..], owner);
    }
  }

  /** The sweep keeps the heap canonical, returns the number of blocks the
      owner held, and leaves exactly the other owners' allocations, each at its
      address, size and owner. */
  lemma ReleaseKeepsInvAndOthers(h: Heap, owner: u16)
    requires HeapInv(h) && owner != NO_OWNER
    ensures var (h', n) := ReleaseOwner(h, owner);
      && HeapInv(h') && h'.begin == h.begin && h'.end == h.end
      && Live(h'.chain) == Others(Live(h.chain), owner)
      && n == |Live(h.chain)| - |Live(h'.chain)|
      && n == OwnedCount(Live(h.chain), owner)
      && h'.successfulFrees == SatAdd(h.successfulFrees, n)
      && h'.highWatermark == h.highWatermark
      && h'.allocatedBytes == LiveBytes(h'.chain)
  {
    SweptLive(h.chain, owner);
    OwnedAreLive(h.chain, owner);
    OwnedIsTheDifference(Live(h.chain), owner);
    if OwnedCount(h.chain, owner) == 0 {
      LiveMembers(h.chain);
      OthersWithoutOwned(Live(h.chain), owner);
    } else {
      var marked := Swept(h.chain, owner);
      SweptTiles(h.chain, h.begin, h.end, owner);
      assert GoodCapacities(marked) by {
        forall i | 0 <= i < |marked| ensures GoodCapacity(marked[i]) { assert GoodCapacity(h.chain[i]); }
      }
      CoalesceTiles(marked, h.begin, h.end);
      CoalesceKeepsLive(marked);
      CoalesceIsCanonical(marked);
      assert Coalesce(marked)[0].addr == h.begin;
    }
  }

  /** Free a list of pointers for an owner, one call after another. */
  function FreeEach(h: Heap, pointers: seq<nat>, owner: u16): (Heap, bool)
    decreases |pointers|
  {
    if pointers == [] then (h, true)
    else
      var (h1, ok) := FreeBlock(h, pointers[0], owner);
      var (h2, rest) := FreeEach(h1, pointers[1..], owner);
      (h2, ok && rest)
  }

  /** Pointers names each of the owner's live payloads once, in any order. */
  ghost predicate NamesOwned(c: seq<Block>, owner: u16, pointers: seq<nat>) {
    && (forall i, j :: 0 <= i < j < |pointers| ==> pointers[i] != pointers[j])
    && (forall p :: p in pointers <==> exists b :: b in c && b.owner == owner && Payload(b) == p)
  }

  lemma OthersAround(x: seq<Block>, b: Block, y: seq<Block>, owner: u16)
    requires b.owner == owner
    ensures Others(x + [b] + y, owner) == Others(x + y, owner)
  {
    OthersConcat(x + [b], y, owner);
    OthersConcat(x, [b], owner);
    OthersConcat(x, y, owner);
    OthersOne(b, owner);
  }

  lemma FreeOwnedSucceeds(h: Heap, pointers: seq<nat>, owner: u16) returns (i: nat)
    requires HeapInv(h) && owner != NO_OWNER && pointers != [] && NamesOwned(Live(h.chain), owner, pointers)
    ensures var (h', ok) := FreeBlock(h, pointers[0], owner);
      && ok && HeapInv(h') && h'.begin == h.begin && h'.end == h.end
      && Removes(h, h', i, pointers[0], owner)
      && h'.successfulFrees == SatInc(h.successfulFrees)
  {
    hide Tiles, GoodCapacities, Canonical, Live, LiveBytes, Coalesce, MovedCursor;
    var p := pointers[0];
    LiveMembers(h.chain);
    assert p in pointers;
    var b :| b in Live(h.chain) && b.owner == owner && Payload(b) == p;
    assert b in h.chain;
    var k :| 0 <= k < |h.chain| && h.chain[k] == b;
    FreeKeepsInv(h, p, owner);
    FreeRemovesExactlyThatBlock(h, p, owner);
    assert FreeBlock(h, p, owner).1;
    i :| Removes(h, FreeBlock(h, p, owner).0, i, p, owner);
  }

  /** One free of an owned payload leaves the other owners alone and leaves the
      remaining pointers naming the remaining owned blocks. */
  lemma FreeOneOwned(h: Heap, pointers: seq<nat>, owner: u16)
    requires HeapInv(h) && owner != NO_OWNER && pointers != [] && NamesOwned(Live(h.chain), owner, pointers)
    ensures var (h', ok) := FreeBlock(h, pointers[0], owner);
      && ok && HeapInv(h') && h'.begin == h.begin && h'.end == h.end
      && Others(Live(h'.chain), owner) == Others(Live(h.chain), owner)
      && |Live(h'.chain)| == |Live(h.chain)| - 1
      && NamesOwned(Live(h'.chain), owner, pointers[1..])
      && h'.successfulFrees == SatInc(h.successfulFrees)
  {
    var i := FreeOwnedSucceeds(h, pointers, owner);
    var h' := FreeBlock(h, pointers[0], owner).0;
    OthersAround(Live(h.chain[..i]), h.chain[i], Live(h.chain[i + 1..]), owner);
    RestStillNamed(h, h', i, pointers, owner);
  }

  lemma RestStillNamed(h: Heap, h': Heap, i: nat, pointers: seq<nat>, owner: u16)
    requires HeapInv(h) && pointers != [] && NamesOwned(Live(h.chain), owner, pointers)
    requires Removes(h, h', i, pointers[0], owner)
    ensures NamesOwned(Live(h'.chain), owner, pointers[1..])
  {
    forall q | q in pointers[1..]
      ensures exists d :: d in Live(h'.chain) && d.owner == owner && Payload(d) == q
    {
      assert q in pointers && q != pointers[0];
      var d :| d in Live(h.chain) && d.owner == owner && Payload(d) == q;
      assert d != h.chain[i];
      assert d in Live(h'.chain);
    }
    forall d | d in Live(h'.chain) && d.owner == owner ensures Payload(d) in pointers[1..] {
      OthersInAnotherPlace(h, i, d);
      assert Payload(d) in pointers;
    }
  }

  lemma OthersInAnotherPlace(h: Heap, i: nat, d: Block)
    requires HeapInv(h) && i < |h.chain|
    requires d in Live(h.chain[..i]) + Live(h.chain[i + 1..])
    ensures d in h.chain && !IsFree(d) && d in Live(h.chain) && Payload(d) != Payload(h.chain[i])
  {
    LiveMembers(h.chain[..i]);
    LiveMembers(h.chain[i + 1..]);
    LiveMembers(h.chain);
    if d in h.chain[..i] {
      var j :| 0 <= j < i && h.chain[..i][j] == d;
      AddressesIncrease(h.chain, h.begin, h.end, j, i);
    } else {
      var j :| 0 <= j < |h.chain[i + 1..]| && h.chain[i + 1..][j] == d;
      assert h.chain[i + 1 + j] == d;
      AddressesIncrease(h.chain, h.begin, h.end, i, i + 1 + j);
    }
  }

  lemma {:induction false} FreeEachReleases(h: Heap, pointers: seq<nat>, owner: u16)
    requires HeapInv(h) && owner != NO_OWNER && NamesOwned(Live(h.chain), owner, pointers)
    ensures var (h', ok) := FreeEach(h, pointers, owner);
      && ok && HeapInv(h') && h'.begin == h.begin && h'.end == h.end
      && Live(h'.chain) == Others(Live(h.chain), owner)
      && |pointers| == |Live(h.chain)| - |Live(h'.chain)|
      && h'.successfulFrees == SatAdd(h.successfulFrees, |pointers|)
    decreases |pointers|
  {
    if pointers == [] {
      forall i | 0 <= i < |Live(h.chain)| ensures Live(h.chain)[i].owner != owner {
        var b := Live(h.chain)[i];
        assert b in Live(h.chain);
        assert Payload(b) !in pointers;
      }
      OthersWithoutOwned(Live(h.chain), owner);
    } else {
      FreeOneOwned(h, pointers, owner);
      var h1 := FreeBlock(h, pointers[0], owner).0;
      FreeEachReleases(h1, pointers[1..], owner);
    }
  }

  /** The owner sweep (mark everything, coalesce once) reaches exactly the
      block list, byte count and free counter that freeing each of the owner's
      blocks separately reaches, in whatever order, and it returns how many
      frees that takes. Only the cursor differs: the sweep restarts it. */
  lemma SweepEqualsRepeatedFree(h: Heap, owner: u16, pointers: seq<nat>)
    requires HeapInv(h) && owner != NO_OWNER && NamesOwned(Live(h.chain), owner, pointers)
    ensures var (swept, n) := ReleaseOwner(h, owner);
      var (freed, ok) := FreeEach(h, pointers, owner);
      && ok && n == |pointers|
      && swept.chain == freed.chain
      && swept.allocatedBytes == freed.allocatedBytes
      && swept.successfulFrees == freed.successfulFrees
      && (n > 0 ==> swept.nextFit == h.begin)
  {
    ReleaseKeepsInvAndOthers(h, owner);
    FreeEachReleases(h, pointers, owner);
    CanonicalIsUnique(ReleaseOwner(h, owner).0.chain, FreeEach(h, pointers, owner).0.chain, h.begin, h.end);
  }
}
