/** What makes the allocator next fit: where every operation leaves the cursor,
    told by addresses, and how much more than the request a grant can be. */
module HeapCursor {
  import opened Words
  import opened HeapChain
  import opened HeapModel
  import opened HeapLaws

  /** The granted block: it starts where the first fitting block started, holds
      the rounded request, and wastes less than a header and a payload word; a
      block with that much to spare is cut to size. */
  ghost predicate GrantedBlock(b: Block, g: Block, need: nat, owner: u16) {
    && g.addr == b.addr && g.owner == owner && need <= g.capacity < need + 32
    && (if b.capacity >= need + 32 then g.capacity == need else g.capacity == b.capacity)
  }

  /** Where the next search starts: right behind the granted block, or at the
      first block again when that was the last. */
  lemma AllocMovesCursor(h: Heap, size: u32, owner: u16) returns (i: nat)
    requires HeapInv(h) && Serviceable(h, size, owner)
    ensures var (h', p) := Alloc(h, size, owner);
      var need := Rounded(size).value;
      && size <= need < size + 8 && need % 8 == 0
      && FirstFit(h, need, i) && i < |h.chain| && i < |h'.chain|
      && var g := h'.chain[i];
         && GrantedBlock(h.chain[i], g, need, owner) && p == g.addr + 24
         && h'.nextFit == if p + g.capacity == h.end then h.begin else p + g.capacity
  {
    hide Tiles, GoodCapacities, Canonical, Live, LiveBytes, FirstFit;
    i := AllocIsNextFit(h, size, owner);
    var need := Rounded(size).value;
    FirstFitIsTheSearch(h, size, owner, i);
    var h' := Alloc(h, size, owner).0;
    assert h'.chain[i] == Granted(h.chain, i, need, owner);
    TilesAt(h.chain, h.begin, h.end, i);
    if i + 1 < |h.chain| { TilesAt(h.chain, h.begin, h.end, i + 1); }
    FirstStarts(h);
  }

  lemma FirstStarts(h: Heap)
    requires HeapInv(h)
    ensures h.chain[0].addr == h.begin
  {
  }

  /** Only one position is the first fit, and the search returns it. */
  lemma FirstFitIsTheSearch(h: Heap, size: u32, owner: u16, i: nat)
    requires HeapInv(h) && Serviceable(h, size, owner) && FirstFit(h, Rounded(size).value, i)
    ensures i < |h.chain| && Search(h.chain, Rounded(size).value, IndexOf(h.chain, h.nextFit), |h.chain|) == Some(i)
  {
    hide Tiles, GoodCapacities, Canonical, Live, LiveBytes;
    var need, n, at := Rounded(size).value, |h.chain|, IndexOf(h.chain, h.nextFit);
    SearchIsFirstFit(h.chain, need, at, n);
    FullTurnIsComplete(h.chain, need, at);
    var d :| 0 <= d < n && i == Around(n, at, d) && Fits(h.chain[i], need)
             && forall e :: 0 <= e < d ==> !Fits(h.chain[Around(n, at, e)], need);
    var s := Search(h.chain, need, at, n).value;
    var c :| 0 <= c < n && s == Around(n, at, c)
             && forall e :: 0 <= e < c ==> !Fits(h.chain[Around(n, at, e)], need);
  }

  // ---- Release ----

  /** Some block of the list starts here and reaches past the address. */
  ghost predicate BlockOver(c: seq<Block>, start: nat, address: nat) {
    exists j :: 0 <= j < |c| && c[j].addr == start && start <= address < After(c[j])
  }

  lemma {:induction false} CoalesceCarriesCursor(c: seq<Block>, begin: nat, end: nat, cursor: nat, address: nat)
    requires Tiles(c, begin, end) && BlockOver(c, cursor, address)
    ensures BlockOver(Coalesce(c), MovedCursor(c, cursor), address)
    decreases |c|
  {
    var i :| 0 <= i < |c| && c[i].addr == cursor && cursor <= address < After(c[i]);
    if |c| <= 1 {
    } else if IsFree(c[0]) && IsFree(c[1]) {
      var d := [Merged(c[0], c[1])] + c[2..];
      var moved := if cursor == c[1].addr then c[0].addr else cursor;
      assert d[1..] == c[2..] == c[1..][1..];
      TilesAt(c, begin, end, 1);
      TilesAt(c, begin, end, 0);
      if i >= 2 {
        AddressesIncrease(c, begin, end, 1, i);
        assert d[i - 1] == c[i];
      } else {
        assert d[0].addr == moved;
      }
      assert BlockOver(d, moved, address);
      CoalesceCarriesCursor(d, begin, end, moved, address);
    } else {
      var r := Coalesce(c[1..]);
      if i > 0 {
        assert c[1..][i - 1] == c[i];
        CoalesceCarriesCursor(c[1..], After(c[0]), end, cursor, address);
        var j :| 0 <= j < |r| && r[j].addr == MovedCursor(c[1..], cursor) && r[j].addr <= address < After(r[j]);
        assert Coalesce(c)[j + 1] == r[j];
      } else {
        forall k | 0 <= k < |c[1..]| ensures c[1..][k].addr != cursor {
          AddressesIncrease(c, begin, end, 0, k + 1);
        }
        CursorElsewhere(c[1..], cursor);
        assert Coalesce(c)[0] == c[0];
      }
    }
  }

  /** A free leaves the cursor on the block that now holds the address it was
      on, and a refused one does not move it. */
  lemma FreeCarriesCursor(h: Heap, pointer: nat, owner: u16)
    requires HeapInv(h)
    ensures var (h', ok) := FreeBlock(h, pointer, owner);
      if ok && pointer != 0 then BlockOver(h'.chain, h'.nextFit, h.nextFit) else h'.nextFit == h.nextFit
  {
    hide GoodCapacities, Canonical, Live, LiveBytes, Coalesce, MovedCursor, Tiles, HasAddr;
    if pointer != 0 && FreeBlock(h, pointer, owner).1 {
      var i := FindPayload(h, pointer);
      var marked := h.chain[i := Freed(h.chain[i])];
      FreedKeepsTiling(h.chain, h.begin, h.end, i);
      CursorBlock(h.chain, marked, h.nextFit);
      CoalesceCarriesCursor(marked, h.begin, h.end, h.nextFit, h.nextFit);
    }
  }

  lemma CursorBlock(c: seq<Block>, d: seq<Block>, cursor: nat)
    requires HasAddr(c, cursor) && |c| == |d| && forall i :: 0 <= i < |c| ==> c[i].addr == d[i].addr
    ensures BlockOver(d, cursor, cursor)
  {
    var i :| 0 <= i < |c| && c[i].addr == cursor;
    assert d[i].addr == cursor;
  }

  /** A sweep that releases something restarts the cursor. */
  lemma SweepRestartsCursor(h: Heap, owner: u16)
    requires HeapInv(h)
    ensures var (h', n) := ReleaseOwner(h, owner); h'.nextFit == if n == 0 then h.nextFit else h.begin
  {
    hide Coalesce, Swept, OwnedBytes;
  }

  /** Two allocations in a row that both find room right behind the cursor get
      neighbouring blocks: the second does not go back to a hole before the
      first. */
  lemma AllocsAdvance(h: Heap, size: u32, again: u32, owner: u16)
    requires HeapInv(h) && Serviceable(h, size, owner)
    requires var (h1, p) := Alloc(h, size, owner);
      && Serviceable(h1, again, owner)
      && exists j :: 0 <= j < |h1.chain| && h1.chain[j].addr == h1.nextFit && Fits(h1.chain[j], Rounded(again).value)
    ensures var (h1, p) := Alloc(h, size, owner);
      Alloc(h1, again, owner).1 == h1.nextFit + 24
  {
    hide Tiles, GoodCapacities, Canonical, Live, LiveBytes;
    var h1 := Alloc(h, size, owner).0;
    AllocKeepsInv(h, size, owner);
    var need, at := Rounded(again).value, IndexOf(h1.chain, h1.nextFit);
    var j :| 0 <= j < |h1.chain| && h1.chain[j].addr == h1.nextFit && Fits(h1.chain[j], need);
    if at < j { AddressesIncrease(h1.chain, h1.begin, h1.end, at, j); }
    if j < at { AddressesIncrease(h1.chain, h1.begin, h1.end, j, at); }
    assert Search(h1.chain, need, at, |h1.chain|) == Some(at);
  }
}
