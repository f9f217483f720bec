/** How a block list lies in memory: the intrusive headers, each at its block's
    address, and what every in-place header update does to the list. */
module HeapImage {
  import opened Words
  import opened HeapChain
  import opened HeapModel
  import opened HeapLaws

  const CLEAR: seq<u8> := [0, 0, 0, 0, 0]

  /** The cookie, and the marker stamped on a block. The source folds the words
      named here into one by exclusive or, which for a fixed allocator tells
      addresses apart exactly as the tuple does. */
  datatype Cookie = Cookie(begin: nat, end: nat)
  datatype Marker = Marker(cookie: Cookie, addr: nat)

  /** One block header as the C structure lays it out. Links are addresses, 0
      standing for NULL. */
  datatype Header = Header(
    marker: Marker,
    capacity: nat,
    next: nat,
    previous: nat,
    owner: u16,
    used: u8,
    reserved: seq<u8>)

  /** The header that would be read at each address of the arena that can hold
      one. */
  type Memory = map<nat, Header>

  function NextOf(c: seq<Block>, i: nat): nat {
    if i + 1 < |c| then c[i + 1].addr else 0
  }

  function PreviousOf(c: seq<Block>, i: nat): nat
    requires i < |c|
  {
    if i == 0 then 0 else c[i - 1].addr
  }

  function HeaderOf(c: seq<Block>, i: nat, cookie: Cookie): Header
    requires i < |c|
  {
    Header(Marker(cookie, c[i].addr), c[i].capacity, NextOf(c, i), PreviousOf(c, i),
           c[i].owner, if IsFree(c[i]) then 0 else 1, CLEAR)
  }

  ghost predicate Holds(memory: Memory, c: seq<Block>, cookie: Cookie, i: nat)
    requires i < |c|
  {
    c[i].addr in memory && memory[c[i].addr] == HeaderOf(c, i, cookie)
  }

  /** Memory holds the list: every block's header is at its address, linked
      both ways. */
  ghost predicate Represents(memory: Memory, c: seq<Block>, cookie: Cookie) {
    forall i :: 0 <= i < |c| ==> Holds(memory, c, cookie, i)
  }

  ghost predicate Ascending(c: seq<Block>) {
    forall i, j :: 0 <= i < j < |c| ==> c[i].addr < c[j].addr
  }

  lemma TilingAscends(c: seq<Block>, begin: nat, end: nat)
    requires Tiles(c, begin, end)
    ensures Ascending(c)
  {
    forall i, j | 0 <= i < j < |c| ensures c[i].addr < c[j].addr {
      AddressesIncrease(c, begin, end, i, j);
    }
  }

  /** Changing only the owner of one block. */
  lemma RetaggedIsHeld(memory: Memory, c: seq<Block>, cookie: Cookie, i: nat, owner: u16)
    requires Represents(memory, c, cookie) && Ascending(c) && i < |c|
    ensures Holds(memory, c, cookie, i)
    ensures var a := c[i].addr;
      Represents(memory[a := memory[a].(owner := owner, used := if owner == NO_OWNER then 0 else 1, reserved := CLEAR)],
                 c[i := c[i].(owner := owner)], cookie)
  {
    assert Holds(memory, c, cookie, i);
    var a := c[i].addr;
    var d := c[i := c[i].(owner := owner)];
    var w := memory[a := memory[a].(owner := owner, used := if owner == NO_OWNER then 0 else 1, reserved := CLEAR)];
    forall j | 0 <= j < |d| ensures Holds(w, d, cookie, j) {
      assert Holds(memory, c, cookie, j);
    }
  }

  function MergedAt(c: seq<Block>, i: nat): seq<Block>
    requires i + 1 < |c|
  {
    c[..i] + [Merged(c[i], c[i + 1])] + c[i + 2..]
  }

  /** Absorbing the next block: the header grows and takes over the forward
      link, and the back link of the block after moves. */
  function MergedMemory(memory: Memory, c: seq<Block>, i: nat): Memory
    requires i + 1 < |c| && c[i].addr in memory
    requires i + 2 < |c| ==> c[i + 2].addr in memory
  {
    var a := c[i].addr;
    var grown := memory[a := memory[a].(capacity := c[i].capacity + HEADER + c[i + 1].capacity,
                                        next := NextOf(c, i + 1))];
    if i + 2 < |c| then
      var b := c[i + 2].addr;
      grown[b := grown[b].(previous := a)]
    else grown
  }

  lemma MergedHolds(memory: Memory, c: seq<Block>, cookie: Cookie, i: nat, j: nat)
    requires Represents(memory, c, cookie) && Ascending(c) && i + 1 < |c| && j < |c| - 1
    ensures Holds(memory, c, cookie, i)
    ensures i + 2 < |c| ==> Holds(memory, c, cookie, i + 2)
    ensures Holds(MergedMemory(memory, c, i), MergedAt(c, i), cookie, j)
  {
    var d := MergedAt(c, i);
    assert Holds(memory, c, cookie, i);
    var k := if j <= i then j else j + 1;
    assert Holds(memory, c, cookie, k);
    assert d[j] == if j == i then Merged(c[i], c[i + 1]) else c[k];
    if i + 2 < |c| {
      assert Holds(memory, c, cookie, i + 2);
    }
    assert NextOf(d, j) == if j == i then NextOf(c, i + 1) else NextOf(c, k);
    assert PreviousOf(d, j) == if j == i + 1 then c[i].addr else PreviousOf(c, k);
  }

  lemma MergedIsHeld(memory: Memory, c: seq<Block>, cookie: Cookie, i: nat)
    requires Represents(memory, c, cookie) && Ascending(c) && i + 1 < |c|
    ensures Holds(memory, c, cookie, i)
    ensures i + 2 < |c| ==> Holds(memory, c, cookie, i + 2)
    ensures Represents(MergedMemory(memory, c, i), MergedAt(c, i), cookie)
  {
    MergedHolds(memory, c, cookie, i, i);
    forall j | 0 <= j < |MergedAt(c, i)|
      ensures Holds(MergedMemory(memory, c, i), MergedAt(c, i), cookie, j)
    {
      MergedHolds(memory, c, cookie, i, j);
    }
  }

  function SplitAt(c: seq<Block>, i: nat, need: nat): seq<Block>
    requires i < |c| && Splits(c[i], need)
  {
    c[..i] + [Head(c[i], need, c[i].owner), Remainder(c[i], need)] + c[i + 1..]
  }

  /** Carving a free block out of the end of block i: a new header, the back
      link of the block after, and the shrunk header itself. */
  function SplitMemory(memory: Memory, c: seq<Block>, cookie: Cookie, i: nat, need: nat): Memory
    requires i < |c| && Splits(c[i], need) && c[i].addr in memory
    requires i + 1 < |c| ==> c[i + 1].addr in memory
  {
    var a, r := c[i].addr, Remainder(c[i], need);
    var carved := memory[r.addr := Header(Marker(cookie, r.addr), r.capacity, NextOf(c, i), a, NO_OWNER, 0, CLEAR)];
    var linked := if i + 1 < |c| then
        var b := c[i + 1].addr;
        carved[b := carved[b].(previous := r.addr)]
      else carved;
    linked[a := linked[a].(capacity := need, next := r.addr)]
  }

  /** The list after a split, block by block. */
  lemma SplitShape(c: seq<Block>, i: nat, need: nat, j: nat)
    requires i < |c| && Splits(c[i], need) && j <= |c|
    ensures var d := SplitAt(c, i, need);
      && |d| == |c| + 1
      && d[j] == (if j < i then c[j] else if j == i then Head(c[i], need, c[i].owner)
                  else if j == i + 1 then Remainder(c[i], need) else c[j - 1])
      && NextOf(d, j) == (if j < i then NextOf(c, j) else if j == i then Remainder(c[i], need).addr
                          else NextOf(c, j - 1))
      && PreviousOf(d, j) == (if j <= i then PreviousOf(c, j) else if j == i + 1 then c[i].addr
                              else if j == i + 2 then Remainder(c[i], need).addr else PreviousOf(c, j - 1))
  {
  }

  lemma SplitHolds(memory: Memory, c: seq<Block>, cookie: Cookie, i: nat, need: nat, j: nat)
    requires Represents(memory, c, cookie) && i < |c| && IsFree(c[i]) && Splits(c[i], need)
    requires Ascending(SplitAt(c, i, need))
    requires j <= |c|
    ensures Holds(memory, c, cookie, i)
    ensures i + 1 < |c| ==> Holds(memory, c, cookie, i + 1)
    ensures Holds(SplitMemory(memory, c, cookie, i, need), SplitAt(c, i, need), cookie, j)
  {
    var d := SplitAt(c, i, need);
    var k := if j <= i then j else j - 1;
    assert Holds(memory, c, cookie, i) && Holds(memory, c, cookie, k);
    assert i + 1 < |c| ==> Holds(memory, c, cookie, i + 1);
    SplitShape(c, i, need, i);
    SplitShape(c, i, need, i + 1);
    if i + 1 < |c| { SplitShape(c, i, need, i + 2); }
    SplitShape(c, i, need, j);
    assert d[i].addr < d[i + 1].addr;
    if i + 1 < |c| { assert d[i + 1].addr < d[i + 2].addr; }
  }

  lemma SplitIsHeld(memory: Memory, c: seq<Block>, cookie: Cookie, i: nat, need: nat)
    requires Represents(memory, c, cookie) && i < |c| && IsFree(c[i]) && Splits(c[i], need)
    requires Ascending(SplitAt(c, i, need))
    ensures Holds(memory, c, cookie, i)
    ensures i + 1 < |c| ==> Holds(memory, c, cookie, i + 1)
    ensures Represents(SplitMemory(memory, c, cookie, i, need), SplitAt(c, i, need), cookie)
  {
    SplitHolds(memory, c, cookie, i, need, i);
    forall j | 0 <= j < |SplitAt(c, i, need)|
      ensures Holds(SplitMemory(memory, c, cookie, i, need), SplitAt(c, i, need), cookie, j)
    {
      SplitHolds(memory, c, cookie, i, need, j);
    }
  }

  // ---- The loops, seen on the list ----

  /** Advancing the coalescing pass over a pair that does not merge. */
  lemma PassOver(c: seq<Block>, i: nat, cursor: nat)
    requires i + 1 < |c| && !(IsFree(c[i]) && IsFree(c[i + 1]))
    ensures c[..i] + Coalesce(c[i..]) == c[..i + 1] + Coalesce(c[i + 1..])
    ensures MovedCursor(c[i..], cursor) == MovedCursor(c[i + 1..], cursor)
  {
    var t := c[i..];
    assert t[0] == c[i] && t[1] == c[i + 1] && t[1..] == c[i + 1..];
    assert c[..i + 1] == c[..i] + [c[i]];
  }

  /** Merging a pair at the pass's position. */
  lemma PassMerge(c: seq<Block>, i: nat, cursor: nat)
    requires i + 1 < |c| && IsFree(c[i]) && IsFree(c[i + 1])
    ensures var d := MergedAt(c, i);
      && d[..i] + Coalesce(d[i..]) == c[..i] + Coalesce(c[i..])
      && MovedCursor(d[i..], if cursor == c[i + 1].addr then c[i].addr else cursor) == MovedCursor(c[i..], cursor)
  {
    var t, d := c[i..], MergedAt(c, i);
    assert t[0] == c[i] && t[1] == c[i + 1] && t[2..] == c[i + 2..];
    assert d[i..] == [Merged(t[0], t[1])] + t[2..] && d[..i] == c[..i];
  }

  lemma PassDone(c: seq<Block>, i: nat, cursor: nat)
    requires i + 1 == |c|
    ensures c[..i] + Coalesce(c[i..]) == c && MovedCursor(c[i..], cursor) == cursor
  {
    assert c[..i] + c[i..] == c;
  }

  /** The sweep after i blocks: the owner's blocks among them marked free. */
  ghost predicate MarkedTo(c: seq<Block>, d: seq<Block>, i: nat, owner: u16) {
    && |d| == |c| && i <= |c|
    && (forall k :: 0 <= k < |c| ==> d[k] == if k < i && c[k].owner == owner then Freed(c[k]) else c[k])
  }

  lemma MarkStep(c: seq<Block>, d: seq<Block>, i: nat, owner: u16)
    requires MarkedTo(c, d, i, owner) && i < |c|
    ensures MarkedTo(c, if c[i].owner == owner then d[i := Freed(d[i])] else d, i + 1, owner)
    ensures OwnedCount(c[..i + 1], owner) == OwnedCount(c[..i], owner) + if c[i].owner == owner then 1 else 0
    ensures OwnedBytes(c[..i + 1], owner) == OwnedBytes(c[..i], owner) + if c[i].owner == owner then c[i].capacity
            else 0
  {
    assert c[..i + 1] == c[..i] + [c[i]];
    CountsExtend(c[..i], c[i], owner, 0);
  }

  /** The statistics totals over the first i blocks. */
  ghost predicate TalliedTo(c: seq<Block>, i: nat, payload: nat, live: nat, freeBlocks: nat, freeBytes: nat,
                            largest: nat) {
    && i <= |c| && payload == TotalCapacity(c[..i]) == LiveBytes(c[..i]) + freeBytes
    && live == |Live(c[..i])| && live + freeBlocks == i
    && (forall k :: 0 <= k < i && IsFree(c[k]) ==> c[k].capacity <= largest)
    && (if freeBlocks > 0 then exists k :: 0 <= k < i && IsFree(c[k]) && c[k].capacity == largest else largest == 0)
  }

  lemma TallyStep(c: seq<Block>, i: nat, payload: nat, live: nat, freeBlocks: nat, freeBytes: nat, largest: nat)
    requires TalliedTo(c, i, payload, live, freeBlocks, freeBytes, largest) && i < |c|
    ensures var b := c[i];
      if IsFree(b) then
        TalliedTo(c, i + 1, payload + b.capacity, live, freeBlocks + 1, freeBytes + b.capacity,
                  if b.capacity > largest then b.capacity else largest)
      else TalliedTo(c, i + 1, payload + b.capacity, live + 1, freeBlocks, freeBytes, largest)
  {
    assert c[..i + 1] == c[..i] + [c[i]];
    CountsExtend(c[..i], c[i], 0, 0);
    if IsFree(c[i]) {
      if c[i].capacity <= largest && freeBlocks > 0 {
        var k :| 0 <= k < i && IsFree(c[k]) && c[k].capacity == largest;
        assert 0 <= k < i + 1;
      }
    } else if freeBlocks > 0 {
      var k :| 0 <= k < i && IsFree(c[k]) && c[k].capacity == largest;
      assert 0 <= k < i + 1;
    }
  }
}
