/** The allocator's block list as a value: the blocks in address order, with
    the facts about tiling, coalescing and canonical form that every operation
    of the allocator rests on. */
module HeapChain {
  import opened Words

  /** Size of a block header on the 32-bit target, the payload alignment, and
      the owner tag of a free block. */
  const HEADER := 24
  const ALIGNMENT := 8
  const NO_OWNER: u16 := 0xFFFF

  datatype Block = Block(addr: nat, capacity: nat, owner: u16)

  predicate IsFree(b: Block) {
    b.owner == NO_OWNER
  }

  function After(b: Block): nat {
    b.addr + HEADER + b.capacity
  }

  function Payload(b: Block): nat {
    b.addr + HEADER
  }

  /** The blocks cover [begin, end) exactly, each starting where its
      predecessor ends. */
  ghost predicate Tiles(c: seq<Block>, begin: nat, end: nat) {
    if c == [] then begin == end
    else c[0].addr == begin && Tiles(c[1..], After(c[0]), end)
  }

  predicate GoodCapacity(b: Block) {
    b.capacity % ALIGNMENT == 0 && b.capacity >= ALIGNMENT
  }

  ghost predicate GoodCapacities(c: seq<Block>) {
    forall i :: 0 <= i < |c| ==> GoodCapacity(c[i])
  }

  /** No two neighbours are both free. */
  ghost predicate Canonical(c: seq<Block>) {
    forall i {:trigger c[i]} :: 0 <= i < |c| - 1 ==> !(IsFree(c[i]) && IsFree(c[i + 1]))
  }

  ghost predicate HasAddr(c: seq<Block>, addr: nat) {
    exists i :: 0 <= i < |c| && c[i].addr == addr
  }

  /** The live allocations, in address order. */
  function Live(c: seq<Block>): seq<Block> {
    if c == [] then [] else (if IsFree(c[0]) then [] else [c[0]]) + Live(c[1..])
  }

  function LiveBytes(c: seq<Block>): nat {
    if c == [] then 0 else (if IsFree(c[0]) then 0 else c[0].capacity) + LiveBytes(c[1..])
  }

  function TotalCapacity(c: seq<Block>): nat {
    if c == [] then 0 else c[0].capacity + TotalCapacity(c[1..])
  }

  // ---- Tiling ----

  lemma {:induction false} TilesAt(c: seq<Block>, begin: nat, end: nat, i: nat)
    requires Tiles(c, begin, end) && i < |c|
    ensures begin <= c[i].addr && After(c[i]) <= end
    ensures i + 1 < |c| ==> c[i + 1].addr == After(c[i])
    ensures i + 1 == |c| ==> After(c[i]) == end
  {
    if i == 0 {
      if |c| > 1 {
        assert c[1..][0] == c[1];
        TilesUpper(c[1..], After(c[0]), end);
      }
    } else {
      TilesAt(c[1..], After(c[0]), end, i - 1);
    }
  }

  lemma {:induction false} TilesUpper(c: seq<Block>, begin: nat, end: nat)
    requires Tiles(c, begin, end)
    ensures begin + HEADER * |c| <= end
  {
    if c != [] {
      TilesUpper(c[1..], After(c[0]), end);
    }
  }

  /** Two adjacent tilings make one, and a tiling splits at any block. */
  lemma {:induction false} TilesConcat(x: seq<Block>, y: seq<Block>, begin: nat, middle: nat, end: nat)
    requires Tiles(x, begin, middle) && Tiles(y, middle, end)
    ensures Tiles(x + y, begin, end)
  {
    if x == [] {
      assert x + y == y;
    } else {
      TilesConcat(x[1..], y, After(x[0]), middle, end);
      assert (x + y)[1..] == x[1..] + y;
    }
  }

  lemma {:induction false} TilesSplit(c: seq<Block>, begin: nat, end: nat, i: nat)
    requires Tiles(c, begin, end) && i < |c|
    ensures Tiles(c[..i], begin, c[i].addr)
    ensures Tiles(c[i + 1..], After(c[i]), end)
  {
    if i == 0 {
      assert c[..0] == [];
    } else {
      TilesSplit(c[1..], After(c[0]), end, i - 1);
      assert c[..i][1..] == c[1..][..i - 1];
      assert c[i + 1..] == c[1..][i..];
    }
  }

  /** Addresses strictly increase along a tiling. */
  lemma {:induction false} AddressesIncrease(c: seq<Block>, begin: nat, end: nat, i: nat, j: nat)
    requires Tiles(c, begin, end) && i < j < |c|
    ensures After(c[i]) <= c[j].addr
    decreases j
  {
    TilesAt(c, begin, end, i);
    if i + 1 < j {
      TilesAt(c, begin, end, j - 1);
      AddressesIncrease(c, begin, end, i, j - 1);
    }
  }

  lemma {:induction false} TotalIsSpan(c: seq<Block>, begin: nat, end: nat)
    requires Tiles(c, begin, end)
    ensures begin + TotalCapacity(c) + HEADER * |c| == end
  {
    if c != [] {
      TotalIsSpan(c[1..], After(c[0]), end);
    }
  }

  // ---- Live blocks ----

  lemma {:induction false} LiveMembers(c: seq<Block>)
    ensures forall b :: b in Live(c) <==> b in c && !IsFree(b)
    ensures |Live(c)| <= |c|
  {
    if c != [] {
      LiveMembers(c[1..]);
      assert forall b :: b in c <==> b == c[0] || b in c[1..];
    }
  }

  lemma {:induction false} LiveConcat(x: seq<Block>, y: seq<Block>)
    ensures Live(x + y) == Live(x) + Live(y)
    ensures LiveBytes(x + y) == LiveBytes(x) + LiveBytes(y)
    ensures TotalCapacity(x + y) == TotalCapacity(x) + TotalCapacity(y)
  {
    if x == [] {
      assert x + y == y;
    } else {
      var first := if IsFree(x[0]) then [] else [x[0]];
      LiveConcat(x[1..], y);
      assert (x + y)[0] == x[0] && (x + y)[1..] == x[1..] + y;
      assert Live(x + y) == first + (Live(x[1..]) + Live(y));
      assert Live(x) == first + Live(x[1..]);
    }
  }

  lemma {:induction false} LiveBytesOfLive(c: seq<Block>)
    ensures LiveBytes(c) == TotalCapacity(Live(c)) <= TotalCapacity(c)
  {
    if c != [] {
      LiveBytesOfLive(c[1..]);
      if !IsFree(c[0]) {
        assert Live(c) == [c[0]] + Live(c[1..]);
        assert Live(c)[1..] == Live(c[1..]);
      } else {
        assert Live(c) == Live(c[1..]);
      }
    }
  }

  /** The live blocks around position i. */
  lemma LiveAround(c: seq<Block>, i: nat, b: Block)
    requires i < |c|
    ensures Live(c[i := b]) == Live(c[..i]) + Live([b]) + Live(c[i + 1..])
    ensures LiveBytes(c[i := b]) == LiveBytes(c[..i]) + LiveBytes([b]) + LiveBytes(c[i + 1..])
  {
    assert c[i := b] == (c[..i] + [b]) + c[i + 1..];
    LiveConcat(c[..i] + [b], c[i + 1..]);
    LiveConcat(c[..i], [b]);
  }

  // ---- Coalescing ----

  function Merged(a: Block, b: Block): Block {
    a.(capacity := a.capacity + HEADER + b.capacity)
  }

  /** One left-to-right pass that merges every run of free neighbours. */
  function Coalesce(c: seq<Block>): seq<Block>
    decreases |c|
  {
    if |c| <= 1 then c
    else if IsFree(c[0]) && IsFree(c[1]) then Coalesce([Merged(c[0], c[1])] + c[2..])
    else [c[0]] + Coalesce(c[1..])
  }

  /** Where the same pass leaves a cursor: a cursor on a removed block moves
      to the block that absorbed it. */
  function MovedCursor(c: seq<Block>, cursor: nat): nat
    decreases |c|
  {
    if |c| <= 1 then cursor
    else if IsFree(c[0]) && IsFree(c[1]) then
      MovedCursor([Merged(c[0], c[1])] + c[2..], if cursor == c[1].addr then c[0].addr else cursor)
    else MovedCursor(c[1..], cursor)
  }

  lemma {:induction false} CoalesceTiles(c: seq<Block>, begin: nat, end: nat)
    requires Tiles(c, begin, end) && GoodCapacities(c)
    ensures Tiles(Coalesce(c), begin, end) && GoodCapacities(Coalesce(c))
    ensures c != [] ==> Coalesce(c) != []
    decreases |c|
  {
    if |c| <= 1 {
    } else if IsFree(c[0]) && IsFree(c[1]) {
      var d := [Merged(c[0], c[1])] + c[2..];
      assert c[1..][1..] == c[2..] == d[1..];
      assert After(d[0]) == After(c[1]);
      forall i | 0 <= i < |d| ensures GoodCapacity(d[i]) {
        assert GoodCapacity(c[0]) && GoodCapacity(c[1]);
        if i > 0 { assert d[i] == c[i + 1]; }
      }
      CoalesceTiles(d, begin, end);
    } else {
      CoalesceTiles(c[1..], After(c[0]), end);
      assert Coalesce(c)[1..] == Coalesce(c[1..]);
    }
  }

  lemma {:induction false} CoalesceKeepsLive(c: seq<Block>)
    ensures Live(Coalesce(c)) == Live(c) && LiveBytes(Coalesce(c)) == LiveBytes(c)
    decreases |c|
  {
    if |c| <= 1 {
    } else if IsFree(c[0]) && IsFree(c[1]) {
      var d := [Merged(c[0], c[1])] + c[2..];
      CoalesceKeepsLive(d);
      assert d[1..] == c[2..] == c[1..][1..];
    } else {
      CoalesceKeepsLive(c[1..]);
      assert Coalesce(c)[1..] == Coalesce(c[1..]);
    }
  }

  lemma {:induction false} CoalesceIsCanonical(c: seq<Block>)
    ensures Canonical(Coalesce(c))
    ensures c != [] ==> Coalesce(c) != [] && Coalesce(c)[0].owner == c[0].owner
    decreases |c|
  {
    if |c| <= 1 {
    } else if IsFree(c[0]) && IsFree(c[1]) {
      CoalesceIsCanonical([Merged(c[0], c[1])] + c[2..]);
    } else {
      CoalesceIsCanonical(c[1..]);
      var r := Coalesce(c[1..]);
      forall i {:trigger Coalesce(c)[i]} | 0 <= i < |Coalesce(c)| - 1
        ensures !(IsFree(Coalesce(c)[i]) && IsFree(Coalesce(c)[i + 1]))
      {
        if i > 0 {
          assert Coalesce(c)[i] == r[i - 1] && Coalesce(c)[i + 1] == r[i];
        }
      }
    }
  }

  lemma {:induction false} CursorStaysInChain(c: seq<Block>, cursor: nat)
    requires HasAddr(c, cursor)
    ensures HasAddr(Coalesce(c), MovedCursor(c, cursor))
    decreases |c|
  {
    var i :| 0 <= i < |c| && c[i].addr == cursor;
    if |c| <= 1 {
    } else if IsFree(c[0]) && IsFree(c[1]) {
      var d := [Merged(c[0], c[1])] + c[2..];
      var moved := if cursor == c[1].addr then c[0].addr else cursor;
      assert d[0].addr == c[0].addr;
      if moved != c[0].addr {
        assert i >= 2;
        assert d[i - 1] == c[i];
      }
      CursorStaysInChain(d, moved);
    } else if i > 0 {
      assert c[1..][i - 1] == c[i];
      CursorStaysInChain(c[1..], cursor);
      var j :| 0 <= j < |Coalesce(c[1..])| && Coalesce(c[1..])[j].addr == MovedCursor(c[1..], cursor);
      assert Coalesce(c)[j + 1] == Coalesce(c[1..])[j];
    } else if exists j :: 0 <= j < |c[1..]| && c[1..][j].addr == cursor {
      CursorStaysInChain(c[1..], cursor);
      var j :| 0 <= j < |Coalesce(c[1..])| && Coalesce(c[1..])[j].addr == MovedCursor(c[1..], cursor);
      assert Coalesce(c)[j + 1] == Coalesce(c[1..])[j];
    } else {
      CursorElsewhere(c[1..], cursor);
      assert Coalesce(c)[0].addr == cursor;
    }
  }

  lemma {:induction false} CursorElsewhere(c: seq<Block>, cursor: nat)
    requires !HasAddr(c, cursor)
    ensures MovedCursor(c, cursor) == cursor
    decreases |c|
  {
    if |c| <= 1 {
    } else if IsFree(c[0]) && IsFree(c[1]) {
      var d := [Merged(c[0], c[1])] + c[2..];
      assert c[1].addr != cursor;
      forall i | 0 <= i < |d| ensures d[i].addr != cursor {
        assert d[i].addr == (if i == 0 then c[0] else c[i + 1]).addr;
      }
      CursorElsewhere(d, cursor);
    } else {
      forall i | 0 <= i < |c[1..]| ensures c[1..][i].addr != cursor {
        assert c[1..][i] == c[i + 1];
      }
      CursorElsewhere(c[1..], cursor);
    }
  }

  // ---- Canonical form ----

  lemma {:induction false} LiveStartsAfter(c: seq<Block>, begin: nat, end: nat)
    requires Tiles(c, begin, end)
    ensures forall i :: 0 <= i < |Live(c)| ==> begin <= Live(c)[i].addr
  {
    LiveMembers(c);
    forall i | 0 <= i < |Live(c)| ensures begin <= Live(c)[i].addr {
      assert Live(c)[i] in Live(c);
      var k :| 0 <= k < |c| && c[k] == Live(c)[i];
      TilesAt(c, begin, end, k);
    }
  }

  /** A canonical tiling is determined by its live allocations: two block lists
      over the same arena that hold the same allocations are the same list. */
  lemma {:induction false} CanonicalIsUnique(c: seq<Block>, d: seq<Block>, begin: nat, end: nat)
    requires Tiles(c, begin, end) && Tiles(d, begin, end)
    requires Canonical(c) && Canonical(d)
    requires Live(c) == Live(d)
    ensures c == d
    decreases |c|
  {
    if c == [] || d == [] {
      if c != [] { TilesUpper(c, begin, end); }
      if d != [] { TilesUpper(d, begin, end); }
    } else {
      LiveStartsAfter(c[1..], After(c[0]), end);
      LiveStartsAfter(d[1..], After(d[0]), end);
      if IsFree(c[0]) && IsFree(d[0]) {
        NextIsLive(c, begin, end);
        NextIsLive(d, begin, end);
        assert c[0] == d[0];
      } else {
        assert !IsFree(c[0]) ==> Live(c)[0] == c[0];
        assert !IsFree(d[0]) ==> Live(d)[0] == d[0];
        assert c[0] == d[0];
        assert Live(c) == [c[0]] + Live(c[1..]) && Live(d) == [d[0]] + Live(d[1..]);
        assert Live(c[1..]) == Live(c)[1..] == Live(d)[1..] == Live(d[1..]);
      }
      CanonicalTail(c);
      CanonicalTail(d);
      CanonicalIsUnique(c[1..], d[1..], After(c[0]), end);
      assert c == [c[0]] + c[1..] && d == [d[0]] + d[1..];
    }
  }

  lemma CanonicalTail(c: seq<Block>)
    requires Canonical(c) && c != []
    ensures Canonical(c[1..])
  {
    var t := c[1..];
    forall i {:trigger t[i]} | 0 <= i < |t| - 1 ensures !(IsFree(t[i]) && IsFree(t[i + 1])) {
      assert t[i] == c[i + 1] && t[i + 1] == c[i + 2];
    }
  }

  /** In a canonical list a leading free block ends where the first live
      block starts, or at the end of the arena. */
  lemma NextIsLive(c: seq<Block>, begin: nat, end: nat)
    requires Tiles(c, begin, end) && Canonical(c) && c != [] && IsFree(c[0])
    ensures After(c[0]) == if Live(c) == [] then end else Live(c)[0].addr
    ensures Live(c) == Live(c[1..])
  {
    assert Live(c) == Live(c[1..]);
    if |c| > 1 {
      assert !(IsFree(c[0]) && IsFree(c[0 + 1]));
      var t := c[1..];
      assert t[0] == c[1] && t[0].addr == After(c[0]);
      assert Live(t) == [t[0]] + Live(t[1..]);
    } else {
      assert c[1..] == [];
    }
  }
}
