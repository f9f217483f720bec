/** What callers get: when initialisation succeeds and what it sets up, what each
    service answers, and what SysTick does to the clock. */
module KernelCalls {
  import opened Words
  import opened Scheduler
  import opened TraceTypes
  import opened TraceSelection
  import opened KernelModel
  import opened KernelTasks
  import opened KernelInvariant
  import opened KernelSteps
  import opened KernelRuns
  import opened HeapChain
  import HeapModel
  import HeapLaws
  import KernelRequests
  import KernelReplay

  // ---- Initialisation ----

  function RoundedUp(x: nat): nat {
    (x + 7) / 8 * 8
  }

  function RoundedDown(x: nat): nat {
    x / 8 * 8
  }

  /** Initialisation succeeds exactly when the stack pool is aligned and the
      heap region holds, between aligned bounds, a header and one doubleword.
      The kernel then has one task, idle, at the top of the first kilobyte of the
      pool, one free block between those bounds, and nothing recorded. */
  lemma BootSucceedsExactly(stackPool: nat, heapStart: u32, heapStop: u32)
    ensures Boot(stackPool, heapStart, heapStop).Go? <==>
            && stackPool != 0 && stackPool % 8 == 0
            && 0 < heapStart <= 0xFFFF_FFF8 && RoundedUp(heapStart) + 32 <= RoundedDown(heapStop)
    ensures var o := Boot(stackPool, heapStart, heapStop);
      o.Go? ==>
        && o.k.heap.begin == o.k.heap.nextFit == RoundedUp(heapStart) && o.k.heap.end == RoundedDown(heapStop)
        && o.k.heap.chain == [Block(o.k.heap.begin, o.k.heap.end - o.k.heap.begin - 24, NO_OWNER)]
        && o.k.now == 0 && !o.k.running && !o.k.active && !o.k.pending && o.k.log == []
        && |o.k.tcbs| == |o.k.tasks| == TASK_COUNT
        && o.k.tcbs[0].low == stackPool && o.k.tcbs[0].high == stackPool + 1024
        && o.k.tcbs[0].savedPsp == stackPool + 1024 - 64
        && o.k.tasks[0].state.Ready?
        && forall i :: 1 <= i < TASK_COUNT ==> o.k.tasks[i].state.Dormant? && !o.k.tcbs[i].claimed
  {
    hide HeapModel.AlignUp, HeapModel.AlignDown, HeapModel.Init;
    if heapStop > heapStart {
      ArenaHolds(heapStart, heapStop);
    } else {
      RoundingShrinks(heapStart, heapStop);
    }
  }

  lemma RoundingShrinks(start: u32, stop: u32)
    ensures start <= RoundedUp(start) < start + 8 && stop - 8 < RoundedDown(stop) <= stop
  {
  }

  lemma ArenaHolds(heapStart: u32, heapStop: u32)
    requires heapStart < heapStop
    ensures var h := HeapModel.Init(heapStart, heapStop - heapStart);
      && (h.Some? <==> 0 < heapStart <= 0xFFFF_FFF8 && RoundedUp(heapStart) + 32 <= RoundedDown(heapStop))
      && (h.Some? ==>
            && h.value.begin == h.value.nextFit == RoundedUp(heapStart) && h.value.end == RoundedDown(heapStop)
            && h.value.chain == [Block(h.value.begin, h.value.end - h.value.begin - 24, NO_OWNER)])
  {
    RoundingShrinks(heapStart, heapStop);
  }

  // ---- Services of the running task ----

  /** A sleep of 1 to 2^31 - 1 ticks is accepted; any other changes nothing. */
  lemma SleepAnswers(w: World, ticks: u32)
    requires Inv(w) && Formed(w.k) && InService(w.k) && Sleep(w.k, ticks).Go?
    ensures var o := Sleep(w.k, ticks);
      if 1 <= ticks <= 2147483647 then o.result == 1 && o.k.pending else o.result == 0 && o.k == w.k
  {
    hide Inv, SleepJob, Low32, High32;
  }

  /** Only a periodic task can wait for its next period. */
  lemma WaitAnswers(w: World)
    requires Inv(w) && Formed(w.k) && InService(w.k)
    ensures var o := WaitPeriod(w.k);
      && o.Go?
      && (if w.k.tasks[w.k.current].kind.Periodic? then o.result == 1 && o.k.pending else o.result == 0 && o.k == w.k)
  {
    hide Inv, WaitNextPeriod, Low32, High32, EmitOutcome;
    WaitPeriodHolds(w);
  }

  /** The caller is a user task that really runs. */
  predicate UserRuns(k: Kernel)
    requires Formed(k)
  {
    k.running && k.active && 1 <= k.current < TASK_COUNT && k.tasks[k.current].state.Running?
  }

  /** An allocation returns null exactly when nothing fits, and otherwise the
      payload of a block that now belongs to the caller; whoever is not a running
      user task gets null and changes nothing. The record names the request and
      the offset that was returned. */
  lemma AllocAnswers(w: World, size: u32)
    requires Reachable(w) && Formed(w.k) && HeapModel.HasCursor(w.k.heap)
    ensures var o := MemoryAlloc(w.k, size);
      && o.Go?
      && (if UserRuns(w.k) then
            && (o.result != 0 <==> HeapLaws.Serviceable(w.k.heap, size, w.k.current))
            && (o.result != 0 ==> exists b :: b in Live(o.k.heap.chain) && b.addr + 24 == o.result
                                               && b.owner == w.k.current && b.capacity >= size)
            && |o.k.log| == |w.k.log| + 1 && |o.k.log[|w.k.log|].inputs| == 1
            && var i := o.k.log[|w.k.log|].inputs[0];
               && i.event == ALLOC && i.task == w.k.current && i.value0 == size
               && (if o.result == 0 then i.value1 == 0xFFFF_FFFF && i.value2 == 0
                   else o.result == w.k.heapStart + i.value1 && i.value2 == 1)
          else o.result == 0 && o.k == w.k)
  {
    hide Inv, HeapModel.Alloc, HeapLaws.Serviceable, Live, HeapLaws.FirstFit, KernelReplay.HeldBy, Reachable;
    ReachableIsGood(w);
    InvGivesHeap(w);
    if MayUseHeap(w.k) {
      RunnerIsUser(w);
      HeapLaws.AllocFailsExactly(w.k.heap, size, w.k.current);
      KernelReplay.AllocHeld(w.k, size);
      if HeapLaws.Serviceable(w.k.heap, size, w.k.current) {
        GrantIsLive(w.k.heap, size, w.k.current);
      }
    }
  }

  lemma GrantIsLive(h: HeapModel.Heap, size: u32, owner: u16)
    requires HeapModel.HeapInv(h) && HeapLaws.Serviceable(h, size, owner)
    ensures var (h', p) := HeapModel.Alloc(h, size, owner);
      exists b :: b in Live(h'.chain) && b.addr + 24 == p && b.owner == owner && b.capacity >= size
  {
    hide Tiles, GoodCapacities, Canonical, LiveBytes, Live, HeapModel.Alloc, HeapLaws.FirstFit;
    var i := HeapLaws.AllocIsNextFit(h, size, owner);
    var g := HeapLaws.Granted(h.chain, i, HeapModel.Rounded(size).value, owner);
    FitsIsBigEnough(h, i, size);
    assert g in Live(HeapModel.Alloc(h, size, owner).0.chain);
  }

  lemma FitsIsBigEnough(h: HeapModel.Heap, i: nat, size: u32)
    requires HasAddr(h.chain, h.nextFit) && HeapModel.Rounded(size).Some?
    requires i < |h.chain| && HeapLaws.FirstFit(h, HeapModel.Rounded(size).value, i)
    ensures h.chain[i].capacity >= HeapModel.Rounded(size).value >= size
  {
  }

  lemma InvGivesHeap(w: World)
    requires Inv(w)
    ensures HeapOk(w.k) && HeapModel.HeapInv(w.k.heap)
  {
    hide TaskOk, StacksOk, CadenceOk, FirstOk, PhaseOk, TableOk, Live;
  }

  lemma RunnerIsUser(w: World)
    requires Inv(w) && Formed(w.k) && MayUseHeap(w.k)
    ensures 1 <= w.k.current < TASK_COUNT && UserRuns(w.k)
  {
    hide TaskOk, StacksOk, CadenceOk, FirstOk, HeapOk;
  }

  /** A free answers 1 exactly for the null pointer and for the payload of a
      block the caller holds, and releases no other; whoever is not a running
      user task gets 0 and changes nothing. */
  lemma FreeAnswers(w: World, pointer: u32)
    requires Reachable(w) && Formed(w.k)
    ensures var o := MemoryFree(w.k, pointer);
      && o.Go?
      && (if UserRuns(w.k) then
            && (o.result == if pointer == 0
                               || exists b :: b in Live(w.k.heap.chain) && b.addr + 24 == pointer
                                              && b.owner == w.k.current then 1 else 0)
            && (o.result == 0 || pointer == 0 ==> o.k.heap.chain == w.k.heap.chain)
          else o.result == 0 && o.k == w.k)
  {
    hide Inv, HeapModel.FreeBlock, HeapLaws.Removes, Live, Reachable, PointerOffset, HeapModel.HeapInv;
    ReachableIsGood(w);
    InvGivesHeap(w);
    if MayUseHeap(w.k) {
      RunnerIsUser(w);
      if pointer == 0 {
        NullIsFreed(w.k.heap, w.k.current);
      } else {
        HeapLaws.FreeRemovesExactlyThatBlock(w.k.heap, pointer, w.k.current);
        LiveOfOwner(w.k.heap.chain, pointer, w.k.current);
      }
    }
  }

  lemma NullIsFreed(h: HeapModel.Heap, owner: u16)
    ensures HeapModel.FreeBlock(h, 0, owner) == (h, true)
  {
  }

  lemma LiveOfOwner(c: seq<Block>, pointer: nat, owner: u16)
    ensures (exists i :: 0 <= i < |c| && Payload(c[i]) == pointer && !IsFree(c[i]) && c[i].owner == owner) <==>
            (exists b :: b in Live(c) && b.addr + 24 == pointer && b.owner == owner)
  {
    hide Live;
    LiveMembers(c);
    if exists b :: b in Live(c) && b.addr + 24 == pointer && b.owner == owner {
      var b :| b in Live(c) && b.addr + 24 == pointer && b.owner == owner;
      var i :| 0 <= i < |c| && c[i] == b;
      assert Payload(c[i]) == pointer;
    }
  }

  // ---- SysTick ----

  /** SysTick counts the tick, and before the kernel runs it does nothing. */
  lemma TickCounts(w: World)
    requires Inv(w) && Formed(w.k) && Tick(w.k).Go?
    ensures if w.k.running then Tick(w.k).k.now == w.k.now + 1 else Tick(w.k).k == w.k
  {
    hide Inv, Probed, TickTask, TickTable, TickInputs, SomeReady, SomeExhausted, Singles;
    if w.k.running {
      ProbeKeepsClock(Ticked(w.k));
    }
  }

  lemma ProbeKeepsClock(k: Kernel)
    requires Formed(k)
    ensures k.current < TASK_COUNT && k.tasks[k.current].state.Running? && Probed(k).Go? ==> Probed(k).k.now == k.now
  {
    hide Select, SelectionBatch, Outranks;
  }
}
