/** The PendSV entry code in its own form: it stores R4-R11 through the process
    stack pointer, calls the kernel, and loads them through the pointer that
    comes back. */
module ContextMachine {
  import opened Words
  import opened Scheduler
  import opened KernelModel
  import opened KernelInvariant
  import opened KernelSteps
  import opened Context
  import KernelMachine

  const UNPRIVILEGED_PSP := 2

  /** These are the stacks once the outgoing registers have been pushed. */
  ghost predicate SavedTo(k: Kernel, c: Core, stacks: seq<u32>) {
    if k.active then
      && c.psp >= 32 && CoreOk(c) && 0 <= Index(k, c.psp - 32) && Index(k, c.psp - 32) + REGISTERS <= STACK_WORDS
      && stacks == Overwritten(c.stacks, Index(k, c.psp - 32), c.regs)
    else stacks == c.stacks
  }

  class Cortex {
    const system: KernelMachine.System
    const registers: array<u32>
    const stacks: array<u32>
    var psp: nat
    var control: nat
    var primask: bool

    constructor (system: KernelMachine.System, registers: array<u32>, stacks: array<u32>)
      requires registers.Length == REGISTERS && stacks.Length == STACK_WORDS
      ensures this.system == system && this.registers == registers && this.stacks == stacks && psp == 0 && !primask
    {
      this.system, this.registers, this.stacks := system, registers, stacks;
      psp, control, primask := 0, 0, false;
    }

    ghost predicate Valid()
      reads this, system, system.Repr(), registers, stacks
    {
      && registers.Length == REGISTERS && stacks.Length == STACK_WORDS && registers != stacks
      && system.Valid() && registers !in system.Repr() && stacks !in system.Repr() && this !in system.Repr()
    }

    lemma Sizes()
      requires Valid()
      ensures registers.Length == REGISTERS && stacks.Length == STACK_WORDS && system.Valid()
    {
    }

    ghost function CoreState(): Core
      reads this, registers, stacks
    {
      Core(psp, registers[..], stacks[..])
    }

    /** stmdb r0!, {r4-r11} */
    method StoreRegisters(base: nat)
      requires registers.Length == REGISTERS && stacks.Length == STACK_WORDS && registers != stacks
      requires base + REGISTERS <= STACK_WORDS
      modifies stacks
      ensures stacks[..] == Overwritten(old(stacks[..]), base, registers[..])
    {
      for i := 0 to REGISTERS
        invariant forall j :: 0 <= j < STACK_WORDS ==> stacks[j] == if base <= j < base + i then registers[j - base]
                  else old(stacks[j])
      {
        stacks[base + i] := registers[i];
      }
    }

    /** ldmia r0!, {r4-r11} */
    method LoadRegisters(base: nat)
      requires registers.Length == REGISTERS && stacks.Length == STACK_WORDS && registers != stacks
      requires base + REGISTERS <= STACK_WORDS
      modifies registers
      ensures registers[..] == stacks[base..base + REGISTERS]
    {
      for i := 0 to REGISTERS
        invariant forall j :: 0 <= j < i ==> registers[j] == stacks[base + j]
      {
        registers[i] := stacks[base + i];
      }
    }

    /** Where the words at an address lie in the stack pool. */
    function WordAt(address: nat): int
    {
      (address - system.stackPool) / 4
    }

    /** Push the registers when a context is active; the stack pointer to save,
        or none. */
    method SaveContext(ghost w: World) returns (r0: nat)
      requires Valid() && primask && Inv(w) && w.k == system.State()
      requires system.pending && (system.active ==> RoomToSave(w.k, psp))
      modifies stacks
      ensures Valid() && primask && system.State() == old(system.State())
      ensures r0 == if w.k.active then psp - 32 else 0
      ensures SavedTo(w.k, old(CoreState()), stacks[..])
    {
      hide Inv, PspValid, PendSv, KernelMachine.System.Valid, KernelMachine.System.State;
      system.Fields();
      Usable(w, psp);
      r0 := 0;
      if system.active {
        r0 := psp - 32;
        StoreRegisters(WordAt(r0));
      }
    }

    /** Reload the registers from a stack pointer and continue above them. */
    method ReloadContext(r0: nat)
      requires Valid() && primask && 0 <= WordAt(r0) && WordAt(r0) + REGISTERS <= STACK_WORDS
      modifies this`psp, this`control, registers
      ensures Valid() && primask && system.State() == old(system.State())
      ensures psp == r0 + 32 && control == UNPRIVILEGED_PSP
      ensures registers[..] == stacks[WordAt(r0)..WordAt(r0) + REGISTERS]
    {
      hide KernelMachine.System.Valid, KernelMachine.System.State;
      LoadRegisters(WordAt(r0));
      psp := r0 + 32;
      control := UNPRIVILEGED_PSP;
    }

    /** Set or restore the interrupt mask. */
    method Mask(held: bool)
      requires Valid()
      modifies this`primask
      ensures Valid() && primask == held && CoreState() == old(CoreState()) && system.State() == old(system.State())
      ensures system.Repr() == old(system.Repr())
    {
      hide KernelMachine.System.Valid, KernelMachine.System.State;
      primask := held;
    }

    /** The kernel's part of the switch leaves the core alone. */
    method Choose(saved: nat) returns (panic: Option<PanicReason>, resume: nat)
      requires Valid() && primask
      modifies system.Repr()
      ensures Valid() && CoreState() == old(CoreState()) && primask && system.Repr() == old(system.Repr())
      ensures KernelMachine.Agrees(PendSv(old(system.State()), saved), system.State(), panic, resume)
    {
      hide PendSv, KernelMachine.System.Valid, KernelMachine.System.State;
      panic, resume := system.SwitchContext(saved);
    }

    /** PendSV_Handler, from a kernel state that satisfies the invariant. The
        interrupt mask is taken before the push and restored after the reload:
        the push, the kernel's choice and the reload each demand that it is held. */
    method PendSvHandler(ghost w: World) returns (panic: Option<PanicReason>)
      requires Valid() && Inv(w) && w.k == system.State()
      requires system.pending && (system.active ==> RoomToSave(w.k, psp))
      modifies this, registers, stacks, system.Repr()
      ensures Valid() && panic == None && primask == old(primask) && control == UNPRIVILEGED_PSP
      ensures SwitchedTo(w.k, old(CoreState()), system.State(), CoreState())
    {
      hide Inv, PspValid, PendSv, KernelMachine.System.Valid, KernelMachine.System.State, KernelMachine.System.Repr,
           SwitchedTo, RoomToSave, SavedTo, Valid;
      Sizes();
      ghost var before := CoreState();
      system.Fields();
      Usable(w, psp);
      var mask := primask;
      Mask(true);
      var r0 := SaveContext(w);
      ghost var pushed := stacks[..];
      panic, r0 := Choose(r0);
      if r0 == 0 { return Some(ArchPsp); }
      ReloadContext(r0);
      Mask(mask);
      SwitchIsDone(w.k, before, CoreState(), pushed, r0);
    }
  }

  /** The push, the choice and the reload make up the switch. */
  lemma SwitchIsDone(k: Kernel, before: Core, after: Core, pushed: seq<u32>, resume: nat)
    requires Formed(k) && CoreOk(before)
    requires (k.active ==> RoomToSave(k, before.psp)) && SavedTo(k, before, pushed)
    requires var o := PendSv(k, if k.active then before.psp - 32 else 0); o.Go? && o.result == resume
    requires resume != 0 && 0 <= Index(k, resume) && Index(k, resume) + REGISTERS <= STACK_WORDS
    requires after == Core(resume + 32, pushed[Index(k, resume)..Index(k, resume) + REGISTERS], pushed)
    ensures SwitchedTo(k, before, PendSv(k, if k.active then before.psp - 32 else 0).k, after)
  {
    hide PendSv, PspValid;
  }

  /** The pushes and reloads of a switch stay inside the stack pool, and the
      kernel returns a real stack pointer. */
  lemma Usable(w: World, psp: nat)
    requires Inv(w) && Formed(w.k) && w.k.pending && (w.k.active ==> RoomToSave(w.k, psp))
    ensures w.k.active ==> psp >= 32 && 0 <= Index(w.k, psp - 32) && Index(w.k, psp - 32) + REGISTERS <= STACK_WORDS
    ensures var o := PendSv(w.k, if w.k.active then psp - 32 else 0);
      o.Go? && o.result != 0 && 0 <= Index(w.k, o.result) && Index(w.k, o.result) + REGISTERS <= STACK_WORDS
  {
    hide Inv, PendSv, PspValid, Enabled;
    var saved := if w.k.active then psp - 32 else 0;
    if w.k.active {
      CurrentOccupied(w);
      FrameInSlot(w.k, w.k.current, psp - 32);
    }
    SwitchIsEnabled(w, psp);
    SwitchStacks(w, saved);
    SwitchOccupancy(w, saved);
    PendSvHolds(w, saved);
    var o := PendSv(w.k, saved);
    ResumeInSlot(World(o.k, w.first, w.k.excluded));
    PspIsNotNull(o.k, o.k.current, o.result);
  }

  lemma SwitchIsEnabled(w: World, psp: nat)
    requires Formed(w.k) && w.k.pending && (w.k.active ==> RoomToSave(w.k, psp))
    ensures Enabled(w.k, PendSvEvent(if w.k.active then psp - 32 else 0))
  {
    hide PspValid;
  }
}
