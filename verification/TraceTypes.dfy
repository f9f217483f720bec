/** Trace events, ring inputs and stored records. */
module TraceTypes {
  import opened Words

  const NO_TASK: u16 := 0xFFFF
  const SCHEMA: u16 := 1
  const MAX_BATCH := 5

  const KERNEL_START: u8 := 1
  const TASK_CREATE: u8 := 2
  const TASK_RELEASE: u8 := 3
  const TASK_SELECT: u8 := 4
  const SELECT_CANDIDATE: u8 := 5
  const TASK_START: u8 := 6
  const TASK_PREEMPT: u8 := 7
  const TASK_YIELD: u8 := 8
  const TASK_SLEEP: u8 := 9
  const TASK_WAKE: u8 := 10
  const TASK_EXIT: u8 := 11
  const CONTEXT_SWITCH: u8 := 12
  const IDLE_START: u8 := 13
  const IDLE_STOP: u8 := 14
  const DEADLINE_MET: u8 := 15
  const DEADLINE_MISS: u8 := 16
  const ALLOC: u8 := 17
  const FREE: u8 := 18
  const TASK_WAIT_PERIOD: u8 := 19
  const TASK_RELEASE_SKIPPED: u8 := 20
  const OWNER_RELEASE: u8 := 21
  const OVERFLOW: u8 := 22

  /** What a producer hands to the ring. Flags are zero in schema 1. */
  datatype Input = Input(event: u8, flags: u8, task: u16, related: u16, value0: u32, value1: u32, value2: u32)

  datatype Record = Record(
    tick: u64,
    sequence: u32,
    schema: u16,
    event: u8,
    flags: u8,
    task: u16,
    related: u16,
    value0: u32,
    value1: u32,
    value2: u32)

  /** The counters and clock that closing a ring snapshots. */
  datatype Final = Final(attempted: u32, emitted: u32, dropped: u32, finalSequence: u32, flags: u32, finalTick: u64)

  predicate EventValid(event: u8) {
    KERNEL_START <= event <= OVERFLOW
  }

  function Stamped(tick: u64, sequence: u32, i: Input): Record {
    Record(tick, sequence, SCHEMA, i.event, i.flags, i.task, i.related, i.value0, i.value1, i.value2)
  }
}
