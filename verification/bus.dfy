/**
  The register access layer of the CFI flash driver, replaced by an abstract
  bus. Every volatile 16-bit access the driver performs becomes one `Event`;
  an operation is modelled as a pure function returning the ordered trace of
  events it emits together with its result. What the chip answers to a read
  is supplied by a read oracle, standing for the chip in whatever mode the
  preceding commands put it in.
 */
module Bus {

  /** A 16-bit cell value (the driver's `UINT2`). */
  type Word = x: int | 0 <= x < 0x1_0000

  /** One byte of the caller's buffer or of the mapped flash window. */
  type Byte = x: int | 0 <= x < 0x100

  /** A bus address. Pointer arithmetic is taken to be exact (no wrap-around). */
  type Address = nat

  /** The chip as seen through 16-bit reads. */
  type ReadOracle = Address -> Word

  /** The mapped flash window as seen through byte loads. */
  type ByteMemory = Address -> Byte

  datatype Event =
    | Write(addr: Address, val: Word)     // one volatile 16-bit store
    | Read(addr: Address)                 // one volatile 16-bit load
    | Poll(addr: Address, expected: Word) // a status poll waiting for `expected` at `addr`
    | Load(addr: Address)                 // one byte load of the mapped flash window

  /** The driver's return codes: `SUCCESS` is 1 and `FAILURE` is 0. */
  datatype Status = Success | Failure

  datatype Option<T> = None | Some(value: T)

  /** The trace an operation emits and the value it returns. */
  datatype Reply<T> = Reply(trace: seq<Event>, value: T)

  // Fixed offsets of the two-cycle unlock handshake and the command codes.
  const Unlock1Offset: nat := 0xAAA
  const Unlock2Offset: nat := 0x554
  const Unlock1Data: Word := 0xAA
  const Unlock2Data: Word := 0x55
  const CommandOffset: nat := 0xAAA
  const QueryOffset: nat := 0xAA

  const FlashResetCmd: Word := 0xF0
  const ReadIdCodesCmd: Word := 0x90
  const ReadQueryCmd: Word := 0x98
  const WriteBufferLoadCmd: Word := 0x25
  const WriteByteCmd: Word := 0xA0
  const WriteBufferConfirmCmd: Word := 0x29
  const BlockEraseStartCmd: Word := 0x80
  const BlockEraseFinishCmd: Word := 0x30

  /** The value a poll waits for after an erase: an erased cell reads all ones. */
  const ErasedWord: Word := 0xFFFF

  /** Events `i` and `i+1` of `t` are the unlock handshake relative to `u`. */
  ghost predicate UnlockAt(t: seq<Event>, i: nat, u: Address) {
    && i + 2 <= |t|
    && t[i] == Write(u + Unlock1Offset, Unlock1Data)
    && t[i + 1] == Write(u + Unlock2Offset, Unlock2Data)
  }

  /** Events `i` .. `i+2` of `t` are a soft reset of the device at `base`. */
  ghost predicate ResetAt(t: seq<Event>, i: nat, base: Address) {
    && i + 3 <= |t|
    && UnlockAt(t, i, base)
    && t[i + 2] == Write(base, FlashResetCmd)
  }

  /** The trace leaves the chip in read-array mode: its last three events are a reset. */
  ghost predicate EndsWithReset(t: seq<Event>, base: Address) {
    |t| >= 3 && ResetAt(t, |t| - 3, base)
  }

  /** No event of `t` is a store. */
  ghost predicate WriteFree(t: seq<Event>) {
    forall i :: 0 <= i < |t| ==> !t[i].Write?
  }

  /** No event of `t` is a 16-bit load. */
  ghost predicate ReadFree(t: seq<Event>) {
    forall i :: 0 <= i < |t| ==> !t[i].Read?
  }
}
