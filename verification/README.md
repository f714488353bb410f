# CFI NOR flash command protocol, modelled in Dafny

This project models the command-protocol engine of a CFI (Common Flash
Interface, JEDEC JESD68) NOR flash driver, `cfiFlash.c`. The driver talks to
the chip through 16-bit volatile loads and stores. The model replaces them
with an abstract bus: every access becomes an `Event`, which is one of:

- `Write(addr, val)`: a 16-bit store;
- `Read(addr)`: a 16-bit load;
- `Poll(addr, expected)`: the status poller's busy wait;
- `Load(addr)`: a byte load of the mapped flash window.

Each driver operation is a pure function, except the read path, which is a
method with a copy loop. An operation takes `flash_base`, its own arguments
and a read oracle that stands for the chip. It returns the ordered trace of
events it emits, together with its return code or result.

The modules follow the driver's layers:

- `Bus`: event, word and status types, command codes and offsets, and trace
  predicates (`UnlockAt`, `ResetAt`, `EndsWithReset`, `WriteFree`).
- `Bits`: the bitwise `|` the driver uses to form query addresses and the
  extended device ID, with the lemma that `|` on disjoint bit ranges is `+`.
- `Sequencer`: `flashUnLock`, `flashReset`, `flashSetAutoMode` and the
  abstract `flashPollStatus`.
- `Identify`: `flashGetManId`, `flashReadQuery`, `flashGetBlkSize` and
  `flashGetInfo`, including the extended device-ID decode.
- `ProgramErase`: `flashWriteWord` and `flashEraseBlk`.
- `BufferedWrite`: `flashWriteBuff`. This covers its 16-bit length counter,
  the closed-form page layout of its trace, and what that layout gives
  callers: page shape, word order, poll count, and no final reset.
- `ReadPath`: `flashReadBuff`.
- `Modes`: an independent reading of traces by the unlock handshake and the
  three mode-changing commands (reset, autoselect, CFI query). Reset and
  autoselect take effect only straight after a full unlock. It is used to
  show that every ID read happens in autoselect mode and every geometry read
  in query mode, whatever state the chip started in, so every mode change
  the driver relies on is properly unlocked.

`flashPollStatus` always returns 0. Every `FAILURE` branch after a poll is
therefore kept as written but is never taken, and each operation's contract
says it reports success.

Several behaviours of the code look unintended; the model keeps them as
written:

- `flashWriteBuff` does not end with a reset. With `len > 0`, the last event
  of a returning call is the poll of its last page.
- `flashReadQuery` and `flashGetBlkSize` leave the chip in query mode.
- On a failed poll, `flashWriteWord` returns without a reset. That branch is
  dead.
- `flashWriteWord` writes and polls at the absolute `addr`, not at
  `flash_base + addr`.
- Every page of `flashWriteBuff` is unlocked and commanded at the fixed
  address `flash_base + addr`. Only the data address advances.

## Model

| member | source | states |
|---|---|---|
| Bits.LowByte | cfiFlash.c:129 | `x & 0x00ff` is below 256, equals `x` when `x` is already a byte, and differs from `x` by a multiple of 256 |
| Bits.OrShifted | cfiFlash.c:132-134 | or-ing a value below 2^k with a multiple of 2^k adds them, so `\|=` with a shifted byte places that byte without disturbing the lower bits |
| Bits.OrAligned | cfiFlash.c:126-141 | `addr \| off` equals `addr + off` when `addr` is aligned past every bit of `off` |
| Sequencer.Unlock | cfiFlash.c:46-50 | exactly two stores: 0xAA at `u + 0xAAA`, then 0x55 at `u + 0x554` |
| Sequencer.Reset | cfiFlash.c:68-73 | an unlock relative to `flash_base`, then 0xF0 stored at `flash_base`; three events in all; returns `SUCCESS` |
| Sequencer.SetAutoMode | cfiFlash.c:75-78 | one store of 0x90 at `u + 0xAAA`, with no unlock of its own |
| Sequencer.PollStatus | cfiFlash.c:52-65 | one poll event for `data` at `address`; the reported status is always 0 |
| Identify.GetManId | cfiFlash.c:80-87 | unlock, 0x90 at `flash_base + 0xAAA`, one read of `addr`, then reset; the result is what the chip returns at `addr` |
| Identify.EnterQueryMode | cfiFlash.c:91-95 | reset, unlock, 0x90 at `flash_base + 0xAAA`, then 0x98 at `flash_base + 0xAA` |
| Identify.ReadQuery | cfiFlash.c:89-99 | query-mode entry, then one read of `addr`, whose value is returned; no reset follows |
| Identify.GetBlkSize | cfiFlash.c:101-115 | both reads follow query-mode entry, with no reset after them; the result is `(lo + 256*hi) * 256`, a multiple of 256 |
| Identify.DeviceId | cfiFlash.c:128-136 | the low byte is the low byte of the device cell; below 2^24 always and below 256 unless that byte is 0x7E; with 0x7E, bits 8-15 and 16-23 are the low bytes of the cells at `addr\|0x1C` and `addr\|0x1E`, read by two more ID cycles |
| Identify.ExtendedIdValue | cfiFlash.c:130-134 | composing 0x7E, `b1 << 8` and `b2 << 16` with `\|` is `0x7E + 256*b1 + 65536*b2`; each byte field reads back unchanged |
| Identify.QueryAddressesAligned | cfiFlash.c:17-21 | on a 256-aligned `addr`, the manufacturer, device, extended-ID, size and block-size cells sit at `addr` + 0x00, 0x02, 0x1C, 0x1E, 0x4E, 0x5E and 0x60 |
| Identify.GetInfo | cfiFlash.c:118-149 | `FAILURE` exactly for a key outside the five handled ones, with nothing stored and no bus traffic; `flash_base` with no bus traffic; the manufacturer ID then reset; the device ID below 2^24; the size field read in query mode; the block-size formula |
| ProgramErase.WriteWord | cfiFlash.c:152-164 | unlock, 0xA0 at `flash_base + 0xAAA`, `data` at the absolute `addr`, a poll at `addr` for `data`, then reset; returns `SUCCESS` |
| ProgramErase.EraseBlk | cfiFlash.c:166-181 | reset, unlock, 0x80 at `flash_base + 0xAAA`, a second unlock, 0x30 at `flash_base + addr`, a poll there for 0xFFFF, then reset; returns `SUCCESS` |
| BufferedWrite.Block | cfiFlash.c:192-193 | a page holds `min((len+1)/2, 32)` words: at least one while bytes remain, exactly `len/2` for an even `len` of at most 64, 32 beyond 64 |
| BufferedWrite.NextLen | cfiFlash.c:212 | the 16-bit counter keeps its parity; for an even `len` it drops by exactly the bytes of the page; beyond 64 it drops by 64 |
| BufferedWrite.PageSize | cfiFlash.c:192-193 | page k of an even-length write holds between 1 and 32 words, never runs past `len/2`, and is either full or the last page |
| BufferedWrite.OddLengthNeverExits | cfiFlash.c:190-212 | for odd `len`, the counter is odd and nonzero after any number of pages, so the loop never ends |
| BufferedWrite.OddLastPageOvershoots | cfiFlash.c:192-212 | for odd `len` below 64, the page takes `len + 1` bytes and the counter wraps to 0xFFFF |
| BufferedWrite.EvenLengthExits | cfiFlash.c:190-212 | for even `len`, the counter is `len - 64k` and nonzero before page `ceil(len/64)`, and 0 after it |
| BufferedWrite.LoopExitsIffEven | cfiFlash.c:190-212 | the counter ever reaches 0 if and only if `len` is even |
| BufferedWrite.PageImageShape | cfiFlash.c:196-207 | one page: unlock at the page address, 0x25, then the word count minus one (at most 31), then the words at consecutive 16-bit addresses, then 0x29, then a poll on the last address and word stored |
| BufferedWrite.WritePages | cfiFlash.c:190-213 | the page loop as written, including the abort-and-reset branch after a failed poll; it always reports `SUCCESS`, because the poll always reports 0 |
| BufferedWrite.PagesLayout | cfiFlash.c:190-213 | the page loop reports success, and its trace is the closed-form layout: page k at event 38k, covering words 32k onwards |
| BufferedWrite.WriteBuff | cfiFlash.c:183-215 | the call returns if and only if the length counter reaches 0; a returning call has an even `len`, reports `SUCCESS` and emits exactly the closed-form layout |
| BufferedWrite.WriteBuffPage | cfiFlash.c:194-207 | page k of a returning write, read off the whole trace: unlock, 0x25 and the count at `flash_base + addr`, the page's words, 0x29, and a poll on the last word |
| BufferedWrite.WordsLandInOrder | cfiFlash.c:186-203 | word w of the buffer is stored at `flash_base + addr + 2w`, as event `38*(w/32) + 4 + w%32`, for each of the `len/2` words |
| BufferedWrite.WriteBuffEndsWithPoll | cfiFlash.c:207-214 | a returning write of at least one word ends with a poll, not a reset |
| BufferedWrite.PagesPollCount | cfiFlash.c:190-213 | the page loop issues one poll per page |
| BufferedWrite.WriteBuffPollCount | cfiFlash.c:190-213 | a returning write polls exactly `ceil(len/64)` times |
| ReadPath.ReadBuff | cfiFlash.c:217-221 | `len` bytes copied unchanged from `flash_base + addr` onwards; no store, modelled as one byte load per byte in address order; always `SUCCESS` |
| Modes.UnlockEnablesReset | cfiFlash.c:46-50 | from any state, the unlock handshake followed by 0xF0 at `flash_base` gives read-array mode; a bare 0xF0 does not leave query mode |
| Modes.ManIdModes | cfiFlash.c:80-87 | from any starting state, the ID read happens in autoselect mode, entered through an unlock, and the chip is left in read-array mode |
| Modes.QueryModes | cfiFlash.c:89-99 | from any starting state, the query read happens in CFI query mode, and the chip stays there |
| Modes.BlkSizeModes | cfiFlash.c:101-115 | from any starting state, both block-size reads happen in query mode, and the chip stays there |
| Modes.DeviceIdModes | cfiFlash.c:128-136 | every read of the one- or three-cycle device-ID decode happens in autoselect mode; the chip ends in read-array mode |
| Modes.WriteWordModes | cfiFlash.c:152-164 | a word program issues no 16-bit load, and from any starting state leaves the chip in read-array mode |
| Modes.EraseBlkModes | cfiFlash.c:166-181 | a block erase issues no 16-bit load, and from any starting state leaves the chip in read-array mode |
| Modes.GetInfoModes | cfiFlash.c:118-149 | ID requests read in autoselect mode and end in read-array mode; geometry requests read in query mode and stay there; the other keys leave the state untouched |

## Left out

- `norFlashInit`: device-tree parsing and platform bring-up, not part of the command protocol.
- Volatile access and memory barriers: each access is one bus event, and its hardware ordering semantics are not modelled.
- Sequencer.PollStatus: the busy wait is one `Poll` event that always returns 0. In the code the wait has no bound. Its counter is a 16-bit value, and `timeout++ > TIMEOUT_MAX` compares it with 0xffffffff, which it can never exceed. So the poll returns only once the chip reads back the expected value, and otherwise hangs. The `SUCCESS` contracts of `WriteWord`, `EraseBlk`, `WritePages` and `WriteBuff` therefore describe only runs whose polls finish. The unused operation-mode argument is dropped.
- ReadPath.ReadBuff: `memcpy` does not say how wide its loads are or in what order it makes them. The model treats the copy as ascending byte loads; only the copied bytes and the absence of stores are what the driver actually guarantees.
- Physical chip behaviour: the model does not assert that an erased cell reads 0xFFFF or that programmed data reads back. What the chip answers is the read oracle's business.
- BufferedWrite.WriteBuff: the caller's `char*` buffer is taken as a sequence of 16-bit words. Byte order and pointer casts are not modelled.
- BufferedWrite.WriteBuff: for odd `len` the call is modelled only as `Diverges`. The events it emits before looping forever, and its reads past the words the caller provided, are not modelled.
- Identify.GetBlkSize: the product is an unbounded natural. A machine-width `unsigned long` could wrap it; that wrap is not modelled.
- Addresses are unbounded naturals, so pointer arithmetic never wraps.
- The numeric values of the `GET_*` keys are defined in a header that is not part of this model. The five handled keys are constructors, and every other code is `Other(code)`.
- Concurrency: the driver has none.
