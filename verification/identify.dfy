/**
  The identification and query engine: autoselect reads of the manufacturer
  and device IDs, CFI query reads of the geometry table, and the geometry
  request dispatcher `GetInfo`.
 */
module Identify {
  import opened Bus
  import opened Bits
  import opened Sequencer

  // Offsets of the ID and query cells. The query table is 16 bits wide, so
  // CFI field n sits at byte offset n << 1.
  const CfiManufacturer: nat := 0x00 * 2
  const CfiDevice: nat := 0x01 * 2
  const CfiSize: nat := 0x27 * 2
  const CfiBlockSizeLo: nat := 0x2F * 2
  const CfiBlockSizeHi: nat := 0x30 * 2
  const ExtendedIdCycle2: nat := 0x1C
  const ExtendedIdCycle3: nat := 0x1E

  /** The low device-ID byte announcing that two more ID bytes follow. */
  const ExtendedIdSentinel: nat := 0x7E

  /** One autoselect read: unlock, enter ID mode, read `addr`, reset. */
  function GetManId(base: Address, addr: Address, chip: ReadOracle): (r: Reply<Word>)
    ensures |r.trace| == 7
    ensures UnlockAt(r.trace, 0, base)
    ensures r.trace[2] == Write(base + CommandOffset, ReadIdCodesCmd)
    ensures r.trace[3] == Read(addr)
    ensures ResetAt(r.trace, 4, base) && EndsWithReset(r.trace, base)
    ensures r.value == chip(addr)
  {
    var t := Unlock(base) + SetAutoMode(base) + [Read(addr)] + Reset(base).trace;
    Reply(t, chip(addr))
  }

  /** Reset, unlock, autoselect, then the CFI query command at `base + 0xAA`. */
  function EnterQueryMode(base: Address): (t: seq<Event>)
    ensures |t| == 7
    ensures ResetAt(t, 0, base)
    ensures UnlockAt(t, 3, base)
    ensures t[5] == Write(base + CommandOffset, ReadIdCodesCmd)
    ensures t[6] == Write(base + QueryOffset, ReadQueryCmd)
  {
    Reset(base).trace + Unlock(base) + SetAutoMode(base) + [Write(base + QueryOffset, ReadQueryCmd)]
  }

  /** One CFI query read. The chip is left in query mode: no reset follows. */
  function ReadQuery(base: Address, addr: Address, chip: ReadOracle): (r: Reply<Word>)
    ensures |r.trace| == 8
    ensures ResetAt(r.trace, 0, base) && UnlockAt(r.trace, 3, base)
    ensures r.trace[5] == Write(base + CommandOffset, ReadIdCodesCmd)
    ensures r.trace[6] == Write(base + QueryOffset, ReadQueryCmd)
    ensures r.trace[7] == Read(addr)
    ensures !EndsWithReset(r.trace, base)
    ensures r.value == chip(addr)
  {
    Reply(EnterQueryMode(base) + [Read(addr)], chip(addr))
  }

  /**
    Erase-block size from two query fields: the pair (lo, hi) counts the
    block in units of 256 bytes. The chip is left in query mode.
   */
  function GetBlkSize(base: Address, addr1: Address, addr2: Address, chip: ReadOracle): (r: Reply<nat>)
    ensures r.trace == ReadQuery(base, addr1, chip).trace + [Read(addr2)]
    ensures !EndsWithReset(r.trace, base)
    ensures r.value % 256 == 0
    ensures r.value / 256 == ReadQuery(base, addr1, chip).value + 256 * chip(addr2)
  {
    var t := EnterQueryMode(base) + [Read(addr1), Read(addr2)];
    Reply(t, (chip(addr1) + 256 * chip(addr2)) * 256)
  }

  /**
    The device ID: the low byte of the device cell, and when that byte is the
    extended-ID sentinel, the low bytes of two more ID cells folded into bits
    8..15 and 16..23.
   */
  function DeviceId(base: Address, addr: Address, chip: ReadOracle): (r: Reply<nat>)
    ensures r.value % 256 == chip(Or(addr, CfiDevice)) % 256
    ensures r.value < 0x100_0000
    ensures chip(Or(addr, CfiDevice)) % 256 != ExtendedIdSentinel ==>
      && r.value < 256
      && r.trace == GetManId(base, Or(addr, CfiDevice), chip).trace
    ensures chip(Or(addr, CfiDevice)) % 256 == ExtendedIdSentinel ==>
      && (r.value / 256) % 256 == chip(Or(addr, ExtendedIdCycle2)) % 256
      && r.value / 0x1_0000 == chip(Or(addr, ExtendedIdCycle3)) % 256
      && r.trace == GetManId(base, Or(addr, CfiDevice), chip).trace
                    + GetManId(base, Or(addr, ExtendedIdCycle2), chip).trace
                    + GetManId(base, Or(addr, ExtendedIdCycle3), chip).trace
  {
    var first := GetManId(base, Or(addr, CfiDevice), chip);
    var id := LowByte(first.value);
    if id == ExtendedIdSentinel then
      var second := GetManId(base, Or(addr, ExtendedIdCycle2), chip);
      var b1 := LowByte(second.value);
      var third := GetManId(base, Or(addr, ExtendedIdCycle3), chip);
      var b2 := LowByte(third.value);
      ExtendedIdValue(b1, b2);
      Reply(first.trace + second.trace + third.trace, Or(Or(id, b1 * 256), b2 * 0x1_0000))
    else
      Reply(first.trace, id)
  }

  /** The arithmetic behind the extended device ID. */
  lemma ExtendedIdValue(b1: nat, b2: nat)
    requires b1 < 256 && b2 < 256
    ensures var id := Or(Or(ExtendedIdSentinel, b1 * 256), b2 * 0x1_0000);
      && id == ExtendedIdSentinel + 256 * b1 + 0x1_0000 * b2
      && id % 256 == ExtendedIdSentinel
      && (id / 256) % 256 == b1
      && id / 0x1_0000 == b2
      && id < 0x100_0000
  {
    ExtendedIdOr(b1, b2);
    ByteFields(ExtendedIdSentinel, b1, b2);
  }

  lemma ExtendedIdOr(b1: nat, b2: nat)
    requires b1 < 256 && b2 < 256
    ensures Or(Or(ExtendedIdSentinel, b1 * 256), b2 * 0x1_0000) == ExtendedIdSentinel + 256 * b1 + 0x1_0000 * b2
  {
    Pow2Values();
    OrShifted(ExtendedIdSentinel, b1, 8);
    OrShifted(ExtendedIdSentinel + b1 * 256, b2, 16);
  }

  lemma ByteFields(b0: nat, b1: nat, b2: nat)
    requires b0 < 256 && b1 < 256 && b2 < 256
    ensures var id := b0 + 256 * b1 + 0x1_0000 * b2;
      && id % 256 == b0
      && (id / 256) % 256 == b1
      && id / 0x1_0000 == b2
      && id < 0x100_0000
  {
    var hi := b1 + 256 * b2;
    assert b0 + 256 * b1 + 0x1_0000 * b2 == b0 + 256 * hi;
  }

  /**
    On a device address aligned to 256 bytes, every `addr | offset` the
    driver forms is plain `addr + offset`: the identification and geometry
    cells sit at their CFI offsets from `addr`.
   */
  lemma QueryAddressesAligned(addr: nat)
    requires addr % 256 == 0
    ensures Or(addr, CfiManufacturer) == addr
    ensures Or(addr, CfiDevice) == addr + 0x02
    ensures Or(addr, ExtendedIdCycle2) == addr + 0x1C
    ensures Or(addr, ExtendedIdCycle3) == addr + 0x1E
    ensures Or(addr, CfiSize) == addr + 0x4E
    ensures Or(addr, CfiBlockSizeLo) == addr + 0x5E
    ensures Or(addr, CfiBlockSizeHi) == addr + 0x60
  {
    Pow2Values();
    OrAligned(addr, CfiManufacturer, 8);
    OrAligned(addr, CfiDevice, 8);
    OrAligned(addr, ExtendedIdCycle2, 8);
    OrAligned(addr, ExtendedIdCycle3, 8);
    OrAligned(addr, CfiSize, 8);
    OrAligned(addr, CfiBlockSizeLo, 8);
    OrAligned(addr, CfiBlockSizeHi, 8);
  }

  /** The geometry keys; `Other` stands for every code outside the five handled ones. */
  datatype InfoKey =
    | GetFlashBase
    | GetManufacturer
    | GetDevice
    | GetSizeBits
    | GetBlockSize
    | Other(code: Word)

  /**
    What a geometry request emits, the status it returns, and what it stores
    through its result pointer (`None` when it stores nothing).
   */
  datatype InfoReply = InfoReply(trace: seq<Event>, status: Status, result: Option<nat>)

  function GetInfo(base: Address, addr: Address, which: InfoKey, chip: ReadOracle): (r: InfoReply)
    ensures r.status == Failure <==> which.Other?
    ensures r.status == Failure ==> r.result == None && r.trace == []
    ensures r.status == Success ==> r.result.Some?
    ensures which == GetFlashBase ==> r.result == Some(base) && r.trace == []
    ensures which == GetManufacturer ==>
      && r.result == Some(chip(addr))
      && EndsWithReset(r.trace, base)
    ensures which == GetDevice ==>
      && r.result.Some? && r.result.value < 0x100_0000
      && r.result.value % 256 == chip(Or(addr, CfiDevice)) % 256
    ensures which == GetSizeBits ==>
      && r.result == Some(chip(Or(addr, CfiSize)))
      && |r.trace| == 8 && r.trace[7] == Read(Or(addr, CfiSize))
    ensures which == GetBlockSize ==>
      r.result == Some((chip(Or(addr, CfiBlockSizeLo)) + 256 * chip(Or(addr, CfiBlockSizeHi))) * 256)
  {
    match which
    case GetFlashBase =>
      InfoReply([], Success, Some(base))
    case GetManufacturer =>
      var m := GetManId(base, Or(addr, CfiManufacturer), chip);
      InfoReply(m.trace, Success, Some(m.value))
    case GetDevice =>
      var d := DeviceId(base, addr, chip);
      InfoReply(d.trace, Success, Some(d.value))
    case GetSizeBits =>
      var q := ReadQuery(base, Or(addr, CfiSize), chip);
      InfoReply(q.trace, Success, Some(q.value))
    case GetBlockSize =>
      var b := GetBlkSize(base, Or(addr, CfiBlockSizeLo), Or(addr, CfiBlockSizeHi), chip);
      InfoReply(b.trace, Success, Some(b.value))
    case Other(_) =>
      InfoReply([], Failure, None)
  }
}
