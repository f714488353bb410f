/**
  An interpretation of traces by the command set: which read mode the chip
  is left in after a sequence of bus events. The interpretation is
  deliberately strict about the unlock handshake: the reset and autoselect
  commands take effect only when the two unlock cycles immediately precede
  them, and are otherwise ignored. The CFI query command needs no unlock.
  Every other event leaves the mode alone and breaks a pending handshake.

  This is a reading of the traces that is independent of how the operations
  build them. The identification and query operations are checked against
  it: their reads must land in the mode whose table they mean to read, and
  every mode change they rely on must be properly unlocked.
 */
module Modes {
  import opened Bus
  import opened Sequencer
  import opened Identify
  import opened ProgramErase
  import Bits

  datatype Mode = ReadArray | Autoselect | Query

  /** The read mode, and how many unlock cycles (0, 1 or 2) have just been seen. */
  datatype ChipState = ChipState(mode: Mode, unlocked: nat)

  /** The effect of one event on the device at `base`. */
  function Step(s: ChipState, e: Event, base: Address): ChipState {
    if e == Write(base + Unlock1Offset, Unlock1Data) then
      ChipState(s.mode, 1)
    else if e == Write(base + Unlock2Offset, Unlock2Data) then
      ChipState(s.mode, if s.unlocked == 1 then 2 else 0)
    else if e == Write(base, FlashResetCmd) then
      ChipState(if s.unlocked == 2 then ReadArray else s.mode, 0)
    else if e == Write(base + CommandOffset, ReadIdCodesCmd) then
      ChipState(if s.unlocked == 2 then Autoselect else s.mode, 0)
    else if e == Write(base + QueryOffset, ReadQueryCmd) then
      ChipState(Query, 0)
    else
      ChipState(s.mode, 0)
  }

  /** The state after all of `t`, starting from `s`. */
  function StateAfter(s: ChipState, t: seq<Event>, base: Address): ChipState {
    if |t| == 0 then s else Step(StateAfter(s, t[.. |t| - 1], base), t[|t| - 1], base)
  }

  lemma {:induction false} StateAfterConcat(s: ChipState, a: seq<Event>, b: seq<Event>, base: Address)
    ensures StateAfter(s, a + b, base) == StateAfter(StateAfter(s, a, base), b, base)
    decreases |b|
  {
    if |b| == 0 {
      assert a + b == a;
    } else {
      assert (a + b)[.. |a + b| - 1] == a + b[.. |b| - 1];
      StateAfterConcat(s, a, b[.. |b| - 1], base);
    }
  }

  /** After an unlock handshake at `i`, both cycles have been seen, whatever came before. */
  lemma UnlockedAfter(s: ChipState, t: seq<Event>, i: nat, base: Address)
    requires UnlockAt(t, i, base)
    ensures StateAfter(s, t[.. i + 2], base).unlocked == 2
  {
    assert t[.. i + 2][.. i + 1] == t[.. i + 1];
    assert t[.. i + 1][.. i] == t[.. i];
  }

  /** An unlocked reset at `i` puts the chip in read-array mode. */
  lemma ResetTakesEffect(s: ChipState, t: seq<Event>, i: nat, base: Address)
    requires ResetAt(t, i, base)
    ensures StateAfter(s, t[.. i + 3], base).mode == ReadArray
  {
    UnlockedAfter(s, t, i, base);
    assert t[.. i + 3][.. i + 2] == t[.. i + 2];
  }

  /** A trace that ends with a reset leaves the chip in read-array mode. */
  lemma EndsInReadArray(s: ChipState, t: seq<Event>, base: Address)
    requires EndsWithReset(t, base)
    ensures StateAfter(s, t, base).mode == ReadArray
  {
    ResetTakesEffect(s, t, |t| - 3, base);
    assert t[.. |t|] == t;
  }

  /**
    The unlock handshake is what makes a reset take effect: from any state,
    `Unlock(base)` followed by 0xF0 at `base` gives read-array mode, while the
    bare 0xF0 leaves a chip in query mode where it was.
   */
  lemma UnlockEnablesReset(s: ChipState, base: Address)
    ensures StateAfter(s, Unlock(base) + [Write(base, FlashResetCmd)], base).mode == ReadArray
    ensures StateAfter(ChipState(Query, 0), [Write(base, FlashResetCmd)], base).mode == Query
  {
    var t := Unlock(base) + [Write(base, FlashResetCmd)];
    assert ResetAt(t, 0, base);
    ResetTakesEffect(s, t, 0, base);
    assert t[.. 3] == t;
    assert [Write(base, FlashResetCmd)][.. 0] == [];
  }

  /** Every read in `t`, started in state `s`, is issued while the chip is in mode `want`. */
  ghost predicate ReadsIn(t: seq<Event>, s: ChipState, base: Address, want: Mode) {
    forall i :: 0 <= i < |t| && t[i].Read? ==> StateAfter(s, t[.. i], base).mode == want
  }

  lemma ReadsInConcat(a: seq<Event>, b: seq<Event>, s: ChipState, base: Address, want: Mode)
    requires ReadsIn(a, s, base, want)
    requires ReadsIn(b, StateAfter(s, a, base), base, want)
    ensures ReadsIn(a + b, s, base, want)
  {
    var t := a + b;
    forall i | 0 <= i < |t| && t[i].Read?
      ensures StateAfter(s, t[.. i], base).mode == want
    {
      if i < |a| {
        assert t[.. i] == a[.. i];
        assert t[i] == a[i];
      } else {
        var j := i - |a|;
        assert t[.. i] == a + b[.. j];
        assert t[i] == b[j];
        StateAfterConcat(s, a, b[.. j], base);
      }
    }
  }

  /**
    The read of `GetManId` is made in autoselect mode, entered through a
    proper unlock, and the chip is left in read-array mode.
   */
  lemma ManIdModes(base: Address, addr: Address, chip: ReadOracle, s: ChipState)
    ensures ReadsIn(GetManId(base, addr, chip).trace, s, base, Autoselect)
    ensures StateAfter(s, GetManId(base, addr, chip).trace, base).mode == ReadArray
  {
    var t := GetManId(base, addr, chip).trace;
    UnlockedAfter(s, t, 0, base);
    assert t[.. 3][.. 2] == t[.. 2];
    forall i | 0 <= i < |t| && t[i].Read?
      ensures StateAfter(s, t[.. i], base).mode == Autoselect
    {
      assert i == 3;
    }
    EndsInReadArray(s, t, base);
  }

  /** The query read of `ReadQuery` is made in CFI query mode, and the chip stays there. */
  lemma QueryModes(base: Address, addr: Address, chip: ReadOracle, s: ChipState)
    ensures ReadsIn(ReadQuery(base, addr, chip).trace, s, base, Query)
    ensures StateAfter(s, ReadQuery(base, addr, chip).trace, base).mode == Query
  {
    var t := ReadQuery(base, addr, chip).trace;
    assert t[.. 7][.. 6] == t[.. 6];
    assert StateAfter(s, t[.. 7], base).mode == Query;
    forall i | 0 <= i < |t| && t[i].Read?
      ensures StateAfter(s, t[.. i], base).mode == Query
    {
      assert i == 7;
    }
    assert t[.. 8][.. 7] == t[.. 7];
    assert t[.. 8] == t;
  }

  /** Both reads of `GetBlkSize` are made in CFI query mode, and the chip stays there. */
  lemma BlkSizeModes(base: Address, addr1: Address, addr2: Address, chip: ReadOracle, s: ChipState)
    ensures ReadsIn(GetBlkSize(base, addr1, addr2, chip).trace, s, base, Query)
    ensures StateAfter(s, GetBlkSize(base, addr1, addr2, chip).trace, base).mode == Query
  {
    var q := ReadQuery(base, addr1, chip).trace;
    var t := GetBlkSize(base, addr1, addr2, chip).trace;
    QueryModes(base, addr1, chip, s);
    assert t == q + [Read(addr2)];
    assert t[.. 8] == q;
    forall i | 0 <= i < |t| && t[i].Read?
      ensures StateAfter(s, t[.. i], base).mode == Query
    {
      if i < 8 {
        assert t[.. i] == q[.. i];
        assert t[i] == q[i];
      }
    }
    assert t[.. 9][.. 8] == q;
    assert t[.. 9] == t;
  }

  /** Every read of the device-ID decode, one cycle or three, is made in autoselect mode. */
  lemma DeviceIdModes(base: Address, addr: Address, chip: ReadOracle, s: ChipState)
    ensures ReadsIn(DeviceId(base, addr, chip).trace, s, base, Autoselect)
    ensures StateAfter(s, DeviceId(base, addr, chip).trace, base).mode == ReadArray
  {
    var a := GetManId(base, Bits.Or(addr, CfiDevice), chip).trace;
    ManIdModes(base, Bits.Or(addr, CfiDevice), chip, s);
    if chip(Bits.Or(addr, CfiDevice)) % 256 == ExtendedIdSentinel {
      var b := GetManId(base, Bits.Or(addr, ExtendedIdCycle2), chip).trace;
      var c := GetManId(base, Bits.Or(addr, ExtendedIdCycle3), chip).trace;
      ManIdModes(base, Bits.Or(addr, ExtendedIdCycle2), chip, StateAfter(s, a, base));
      ReadsInConcat(a, b, s, base, Autoselect);
      StateAfterConcat(s, a, b, base);
      ManIdModes(base, Bits.Or(addr, ExtendedIdCycle3), chip, StateAfter(s, a + b, base));
      ReadsInConcat(a + b, c, s, base, Autoselect);
      StateAfterConcat(s, a + b, c, base);
    }
  }

  /** The mode a geometry request reads its answer in. */
  function InfoMode(which: InfoKey): Mode {
    if which == GetManufacturer || which == GetDevice then Autoselect else Query
  }

  /**
    Whatever state the chip starts in, a geometry request reads the ID cells
    in autoselect mode and the geometry table in query mode; it leaves the
    chip in read-array mode after an ID request, in query mode after a
    geometry-table request, and untouched otherwise.
   */
  lemma GetInfoModes(base: Address, addr: Address, which: InfoKey, chip: ReadOracle, s: ChipState)
    ensures ReadsIn(GetInfo(base, addr, which, chip).trace, s, base, InfoMode(which))
    ensures which == GetManufacturer || which == GetDevice ==>
      StateAfter(s, GetInfo(base, addr, which, chip).trace, base).mode == ReadArray
    ensures which == GetSizeBits || which == GetBlockSize ==>
      StateAfter(s, GetInfo(base, addr, which, chip).trace, base).mode == Query
    ensures which == GetFlashBase || which.Other? ==>
      StateAfter(s, GetInfo(base, addr, which, chip).trace, base) == s
  {
    match which
    case GetFlashBase =>
    case GetManufacturer =>
      ManIdModes(base, Bits.Or(addr, CfiManufacturer), chip, s);
    case GetDevice =>
      DeviceIdModes(base, addr, chip, s);
    case GetSizeBits =>
      QueryModes(base, Bits.Or(addr, CfiSize), chip, s);
    case GetBlockSize =>
      BlkSizeModes(base, Bits.Or(addr, CfiBlockSizeLo), Bits.Or(addr, CfiBlockSizeHi), chip, s);
    case Other(_) =>
  }

  /** A word program issues no 16-bit load and leaves the chip in read-array mode, whatever state it started in. */
  lemma WriteWordModes(base: Address, addr: Address, data: Word, s: ChipState)
    ensures ReadFree(WriteWord(base, addr, data).trace)
    ensures StateAfter(s, WriteWord(base, addr, data).trace, base).mode == ReadArray
  {
    EndsInReadArray(s, WriteWord(base, addr, data).trace, base);
  }

  /** A block erase issues no 16-bit load and leaves the chip in read-array mode, whatever state it started in. */
  lemma EraseBlkModes(base: Address, addr: Address, s: ChipState)
    ensures ReadFree(EraseBlk(base, addr).trace)
    ensures StateAfter(s, EraseBlk(base, addr).trace, base).mode == ReadArray
  {
    EndsInReadArray(s, EraseBlk(base, addr).trace, base);
  }
}
