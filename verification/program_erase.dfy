/**
  The program/erase engine for single words and whole blocks. Both operations
  consult the poller; since the poller always reports 0, their failure paths
  are kept exactly as the driver writes them but are never taken.
 */
module ProgramErase {
  import opened Bus
  import opened Sequencer

  /**
    Single-word program. The data write and the poll use `addr` as an
    absolute address, while the unlock and the program command are relative
    to `base`. On a failed poll the word write would return at once, without
    a reset.
   */
  function WriteWord(base: Address, addr: Address, data: Word): (r: Reply<Status>)
    ensures |r.trace| == 8
    ensures UnlockAt(r.trace, 0, base)
    ensures r.trace[2] == Write(base + CommandOffset, WriteByteCmd)
    ensures r.trace[3] == Write(addr, data)
    ensures r.trace[4] == Poll(addr, data)
    ensures ResetAt(r.trace, 5, base) && EndsWithReset(r.trace, base)
    ensures r.value == Success
  {
    var t := Unlock(base) + [Write(base + CommandOffset, WriteByteCmd), Write(addr, data)];
    var poll := PollStatus(addr, data);
    if poll.value != 0 then
      Reply(t + poll.trace, Failure)
    else
      Reply(t + poll.trace + Reset(base).trace, Success)
  }

  /**
    Block erase: a recovering reset, the two-command erase handshake with a
    fresh unlock before each command, a poll for the erased value, and a
    final reset that is issued whatever the poll reports.
   */
  function EraseBlk(base: Address, addr: Address): (r: Reply<Status>)
    ensures |r.trace| == 13
    ensures ResetAt(r.trace, 0, base)
    ensures UnlockAt(r.trace, 3, base)
    ensures r.trace[5] == Write(base + CommandOffset, BlockEraseStartCmd)
    ensures UnlockAt(r.trace, 6, base)
    ensures r.trace[8] == Write(base + addr, BlockEraseFinishCmd)
    ensures r.trace[9] == Poll(base + addr, ErasedWord)
    ensures ResetAt(r.trace, 10, base) && EndsWithReset(r.trace, base)
    ensures r.value == Success
  {
    var t := Reset(base).trace
      + Unlock(base) + [Write(base + CommandOffset, BlockEraseStartCmd)]
      + Unlock(base) + [Write(base + addr, BlockEraseFinishCmd)];
    var poll := PollStatus(base + addr, ErasedWord);
    var result := if poll.value != 0 then Failure else Success;
    Reply(t + poll.trace + Reset(base).trace, result)
  }
}
