/**
  The unlock/command sequencer and the status poller: the primitive command
  cycles every privileged operation of the driver is built from.
 */
module Sequencer {
  import opened Bus

  /** The two-cycle unlock handshake relative to `u`. */
  function Unlock(u: Address): (t: seq<Event>)
    ensures |t| == 2 && UnlockAt(t, 0, u)
    ensures forall i :: 0 <= i < |t| ==> t[i].Write? && t[i].addr > u
  {
    [Write(u + Unlock1Offset, Unlock1Data), Write(u + Unlock2Offset, Unlock2Data)]
  }

  /** Soft reset: an unlock relative to `base`, then the reset command at `base` itself. */
  function Reset(base: Address): (r: Reply<Status>)
    ensures |r.trace| == 3 && ResetAt(r.trace, 0, base)
    ensures EndsWithReset(r.trace, base)
    ensures r.value == Success
  {
    Reply(Unlock(base) + [Write(base, FlashResetCmd)], Success)
  }

  /** Autoselect (ID-read) mode entry: one command write, with no unlock of its own. */
  function SetAutoMode(u: Address): (t: seq<Event>)
    ensures |t| == 1 && t[0] == Write(u + CommandOffset, ReadIdCodesCmd)
  {
    [Write(u + CommandOffset, ReadIdCodesCmd)]
  }

  /**
    The status poll. The busy wait is abstracted into one `Poll` event; the
    value it reports to its caller is always 0, whatever the chip does.
   */
  function PollStatus(addr: Address, expected: Word): (r: Reply<Word>)
    ensures r.trace == [Poll(addr, expected)]
    ensures r.value == 0
  {
    Reply([Poll(addr, expected)], 0)
  }
}
