/**
  The read path. Reading the flash array needs no command cycle: the driver
  copies bytes straight out of the mapped window, bypassing the register
  access layer, so the copy emits byte loads and nothing else.
 */
module ReadPath {
  import opened Bus

  /**
    Copy `len` bytes from `base + addr` into a fresh buffer; the call always
    reports success. `memcpy` fixes neither the width nor the order of its
    loads; they are modelled as one byte load per byte, in increasing
    address order.
   */
  method ReadBuff(base: Address, addr: Address, len: Word, memory: ByteMemory)
    returns (trace: seq<Event>, buf: seq<Byte>, status: Status)
    ensures |buf| == len
    ensures forall i :: 0 <= i < len ==> buf[i] == memory(base + addr + i)
    ensures |trace| == len
    ensures forall i :: 0 <= i < len ==> trace[i] == Load(base + addr + i)
    ensures WriteFree(trace)
    ensures status == Success
  {
    trace, buf := [], [];
    var i := 0;
    while i < len
      invariant 0 <= i <= len
      invariant |buf| == i && |trace| == i
      invariant forall j :: 0 <= j < i ==> buf[j] == memory(base + addr + j)
      invariant forall j :: 0 <= j < i ==> trace[j] == Load(base + addr + j)
    {
      trace := trace + [Load(base + addr + i)];
      buf := buf + [memory(base + addr + i)];
      i := i + 1;
    }
    status := Success;
  }
}
