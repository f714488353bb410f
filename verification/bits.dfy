/**
  Bitwise arithmetic on unbounded naturals: the driver forms query addresses
  with `addr | offset` and composes the extended device ID with `|` and `<<`.
 */
module Bits {

  function Pow2(k: nat): (r: nat)
    ensures r >= 1
  {
    if k == 0 then 1 else 2 * Pow2(k - 1)
  }

  /** Bitwise or, bit by bit from the least significant end. */
  function Or(a: nat, b: nat): nat
    decreases a + b
  {
    if a == 0 then b
    else if b == 0 then a
    else 2 * Or(a / 2, b / 2) + (if a % 2 == 1 || b % 2 == 1 then 1 else 0)
  }

  /** The low byte of a word (`x & 0x00ff`). */
  function LowByte(x: nat): (r: nat)
    ensures r < 256
    ensures x < 256 ==> r == x
    ensures (x - r) % 256 == 0
  {
    x % 256
  }

  lemma {:induction false} OrCommutes(a: nat, b: nat)
    ensures Or(a, b) == Or(b, a)
    decreases a + b
  {
    if a != 0 && b != 0 {
      OrCommutes(a / 2, b / 2);
    }
  }

  /**
    Or-ing a value below 2^k with a multiple of 2^k touches disjoint bits,
    so it is plain addition.
   */
  lemma {:induction false} OrShifted(a: nat, b: nat, k: nat)
    requires a < Pow2(k)
    ensures Or(a, b * Pow2(k)) == a + b * Pow2(k)
  {
    if k == 0 {
      assert a == 0;
    } else if a == 0 {
    } else if b == 0 {
      assert b * Pow2(k) == 0;
    } else {
      var p := Pow2(k - 1);
      var c := b * Pow2(k);
      assert Pow2(k) == 2 * p;
      assert c == 2 * (b * p);
      assert c > 0;
      assert c % 2 == 0 && c / 2 == b * p;
      assert a / 2 < p;
      OrShifted(a / 2, b, k - 1);
      assert Or(a, c) == 2 * Or(a / 2, c / 2) + a % 2;
    }
  }

  /** `addr | off` is `addr + off` whenever `addr` is aligned past the bits of `off`. */
  lemma OrAligned(addr: nat, off: nat, k: nat)
    requires addr % Pow2(k) == 0
    requires off < Pow2(k)
    ensures Or(addr, off) == addr + off
  {
    var q := addr / Pow2(k);
    assert addr == q * Pow2(k);
    OrShifted(off, q, k);
    OrCommutes(addr, off);
  }

  lemma Pow2Values()
    ensures Pow2(7) == 128 && Pow2(8) == 256 && Pow2(16) == 65536
  {
    assert Pow2(4) == 16;
    assert Pow2(8) == 256;
    assert Pow2(12) == 4096;
    assert Pow2(16) == 65536;
  }
}
