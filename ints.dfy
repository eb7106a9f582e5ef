/**
 Go's fixed-width integers. Dafny integers are unbounded, so every Go conversion or
 arithmetic step that can wrap around is written with Wrap32 / Wrap64 (two's complement).
 */
module Ints {
  const Two32: int := 0x1_0000_0000
  const Two64: int := 0x1_0000_0000_0000_0000

  type uint8 = x: int | 0 <= x < 0x100
  type uint32 = x: int | 0 <= x < 0x1_0000_0000
  type uint64 = x: int | 0 <= x < 0x1_0000_0000_0000_0000
  type int32 = x: int | -0x8000_0000 <= x < 0x8000_0000
  type int64 = x: int | -0x8000_0000_0000_0000 <= x < 0x8000_0000_0000_0000

  const MaxUint32: uint32 := 0xFFFF_FFFF

  /** The int32 that Go's `int32(x)` yields: x reduced modulo 2^32 into the signed range. */
  function Wrap32(x: int): (r: int32)
    ensures (r - x) % Two32 == 0
    ensures -0x8000_0000 <= x < 0x8000_0000 ==> r == x
  {
    (x + 0x8000_0000) % Two32 - 0x8000_0000
  }

  /** The int64 that Go's int64 arithmetic yields for the mathematical value x. */
  function Wrap64(x: int): (r: int64)
    ensures -0x8000_0000_0000_0000 <= x < 0x8000_0000_0000_0000 ==> r == x
  {
    (x + 0x8000_0000_0000_0000) % Two64 - 0x8000_0000_0000_0000
  }

  lemma Wrap64Congruent(x: int)
    ensures (Wrap64(x) - x) % Two64 == 0
  {
  }

  /** Subtracting a multiple of 2^64 does not change the residue. */
  lemma ModShift64(x: int, q: int)
    ensures (x - Two64 * q) % Two64 == x % Two64
  {
    var r, d := x % Two64, x / Two64;
    assert x == Two64 * d + r;
    assert x - Two64 * q == Two64 * (d - q) + r;
  }

  /** Wrapping an intermediate result does not change the final wrapped value. */
  lemma WrapAdd64(a: int, b: int)
    ensures Wrap64(Wrap64(a) + b) == Wrap64(a + b)
    ensures Wrap64(a + Wrap64(b)) == Wrap64(a + b)
  {
    ModShift64(a + b + 0x8000_0000_0000_0000, (a + 0x8000_0000_0000_0000) / Two64);
    ModShift64(a + b + 0x8000_0000_0000_0000, (b + 0x8000_0000_0000_0000) / Two64);
  }

  /** Doubling an int64 in Go is doubling the exact value and wrapping once. */
  lemma WrapDouble64(a: int)
    ensures Wrap64(Wrap64(a) * 2) == Wrap64(a * 2)
  {
    calc {
      Wrap64(Wrap64(a) * 2);
      Wrap64(Wrap64(a) + Wrap64(a));
      { WrapAdd64(a, Wrap64(a)); }
      Wrap64(a + Wrap64(a));
      { WrapAdd64(a, a); }
      Wrap64(a + a);
    }
  }
}
