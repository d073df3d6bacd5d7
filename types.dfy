/** Fixed-width C integer types used by the sketch library, as subsets of int,
    with the wrap-around of unsigned and two's-complement arithmetic written out. */
module Types {

  const TWO_32: int := 0x1_0000_0000
  const TWO_63: int := 0x8000_0000_0000_0000
  const TWO_64: int := 0x1_0000_0000_0000_0000

  /** uint64_t */
  type U64 = x: int | 0 <= x < TWO_64
  /** uint32_t */
  type U32 = x: int | 0 <= x < TWO_32
  /** int (32-bit) */
  type I32 = x: int | -0x8000_0000 <= x < 0x8000_0000
  /** int64_t */
  type I64 = x: int | -TWO_63 <= x < TWO_63

  /** Reinterpret an unsigned 64-bit pattern as int64_t (two's complement). */
  function U64ToI64(u: U64): (r: I64)
    ensures r % TWO_64 == u
  {
    if u < TWO_63 then u else u - TWO_64
  }

  /** Reinterpret an int64_t as the uint64_t with the same bit pattern. */
  function I64ToU64(c: I64): (r: U64)
    ensures U64ToI64(r) == c
  {
    if c >= 0 then c else c + TWO_64
  }

  /** `counter += increment` on an int64_t counter with a uint64_t increment:
      the sum is taken modulo 2^64 and read back as a signed value. */
  function AddWrapI64(c: I64, increment: U64): (r: I64)
    ensures (r - c - increment) % TWO_64 == 0
  {
    U64ToI64((c + increment) % TWO_64)
  }

  /** Adding `d` and then its two's-complement negation brings an int64_t counter
      back to where it was, whatever wrap-around happened in between. */
  lemma {:induction false} AddWrapI64Restores(c: I64, d: U64)
    ensures AddWrapI64(AddWrapI64(c, d), (TWO_64 - d) % TWO_64) == c
  {
    var m := AddWrapI64(c, d);
    var r := AddWrapI64(m, (TWO_64 - d) % TWO_64);
    assert (m - c - d) % TWO_64 == 0;
    assert (r - m - (TWO_64 - d) % TWO_64) % TWO_64 == 0;
    assert (r - c) % TWO_64 == 0 by {
      var k1 := (m - c - d) / TWO_64;
      var k2 := (r - m - (TWO_64 - d) % TWO_64) / TWO_64;
      assert m - c - d == k1 * TWO_64;
      assert r - m - (TWO_64 - d) % TWO_64 == k2 * TWO_64;
      assert (TWO_64 - d) % TWO_64 == (if d == 0 then 0 else TWO_64 - d);
    }
    assert -TWO_64 < r - c < TWO_64;
  }

  /** Unsigned 32-bit addition, as `uint32_t` arithmetic does it. */
  function AddWrapU32(x: U32, y: U32): (r: U32)
    ensures x + y < TWO_32 ==> r == x + y
    ensures x + y >= TWO_32 ==> r == x + y - TWO_32
  {
    (x + y) % TWO_32
  }
}
