/**
 * The platform-independent reduction of a raw 64-bit engine word to a
 * bounded 32-bit value used by getUInt32: a plain remainder, kept bit for
 * bit (modulo bias included) so that every platform reduces alike.
 */
module BoundedReduction {
  import opened BitEngine

  /** Two's-complement reinterpretation of an integer as a 32-bit unsigned value. */
  function ToUInt32(x: int): (r: UInt32)
    ensures 0 <= x < 0x1_0000_0000 ==> r == x
    ensures -0x1_0000_0000 <= x < 0 ==> r == x + 0x1_0000_0000
  {
    x % 0x1_0000_0000
  }

  /** The default bound of getUInt32: (UInt32)((Int32)(-1)). */
  const MAX32: UInt32 := ToUInt32(-1)

  lemma Max32IsAllOnes()
    ensures MAX32 == 0xFFFF_FFFF
  {
  }

  /** The value getUInt32(max) returns for a raw engine word. */
  function Reduce(raw: UInt64, max: UInt32): (r: UInt32)
    requires max > 0
    ensures r < max
    ensures raw == (raw / max) * max + r
    ensures raw < max ==> r == raw
  {
    raw % max
  }

  /** With the default bound the all-ones word 0xFFFFFFFF is never returned. */
  lemma DefaultBoundExcludesAllOnes(raw: UInt64)
    ensures Reduce(raw, MAX32) < 0xFFFF_FFFF
  {
    Max32IsAllOnes();
  }
}
