/**
 * The bit engine behind nupic::Random: a fixed 64-bit Mersenne-Twister
 * algorithm seeded once. Its internals are not modelled; the algorithm is an
 * arbitrary but fixed, deterministic function from a seed and a position in
 * the output sequence to a raw 64-bit word. Everything proved about the
 * generator holds for every such algorithm.
 */
module BitEngine {

  type UInt64 = x: int | 0 <= x < 0x1_0000_0000_0000_0000
  type UInt32 = x: int | 0 <= x < 0x1_0000_0000

  /** The k-th raw output of the algorithm when seeded with a given seed. */
  type Algorithm = (UInt64, nat) -> UInt64

  /**
   * The state of the engine field `gen`: which algorithm runs, the seed it
   * was seeded with, and how many raw words have been drawn since.
   */
  datatype EngineState = EngineState(algorithm: Algorithm, seed: UInt64, draws: nat) {

    /** The raw word the next call of the engine yields. */
    function Output(): UInt64 {
      algorithm(seed, draws)
    }

    /** The state after k more raw words have been drawn. */
    function Advance(k: nat): EngineState {
      this.(draws := draws + k)
    }
  }

  /** A freshly seeded engine. */
  function Seeded(algorithm: Algorithm, seed: UInt64): (g: EngineState)
    ensures g.seed == seed && g.draws == 0
    ensures forall k: nat {:trigger g.Advance(k)} :: g.Advance(k).Output() == algorithm(seed, k)
  {
    EngineState(algorithm, seed, 0)
  }
}
