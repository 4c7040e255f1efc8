# nupic::Random in Dafny

A model of `nupic::Random` (src/nupic/utils/Random.hpp), the generator that
NuPIC uses for reproducible, randomised code. A generator holds an
immutable `seed` and the state `gen` of a 64-bit Mersenne-Twister engine
seeded with it. It offers:

- `getUInt32(max)`, a bounded integer: the next raw engine word modulo `max`;
- `operator()(n)`, an alias of `getUInt32(n)` for STL algorithms;
- `shuffle(first, last)`, an in-place shuffle of a range;
- `sample(population, nChoices)`: copy the population, shuffle the copy and
  keep its first `nChoices` elements; plus an array overload of it;
- `getSeed`, `operator!=` and the constant `MAX32`.

Layout, one module per component:

- `bit_engine.dfy`, module `BitEngine`: the fixed-width integer types and the
  engine state `EngineState(algorithm, seed, draws)`. `algorithm(seed, k)` is
  the k-th raw word the engine yields for a seed. The Mersenne-Twister
  algorithm is defined by the standard library, not by Random.hpp, so it is a
  parameter of the model: every result holds for every fixed, deterministic algorithm.
- `bounded_reduction.dfy`, module `BoundedReduction`: `MAX32` and `Reduce`,
  the remainder reduction that `getUInt32` applies.
- `sampling.dfy`, module `SamplingAlgorithms`: Fisher-Yates and `sample` as
  functions of the engine state, with their permutation, frame, draw-count
  and size laws.
- `random.dfy`, module `NupicRandom`: class `Random` with fields `seed` and
  `gen`. Its methods advance `gen` in place and shuffle arrays in place. Each
  method's postcondition ties the new array and engine state to the functions
  above.

`std::shuffle` is modelled by a descending Fisher-Yates loop. For each offset
p from the top of the range down to 1 it draws one raw word w and exchanges
the element at offset p with the one at offset `w % (p+1)`. Like
`std::shuffle(first, last, gen)`, it draws from the engine itself, not
through `getUInt32`.

## Model

| member | source | states |
|---|---|---|
| BitEngine.Seeded | src/nupic/utils/Random.hpp:160-161 | a freshly seeded engine carries the seed, has drawn nothing, and its k-th output is the algorithm's k-th word for that seed |
| BoundedReduction.ToUInt32 | src/nupic/utils/Random.hpp:152 | the 32-bit two's-complement reinterpretation: identity on [0, 2^32), adds 2^32 to negative values down to -2^32 |
| BoundedReduction.Max32IsAllOnes | src/nupic/utils/Random.hpp:152 | `MAX32 = (UInt32)((Int32)(-1))` is 0xFFFFFFFF |
| BoundedReduction.Reduce | src/nupic/utils/Random.hpp:97-100 | for max > 0 the result lies in [0, max), is the remainder of raw divided by max, and is raw itself when raw < max |
| BoundedReduction.DefaultBoundExcludesAllOnes | src/nupic/utils/Random.hpp:97-100 | with the default bound MAX32 the result is never 0xFFFFFFFF |
| SamplingAlgorithms.FisherYates | src/nupic/utils/Random.hpp:134-136 | the value-level shuffle: for each offset p from the top of the range down to 1, draw one raw word w and exchange offsets p and `w % (p+1)`; returns the rearranged sequence and the advanced engine (its laws are the FisherYates* lemmas below) |
| SamplingAlgorithms.FisherYatesPermutes | src/nupic/utils/Random.hpp:134-136 | the shuffle keeps the length and the multiset of the sequence |
| SamplingAlgorithms.FisherYatesFrame | src/nupic/utils/Random.hpp:134-136 | every element outside the shuffled range is left where it was |
| SamplingAlgorithms.FisherYatesDraws | src/nupic/utils/Random.hpp:134-136 | shuffling n elements advances the engine by exactly max(n-1, 0) draws |
| SamplingAlgorithms.FisherYatesDone | src/nupic/utils/Random.hpp:134-136 | a range of at most one element is left alone and nothing is drawn |
| SamplingAlgorithms.ShuffleRange | src/nupic/utils/Random.hpp:134-136 | after shuffle(first, last) the range holds a permutation of its old contents and the elements before first and from last on are unchanged |
| SamplingAlgorithms.FisherYatesKeepsDistinct | src/nupic/utils/Random.hpp:134-136 | a shuffle of a duplicate-free sequence is duplicate-free |
| SamplingAlgorithms.Sampled | src/nupic/utils/Random.hpp:113-123 | the value-level sample: an empty result for zero choices, the failed check for more choices than elements, otherwise a full shuffle of a copy truncated to nChoices (its laws are SampleLaws and the lemmas below) |
| SamplingAlgorithms.SampleLaws | src/nupic/utils/Random.hpp:113-123 | nChoices == 0 gives an empty result with no draw; nChoices > size fails the check with its message and no draw; otherwise exactly nChoices elements, a sub-multiset of the population, after one full shuffle's draws; nChoices == size gives a permutation |
| SamplingAlgorithms.SampleWithoutReplacement | src/nupic/utils/Random.hpp:119-122 | sampling a duplicate-free population yields duplicate-free choices |
| SamplingAlgorithms.SampleDrawsFromPopulation | src/nupic/utils/Random.hpp:119-122 | every chosen element occurs in the population |
| SamplingAlgorithms.SamplesNest | src/nupic/utils/Random.hpp:119-121 | from the same engine state a smaller sample is a prefix of a larger one, and both leave the engine in the same state |
| NupicRandom.Random.constructor | src/nupic/utils/Random.hpp:80 | an explicitly seeded generator: `seed` is the given seed and `gen` the engine freshly seeded with it |
| NupicRandom.Random.Equals | src/nupic/utils/Random.hpp:89 | equal generators have the same seed and will yield the same next raw word |
| NupicRandom.Random.NotEquals | src/nupic/utils/Random.hpp:89-92 | generators with different seeds are unequal; generators running the same algorithm from the same seed are unequal exactly when their draw counts differ |
| NupicRandom.Random.GetSeed | src/nupic/utils/Random.hpp:145 | returns the seed the engine was seeded with |
| NupicRandom.Random.Next | src/nupic/utils/Random.hpp:99 | one engine call returns the current raw word and advances `gen` by exactly one draw; the seed is unchanged |
| NupicRandom.Random.GetUInt32 | src/nupic/utils/Random.hpp:97-100 | requires max > 0 (default MAX32); returns a value below max, namely the next raw word reduced modulo max, and advances `gen` by exactly one draw |
| NupicRandom.Random.Apply | src/nupic/utils/Random.hpp:139-142 | requires n > 0; the same result and the same state change as getUInt32(n) |
| NupicRandom.Random.Shuffle | src/nupic/utils/Random.hpp:134-136 | the new array contents and engine state are exactly the Fisher-Yates function of the old ones over [first, last) |
| NupicRandom.Random.Sample | src/nupic/utils/Random.hpp:113-123 | the result and the new engine state are exactly `Sampled` of the population and the old state; the population is a value and cannot change |
| NupicRandom.Random.SampleToArray | src/nupic/utils/Random.hpp:125-130 | samples the first nPopulation array elements; on success writes the choices into exactly the first nChoices slots and leaves the rest; on a failed check writes nothing and draws nothing |
| NupicRandom.DivergeAfterDraw | src/nupic/utils/Random.hpp:89-100 | of two generators built from the same seed, one that has drawn once more than the other (one getUInt32) compares unequal to it under `!=` |
| NupicRandom.ReplayFromSeed | src/nupic/utils/Random.hpp:49-50 | two generators built with the same seed and given the same calls (a run of getUInt32 with the same bounds, a shuffle of equal arrays, one sample) return identical results, each draw below its bound |

## Left out

- NupicRandom.Random.constructor: takes an explicit non-zero seed only. A
  seed of 0 asks for a fresh seed from `GetRandomSeed`. The constructor is
  only declared in Random.hpp, and its definition in Random.cpp is not
  modelled.
- NupicRandom.Random.Equals: `operator==` is only declared. It is modelled
  as equality of seed and engine state. It is a ghost predicate because the
  engine state holds the algorithm as a function value.
- SamplingAlgorithms.FisherYatesDraws: counts the draws of this model's
  Fisher-Yates loop. `std::shuffle`'s own draw pattern is standard-library
  code and differs between implementations.
- NupicRandom.Random.GetUInt32, NupicRandom.Random.Apply: `NTA_ASSERT(max > 0)`
  and `NTA_ASSERT(n > 0)` are treated as preconditions. The throw that the
  assertion raises when compiled in is not modelled, and neither is the
  division `gen() % 0` that follows when it is compiled out.
- NupicRandom.ReplayFromSeed: replays on one platform only. The header promises
  the same sequence on all platforms and drops `uniform_int_distribution` for
  that reason. But `shuffle`, and `sample` through it, still call
  `std::shuffle`, whose index derivation and draws are library-defined.
  Identical shuffles and samples across standard libraries are therefore
  not claimed. Only `getUInt32` and `operator()` are platform-independent.
- `getReal64`: floating-point division, not modelled. It divides by
  `max()`, not `max() + 1`, so its documented range [0, 1.0) is not
  guaranteed by the code.
- `save`/`load`, `saveToFile`/`loadFromFile`, `operator<<`/`operator>>`:
  stream and file I/O. The stream operators are only declared in Random.hpp,
  and their definitions in Random.cpp are not modelled, so no round-trip
  law is stated.
- `GetRandomSeed` and the process-wide seeder: global mutable state. It is
  only declared in Random.hpp, and its definition in Random.cpp is not
  modelled.
- The internals of `std::mt19937_64`: the engine is an arbitrary fixed
  algorithm supplied at construction.
- The STL typedefs and `min()`/`max()`: they only expose the engine's range.
- Types.hpp, Log.hpp and Serializable.hpp are not part of this model. `UInt`
  is taken to be 32 bits wide. `NTA_CHECK`'s exception is a `Failure`
  result carrying the check's message.
- Thread safety: a generator is a single-threaded object. Concurrent use
  is not modelled.
- src/examples/hotgym/HelloSPTP.cpp: benchmark orchestration (timers,
  console output, other NuPIC algorithms) that only calls `getUInt32` and
  `getReal64`.
