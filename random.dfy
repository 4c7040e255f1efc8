/**
 * nupic::Random: a seeded generator whose immutable seed and mutable engine
 * state `gen` are its only fields. Every randomness-consuming method advances
 * `gen` by a stated number of raw draws and is proved against the functions
 * of BoundedReduction and SamplingAlgorithms.
 */
module NupicRandom {
  import opened BitEngine
  import opened BoundedReduction
  import opened SamplingAlgorithms

  class Random {
    const seed: UInt64
    var gen: EngineState

    /** `gen` is the engine seeded with `seed`. */
    ghost predicate Valid()
      reads this
    {
      gen.seed == seed
    }

    /** Random(seed) for an explicit, non-zero seed. */
    constructor (seed: UInt64, algorithm: Algorithm)
      requires seed != 0
      ensures Valid() && this.seed == seed
      ensures gen == Seeded(algorithm, seed)
    {
      this.seed := seed;
      gen := Seeded(algorithm, seed);
    }

    /** operator==: same seed and same engine state. */
    ghost predicate Equals(other: Random)
      reads this, other
      ensures Equals(other) ==> seed == other.seed && gen.Output() == other.gen.Output()
    {
      seed == other.seed && gen == other.gen
    }

    /**
     * operator!=: the negation of operator==. Generators with different seeds
     * differ; generators running the same algorithm from the same seed differ
     * exactly when they have drawn different numbers of raw words.
     */
    ghost predicate NotEquals(other: Random)
      reads this, other
      requires Valid() && other.Valid()
      ensures seed != other.seed ==> NotEquals(other)
      ensures seed == other.seed && gen.algorithm == other.gen.algorithm ==>
                (NotEquals(other) <==> gen.draws != other.gen.draws)
    {
      !Equals(other)
    }

    /** getSeed(): the seed the engine was seeded with. */
    function GetSeed(): (s: UInt64)
      reads this
      requires Valid()
      ensures s == gen.seed
    {
      seed
    }

    /** One call of the engine, gen(): the next raw word. */
    method Next() returns (raw: UInt64)
      requires Valid()
      modifies this
      ensures Valid()
      ensures raw == old(gen).Output()
      ensures gen == old(gen).Advance(1)
    {
      raw := gen.Output();
      gen := gen.Advance(1);
    }

    /** getUInt32(max): a value in [0, max), the next raw word reduced modulo max. */
    method GetUInt32(max: UInt32 := MAX32) returns (r: UInt32)
      requires Valid()
      requires max > 0
      modifies this
      ensures Valid()
      ensures r < max
      ensures r == Reduce(old(gen).Output(), max)
      ensures gen == old(gen).Advance(1)
    {
      var raw := Next();
      r := raw % max;
    }

    /** operator()(n), for STL compatibility: the same as getUInt32(n). */
    method Apply(n: UInt32 := MAX32) returns (r: UInt32)
      requires Valid()
      requires n > 0
      modifies this
      ensures Valid()
      ensures r < n
      ensures r == Reduce(old(gen).Output(), n)
      ensures gen == old(gen).Advance(1)
    {
      r := GetUInt32(n);
    }

    /**
     * shuffle(first, last): rearranges a[first..last] in place, drawing one raw
     * word per position from the top of the range down to its second element.
     * ShuffleRange and FisherYatesDraws state what this leaves in a and gen.
     */
    method Shuffle<T>(a: array<T>, first: nat, last: nat)
      requires Valid()
      requires first <= last <= a.Length
      modifies this, a
      ensures Valid()
      ensures (a[..], gen) == FisherYates(old(a[..]), first, last - first, old(gen))
    {
      var n: nat := last - first;
      var i: nat := n;
      ghost var shuffled := FisherYates(a[..], first, n, gen);
      while i > 1
        invariant i <= n
        invariant Valid()
        invariant FisherYates(a[..], first, i, gen) == shuffled
      {
        ghost var before := a[..];
        var raw := Next();
        var j := raw % i;
        a[first + i - 1], a[first + j] := a[first + j], a[first + i - 1];
        assert a[..] == Swap(before, first + i - 1, first + j);
        i := i - 1;
      }
      FisherYatesDone(a[..], first, i, gen);
    }

    /**
     * sample(population, nChoices): the first nChoices elements of a shuffled
     * copy of population; fails its check, drawing nothing, when nChoices
     * exceeds the population.
     */
    method Sample<T>(population: seq<T>, nChoices: UInt32) returns (r: Result<seq<T>>)
      requires Valid()
      modifies this
      ensures Valid()
      ensures (r, gen) == Sampled(population, nChoices, old(gen))
    {
      if nChoices == 0 {
        return Success([]);
      }
      if nChoices > |population| {
        return Failure(PopulationTooSmall);
      }
      var pop := new T[|population|](i requires 0 <= i < |population| => population[i]);
      assert pop[..] == population;
      Shuffle(pop, 0, pop.Length);
      r := Success(pop[..nChoices]);
    }

    /**
     * sample(population, nPopulation, choices, nChoices): samples from the
     * first nPopulation elements of an array and copies the choices into the
     * first nChoices slots of another.
     */
    method SampleToArray<T>(population: array<T>, nPopulation: UInt32, choices: array<T>, nChoices: UInt32)
      returns (r: Result<()>)
      requires Valid()
      requires nPopulation <= population.Length
      requires nChoices <= nPopulation ==> nChoices <= choices.Length
      modifies this, choices
      ensures Valid()
      ensures gen == Sampled(old(population[..nPopulation]), nChoices, old(gen)).1
      ensures r.Success? <==> Sampled(old(population[..nPopulation]), nChoices, old(gen)).0.Success?
      ensures r.Failure? ==> r.message == Sampled(old(population[..nPopulation]), nChoices, old(gen)).0.message
      ensures r.Failure? ==> choices[..] == old(choices[..])
      ensures r.Success? ==>
                && choices[..nChoices] == Sampled(old(population[..nPopulation]), nChoices, old(gen)).0.value
                && choices[nChoices..] == old(choices[nChoices..])
    {
      var vPop := population[..nPopulation];
      var vChoices := Sample(vPop, nChoices);
      if vChoices.Failure? {
        return Failure(vChoices.message);
      }
      var chosen := vChoices.value;
      SampleLaws(vPop, nChoices, old(gen));
      var i := 0;
      while i < |chosen|
        modifies choices
        invariant i <= |chosen| == nChoices <= choices.Length
        invariant choices[..i] == chosen[..i]
        invariant choices[nChoices..] == old(choices[nChoices..])
      {
        choices[i] := chosen[i];
        i := i + 1;
      }
      r := Success(());
    }
  }

  /**
   * Two generators built from the same seed compare equal until one of them
   * draws: a single getUInt32 on one makes them unequal.
   */
  method DivergeAfterDraw(seed: UInt64, algorithm: Algorithm, max: UInt32) returns (a: Random, b: Random)
    requires seed != 0 && max > 0
    ensures a.Valid() && b.Valid() && a.seed == b.seed == seed
    ensures a.gen == b.gen.Advance(1)
    ensures a.NotEquals(b)
  {
    a := new Random(seed, algorithm);
    b := new Random(seed, algorithm);
    assert a.Equals(b);
    var _ := a.GetUInt32(max);
  }

  /**
   * Reproducibility: two generators constructed with the same seed and given
   * the same calls (a run of getUInt32 with the given bounds, a shuffle of a
   * copy of deck, then one sample) return the same values.
   */
  method ReplayFromSeed<T>(seed: UInt64, algorithm: Algorithm, bounds: seq<UInt32>, deck: seq<T>,
                           population: seq<T>, nChoices: UInt32)
    returns (xs: seq<UInt32>, ys: seq<UInt32>, dx: seq<T>, dy: seq<T>, sx: Result<seq<T>>, sy: Result<seq<T>>)
    requires seed != 0
    requires forall k :: 0 <= k < |bounds| ==> bounds[k] > 0
    ensures |xs| == |bounds| && forall k :: 0 <= k < |xs| ==> xs[k] < bounds[k]
    ensures xs == ys && dx == dy && sx == sy
  {
    var a := new Random(seed, algorithm);
    var b := new Random(seed, algorithm);
    xs, ys := [], [];
    var i := 0;
    while i < |bounds|
      invariant i <= |bounds|
      invariant a.Valid() && b.Valid() && a.Equals(b)
      invariant |xs| == i && forall k :: 0 <= k < i ==> xs[k] < bounds[k]
      invariant xs == ys
    {
      var x := a.GetUInt32(bounds[i]);
      var y := b.GetUInt32(bounds[i]);
      xs, ys := xs + [x], ys + [y];
      i := i + 1;
    }
    var da := new T[|deck|](k requires 0 <= k < |deck| => deck[k]);
    var db := new T[|deck|](k requires 0 <= k < |deck| => deck[k]);
    assert da[..] == db[..];
    a.Shuffle(da, 0, da.Length);
    b.Shuffle(db, 0, db.Length);
    dx, dy := da[..], db[..];
    sx := a.Sample(population, nChoices);
    sy := b.Sample(population, nChoices);
  }
}
